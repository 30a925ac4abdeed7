/**
  Commits that may crash after any disk operation: what is loaded afterwards is
  always the last checkpoint whose manifest rename happened.
 */
module StorageCrashes {
  import opened Wrappers
  import opened Storage

  /** A commit of which the first `steps` disk operations happened; all of them make it complete. */
  datatype Attempt<C> = Attempt(checkpoint: C, steps: nat) {
    predicate Completes() {
      steps >= COMMIT_LENGTH
    }
  }

  function Attempted<C>(files: Files<C>, attempt: Attempt<C>): Files<C> {
    match LoadManifest(files)
    case Err(_) => files
    case Ok(manifest) =>
      var ops := CommitOps(NextGeneration(manifest), attempt.checkpoint);
      AllExecuted(files, if attempt.Completes() then ops else ops[..attempt.steps])
  }

  /** The disk after some attempts on an empty directory. */
  function DiskAfter<C>(attempts: seq<Attempt<C>>): Files<C> {
    if attempts == [] then map[]
    else Attempted(DiskAfter(attempts[..|attempts| - 1]), attempts[|attempts| - 1])
  }

  function LastCompleted<C>(attempts: seq<Attempt<C>>): Option<C> {
    if attempts == [] then None
    else if attempts[|attempts| - 1].Completes() then Some(attempts[|attempts| - 1].checkpoint)
    else LastCompleted(attempts[..|attempts| - 1])
  }

  function CompletedCount<C>(attempts: seq<Attempt<C>>): nat {
    if attempts == [] then 0
    else CompletedCount(attempts[..|attempts| - 1]) + if attempts[|attempts| - 1].Completes() then 1 else 0
  }

  /** What the disk shows: the manifest names a generation whose checkpoint is complete. */
  ghost predicate Shows<C>(files: Files<C>, committed: Option<C>, generation: nat) {
    match committed
    case None => generation == 0 && MANIFEST_PATH !in files
    case Some(checkpoint) =>
      && MANIFEST_PATH in files
      && files[MANIFEST_PATH] == Whole(ManifestDocument(Manifest(STORAGE_FORMAT_VERSION, generation)))
      && CheckpointPath(generation) in files
      && files[CheckpointPath(generation)] == Whole(CheckpointDocument(checkpoint))
  }

  lemma ShownIsLoaded<C>(files: Files<C>, committed: Option<C>, generation: nat)
    requires Shows(files, committed, generation)
    ensures LoadLatest(files) == Ok(committed)
    ensures LoadManifest(files)
         == Ok(if committed.None? then None else Some(Manifest(STORAGE_FORMAT_VERSION, generation)))
  {
  }

  /** An operation on other files does not change what is shown. */
  ghost predicate Elsewhere<C>(op: DiskOp<C>, generation: nat) {
    match op
    case Create(path) => path != MANIFEST_PATH && path != CheckpointPath(generation)
    case Write(path, _) => path != MANIFEST_PATH && path != CheckpointPath(generation)
    case Rename(source, target) =>
      && source != MANIFEST_PATH && source != CheckpointPath(generation)
      && target != MANIFEST_PATH && target != CheckpointPath(generation)
  }

  lemma {:induction false} ElsewhereStillShows<C>(files: Files<C>, ops: seq<DiskOp<C>>, committed: Option<C>, generation: nat)
    requires Shows(files, committed, generation)
    requires forall op | op in ops :: Elsewhere(op, generation)
    ensures Shows(AllExecuted(files, ops), committed, generation)
  {
    if ops != [] {
      var front := ops[..|ops| - 1];
      assert forall op | op in front :: op in ops;
      assert ops[|ops| - 1] in ops;
      ElsewhereStillShows(files, front, committed, generation);
    }
  }

  /** Everything before the last operation of a commit happens elsewhere. */
  lemma CommitStartsElsewhere<C>(generation: nat, checkpoint: C, steps: nat)
    requires steps < COMMIT_LENGTH
    ensures forall op | op in CommitOps(generation + 1, checkpoint)[..steps] :: Elsewhere(op, generation)
  {
    NamesDiffer(generation + 1, generation);
    NamesDiffer(generation, generation + 1);
    if CheckpointPath(generation + 1) == CheckpointPath(generation) {
      CheckpointPathsDiffer(generation + 1, generation);
    }
  }

  /** The complete commit shows the new checkpoint, whatever was left behind under its name. */
  lemma CommitShowsNew<C>(files: Files<C>, generation: nat, checkpoint: C)
    ensures Shows(AllExecuted(files, CommitOps(generation, checkpoint)), Some(checkpoint), generation)
  {
    var manifest := ManifestDocument(Manifest(STORAGE_FORMAT_VERSION, generation));
    var first := AtomicWrite(CheckpointPath(generation), CheckpointDocument(checkpoint));
    NamesDiffer(generation, generation);
    ExecutedSplit(files, first, AtomicWrite(MANIFEST_PATH, manifest));
    AtomicWriteExecuted(files, CheckpointPath(generation), CheckpointDocument(checkpoint));
    AtomicWriteExecuted(AllExecuted(files, first), MANIFEST_PATH, manifest);
  }

  lemma CommitLength<C>(generation: nat, checkpoint: C)
    ensures |CommitOps(generation, checkpoint)| == COMMIT_LENGTH
  {
  }

  lemma AttemptShows<C>(files: Files<C>, attempt: Attempt<C>, committed: Option<C>, generation: nat)
    requires Shows(files, committed, generation)
    ensures
      if attempt.Completes() then Shows(Attempted(files, attempt), Some(attempt.checkpoint), generation + 1)
      else Shows(Attempted(files, attempt), committed, generation)
  {
    hide AllExecuted, CommitOps;
    ShownIsLoaded(files, committed, generation);
    CommitLength(generation + 1, attempt.checkpoint);
    if attempt.Completes() {
      CommitShowsNew(files, generation + 1, attempt.checkpoint);
    } else {
      CommitStartsElsewhere(generation, attempt.checkpoint, attempt.steps);
      ElsewhereStillShows(files, CommitOps(generation + 1, attempt.checkpoint)[..attempt.steps], committed, generation);
    }
  }

  lemma {:induction false} DiskShowsLastCompleted<C>(attempts: seq<Attempt<C>>)
    ensures Shows(DiskAfter(attempts), LastCompleted(attempts), CompletedCount(attempts))
  {
    hide Shows, Attempted;
    if attempts == [] {
      EmptyShowsNothing<C>();
    } else {
      DiskShowsLastCompleted(attempts[..|attempts| - 1]);
      AttemptShows(DiskAfter(attempts[..|attempts| - 1]), attempts[|attempts| - 1],
                   LastCompleted(attempts[..|attempts| - 1]), CompletedCount(attempts[..|attempts| - 1]));
    }
  }

  lemma EmptyShowsNothing<C>()
    ensures Shows<C>(map[], None, 0)
  {
  }

  /**
    Main result: after any commits, each crashed anywhere or completed, loading succeeds
    and gives the last completed checkpoint, and the visible generation is the number of
    completed commits.
   */
  lemma CrashSafety<C>(attempts: seq<Attempt<C>>)
    ensures LoadLatest(DiskAfter(attempts)) == Ok(LastCompleted(attempts))
    ensures LoadManifest(DiskAfter(attempts))
         == Ok(if CompletedCount(attempts) == 0 then None
               else Some(Manifest(1, CompletedCount(attempts))))
  {
    DiskShowsLastCompleted(attempts);
    ShownIsLoaded(DiskAfter(attempts), LastCompleted(attempts), CompletedCount(attempts));
    CountMatches(attempts);
  }

  lemma {:induction false} CountMatches<C>(attempts: seq<Attempt<C>>)
    ensures LastCompleted(attempts) == None <==> CompletedCount(attempts) == 0
  {
    if attempts != [] {
      CountMatches(attempts[..|attempts| - 1]);
    }
  }
}
