/**
  The checkpoint store (StorageManager in crates/quine-harness/src/storage.rs).  A
  commit writes the checkpoint of the next generation to a temporary file, renames it
  into place, and then does the same with the manifest that names the generation.
  Renaming is atomic, and operations reach the disk in order.
 */
module Storage {
  import opened Wrappers
  import opened Decimals

  datatype Manifest = Manifest(formatVersion: nat, currentGeneration: nat)

  /** What a file can hold.  A document that is written out completely can be read back. */
  datatype Document<C> = ManifestDocument(manifest: Manifest) | CheckpointDocument(checkpoint: C)

  /** A file that has been created but not completely written is torn. */
  datatype Content<C> = Whole(document: Document<C>) | Torn

  datatype StorageError = NotFound(path: string) | Malformed(path: string)

  type Files<C> = map<string, Content<C>>

  const STORAGE_FORMAT_VERSION := 1

  // ----- Names -----

  const MANIFEST_PATH := "manifest.json"

  function CheckpointPath(generation: nat): string {
    "checkpoint-" + Decimal(generation) + ".json"
  }

  function TemporaryPath(finalPath: string): string {
    finalPath + ".tmp"
  }

  lemma CheckpointPathsDiffer(m: nat, n: nat)
    requires CheckpointPath(m) == CheckpointPath(n)
    ensures m == n
  {
    var a, b := CheckpointPath(m), CheckpointPath(n);
    assert a[|"checkpoint-"|..|a| - |".json"|] == Decimal(m) && b[|"checkpoint-"|..|b| - |".json"|] == Decimal(n);
    DecimalInjective(m, n);
  }

  /** The files of a commit never overwrite the manifest or an earlier checkpoint by accident. */
  lemma NamesDiffer(m: nat, n: nat)
    ensures CheckpointPath(m) != MANIFEST_PATH
    ensures TemporaryPath(CheckpointPath(m)) != MANIFEST_PATH && TemporaryPath(MANIFEST_PATH) != CheckpointPath(m)
    ensures TemporaryPath(CheckpointPath(m)) != CheckpointPath(n)
    ensures TemporaryPath(CheckpointPath(m)) != TemporaryPath(MANIFEST_PATH)
    ensures TemporaryPath(MANIFEST_PATH) != MANIFEST_PATH
  {
    var c, d := CheckpointPath(m), CheckpointPath(n);
    assert c[0] == 'c' && MANIFEST_PATH[0] == 'm';
    assert TemporaryPath(c)[0] == 'c' && TemporaryPath(MANIFEST_PATH)[0] == 'm';
    assert d[|d| - 1] == 'n' && TemporaryPath(c)[|c| + 3] == 'p';
    assert |TemporaryPath(MANIFEST_PATH)| == |MANIFEST_PATH| + 4;
  }

  // ----- The disk -----

  datatype DiskOp<C> =
    | Create(path: string)
    | Write(path: string, document: Document<C>)
    | Rename(source: string, target: string)

  function Executed<C>(files: Files<C>, op: DiskOp<C>): Files<C> {
    match op
    case Create(path) => files[path := Torn]
    case Write(path, document) => files[path := Whole(document)]
    case Rename(source, target) => if source in files then files[target := files[source]] - {source} else files
  }

  function AllExecuted<C>(files: Files<C>, ops: seq<DiskOp<C>>): Files<C> {
    if ops == [] then files else Executed(AllExecuted(files, ops[..|ops| - 1]), ops[|ops| - 1])
  }

  function ReadDocument<C>(files: Files<C>, path: string): Result<Document<C>, StorageError> {
    if path !in files then Err(NotFound(path))
    else match files[path] case Whole(document) => Ok(document) case Torn => Err(Malformed(path))
  }

  // ----- Reading and committing, as functions -----

  function LoadManifest<C>(files: Files<C>): Result<Option<Manifest>, StorageError> {
    match ReadDocument(files, MANIFEST_PATH)
    case Err(NotFound(_)) => Ok(None)
    case Err(error) => Err(error)
    case Ok(ManifestDocument(manifest)) => Ok(Some(manifest))
    case Ok(CheckpointDocument(_)) => Err(Malformed(MANIFEST_PATH))
  }

  function LoadLatest<C>(files: Files<C>): Result<Option<C>, StorageError> {
    match LoadManifest(files)
    case Err(error) => Err(error)
    case Ok(None) => Ok(None)
    case Ok(Some(manifest)) =>
      var path := CheckpointPath(manifest.currentGeneration);
      match ReadDocument(files, path)
      case Err(error) => Err(error)
      case Ok(CheckpointDocument(checkpoint)) => Ok(Some(checkpoint))
      case Ok(ManifestDocument(_)) => Err(Malformed(path))
  }

  function NextGeneration(manifest: Option<Manifest>): nat {
    match manifest case None => 1 case Some(m) => m.currentGeneration + 1
  }

  function AtomicWrite<C>(path: string, document: Document<C>): seq<DiskOp<C>> {
    [Create(TemporaryPath(path)), Write(TemporaryPath(path), document), Rename(TemporaryPath(path), path)]
  }

  /** The disk operations of one commit, in order. */
  function CommitOps<C>(generation: nat, checkpoint: C): seq<DiskOp<C>> {
    AtomicWrite(CheckpointPath(generation), CheckpointDocument(checkpoint))
    + AtomicWrite(MANIFEST_PATH, ManifestDocument(Manifest(STORAGE_FORMAT_VERSION, generation)))
  }

  const COMMIT_LENGTH := 6

  class Disk<C> {
    var files: Files<C>

    constructor ()
      ensures files == map[]
    {
      files := map[];
    }
  }

  class StorageManager<C> {
    const disk: Disk<C>

    constructor (disk: Disk<C>)
      ensures this.disk == disk
    {
      this.disk := disk;
    }

    method ReadManifest() returns (manifest: Result<Option<Manifest>, StorageError>)
      ensures manifest == LoadManifest(disk.files)
    {
      var document := ReadDocument(disk.files, MANIFEST_PATH);
      match document {
        case Err(NotFound(_)) => manifest := Ok(None);
        case Err(error) => manifest := Err(error);
        case Ok(ManifestDocument(m)) => manifest := Ok(Some(m));
        case Ok(CheckpointDocument(_)) => manifest := Err(Malformed(MANIFEST_PATH));
      }
    }

    method LoadLatestCheckpoint() returns (checkpoint: Result<Option<C>, StorageError>)
      ensures checkpoint == LoadLatest(disk.files)
    {
      var manifest := ReadManifest();
      match manifest {
        case Err(error) => return Err(error);
        case Ok(None) => return Ok(None);
        case Ok(Some(m)) =>
          var path := CheckpointPath(m.currentGeneration);
          var document := ReadDocument(disk.files, path);
          match document {
            case Err(error) => return Err(error);
            case Ok(CheckpointDocument(c)) => return Ok(Some(c));
            case Ok(ManifestDocument(_)) => return Err(Malformed(path));
          }
      }
    }

    method WriteJsonAtomic(finalPath: string, document: Document<C>)
      modifies disk
      ensures disk.files == AllExecuted(old(disk.files), AtomicWrite(finalPath, document))
    {
      AtomicWriteExecuted(disk.files, finalPath, document);
      var tmpPath := TemporaryPath(finalPath);
      disk.files := disk.files[tmpPath := Torn];
      disk.files := disk.files[tmpPath := Whole(document)];
      disk.files := disk.files[finalPath := disk.files[tmpPath]] - {tmpPath};
    }

    /** Nothing is written when the manifest cannot be read. */
    method CommitCheckpoint(checkpoint: C) returns (committed: Result<(), StorageError>)
      modifies disk
      ensures
        match LoadManifest(old(disk.files))
        case Err(error) => committed == Err(error) && disk.files == old(disk.files)
        case Ok(manifest) =>
          && committed == Ok(())
          && disk.files == AllExecuted(old(disk.files), CommitOps(NextGeneration(manifest), checkpoint))
    {
      var manifest := ReadManifest();
      match manifest {
        case Err(error) => return Err(error);
        case Ok(current) =>
          var generation := NextGeneration(current);
          var first, second := AtomicWrite(CheckpointPath(generation), CheckpointDocument(checkpoint)),
                               AtomicWrite(MANIFEST_PATH, ManifestDocument(Manifest(STORAGE_FORMAT_VERSION, generation)));
          ExecutedSplit(disk.files, first, second);
          WriteJsonAtomic(CheckpointPath(generation), CheckpointDocument(checkpoint));
          WriteJsonAtomic(MANIFEST_PATH, ManifestDocument(Manifest(STORAGE_FORMAT_VERSION, generation)));
          return Ok(());
      }
    }
  }

  lemma AtomicWriteExecuted<C>(files: Files<C>, path: string, document: Document<C>)
    ensures
      var tmp := TemporaryPath(path);
      AllExecuted(files, AtomicWrite(path, document))
      == files[tmp := Torn][tmp := Whole(document)][path := Whole(document)] - {tmp}
  {
    var tmp, ops := TemporaryPath(path), AtomicWrite(path, document);
    assert ops[..2][..1] == ops[..1] && ops[..1][..0] == [];
    assert AllExecuted(files, ops[..1]) == files[tmp := Torn];
    assert AllExecuted(files, ops[..2]) == files[tmp := Torn][tmp := Whole(document)];
    assert |tmp| != |path|;
  }

  lemma {:induction false} ExecutedSplit<C>(files: Files<C>, left: seq<DiskOp<C>>, right: seq<DiskOp<C>>)
    ensures AllExecuted(files, left + right) == AllExecuted(AllExecuted(files, left), right)
  {
    if right == [] {
      assert left + right == left;
    } else {
      assert (left + right)[..|left + right| - 1] == left + right[..|right| - 1];
      ExecutedSplit(files, left, right[..|right| - 1]);
    }
  }

  // ----- What loading gives -----

  /** Main result: what a reader gets for every state of the two files. */
  lemma LoadingIs<C>(files: Files<C>)
    ensures "manifest.json" !in files ==> LoadLatest(files) == Ok(None)
    ensures "manifest.json" in files && files["manifest.json"].Torn? ==> LoadLatest(files).Err?
    ensures "manifest.json" in files && files["manifest.json"].Whole? && files["manifest.json"].document.ManifestDocument? ==>
              var path := "checkpoint-" + Decimal(files["manifest.json"].document.manifest.currentGeneration) + ".json";
              if path in files && files[path].Whole? && files[path].document.CheckpointDocument?
              then LoadLatest(files) == Ok(Some(files[path].document.checkpoint))
              else LoadLatest(files).Err?
    ensures "manifest.json" in files && files["manifest.json"].Whole? && files["manifest.json"].document.CheckpointDocument? ==>
              LoadLatest(files).Err?
  {
    hide Decimal;
  }
}
