/** Versioned, checksummed snapshots and their atomic replacement.
    The SHA-256 digest is any function of the digested text. */
module Snapshot {
  import opened Values
  import opened JsonCodec

  const SNAPSHOT_VERSION := 1

  type Digest = string -> string

  type Collections = Document

  // ---------- file format ----------

  function Payload(sequence: int, collections: Collections): Document {
    map["version" := Int(SNAPSHOT_VERSION), "seq" := Int(sequence), "collections" := Obj(collections)]
  }

  function EncodeSnapshot(sha: Digest, sequence: int, collections: Collections): string {
    var payload := Obj(Payload(sequence, collections));
    Print(Obj(map["payload" := payload, "sha256" := Str(sha(Print(payload)))])) + "\n"
  }

  /** The text of an existing snapshot file; None stands for an exception. */
  function DecodeSnapshot(py: Python, sha: Digest, text: string): Option<(int, Collections)> {
    match Loads(text)
    case Some(Obj(record)) =>
      if "payload" in record && record["payload"].Obj? then
        var payload := record["payload"].fields;
        if !("version" in payload && PyEq(payload["version"], Int(SNAPSHOT_VERSION))) then None
        else if !("sha256" in record && record["sha256"] == Str(sha(Print(Obj(payload))))) then None
        else if !("seq" in payload && "collections" in payload) then None
        else
          match (IntOf(py, payload["seq"]), DictOf(payload["collections"]))
          case (Cast(sequence), Some(collections)) => Some((sequence, collections))
          case _ => None
      else None
    case _ => None
  }

  /** `read_snapshot`: a missing file is the empty database at sequence 0. */
  function ReadSnapshot(decode: string -> Option<(int, Collections)>, file: Option<string>)
    : Option<(int, Collections)>
  {
    match file
    case None => Some((0, map[]))
    case Some(text) => decode(text)
  }

  /** A written snapshot reads back as the sequence and collections it was written for. */
  lemma SnapshotRoundTrip(py: Python, sha: Digest, sequence: int, collections: Collections)
    ensures DecodeSnapshot(py, sha, EncodeSnapshot(sha, sequence, collections)) == Some((sequence, collections))
  {
    hide Print, Loads;
    var payload := Payload(sequence, collections);
    var record := map["payload" := Obj(payload), "sha256" := Str(sha(Print(Obj(payload))))];
    RoundTrip(Obj(record), "\n");
    assert Loads(EncodeSnapshot(sha, sequence, collections)) == Some(Obj(record));
    assert PyEq(payload["version"], Int(SNAPSHOT_VERSION));
  }

  /** A snapshot file whose stored digest is not the digest of its payload is refused. */
  lemma DigestFailureRefused(py: Python, sha: Digest, payload: Document, stored: string)
    requires stored != sha(Print(Obj(payload)))
    ensures DecodeSnapshot(py, sha, Print(Obj(map["payload" := Obj(payload), "sha256" := Str(stored)])) + "\n") == None
  {
    hide Print, Loads;
    RoundTrip(Obj(map["payload" := Obj(payload), "sha256" := Str(stored)]), "\n");
  }

  // ---------- atomic replacement ----------

  /** A file that was renamed into place; `synced` says whether its contents had reached the disk. */
  datatype Target = Target(text: Option<string>, synced: bool)

  /** A target file and the temporary beside it. `visible` is what a reader of the running system sees, `durable` what
      is certain to survive a crash, and `earlier` what was visible since the directory was last synced. */
  datatype Files = Files(
    visible: Target, earlier: set<Target>, durable: Option<string>, temp: string, tempSynced: bool
  )

  function WriteTemp(f: Files, text: string): Files {
    f.(temp := text, tempSynced := false)
  }

  function SyncTemp(f: Files): Files {
    f.(tempSynced := true)
  }

  function Replace(f: Files): Files {
    f.(visible := Target(Some(f.temp), f.tempSynced), earlier := f.earlier + {f.visible})
  }

  function SyncDirectory(f: Files): Files {
    f.(durable := f.visible.text, earlier := {})
  }

  /** What a crash may leave of a file: all of it if it was synced, and any part of it if not. */
  predicate Leaves(t: Target, left: Option<string>) {
    if t.synced || t.text.None? then left == t.text else left.Some? && left.value <= t.text.value
  }

  /** The target file a crash may leave: the durable one, or any renamed over it since. */
  predicate MayLeave(f: Files, left: Option<string>) {
    left == f.durable || Leaves(f.visible, left) || exists t | t in f.earlier :: Leaves(t, left)
  }

  predicate Settled(f: Files) {
    f.visible == Target(f.durable, true) && f.earlier == {}
  }

  function SettledAt(target: Option<string>, temp: string): Files {
    Files(Target(target, true), {}, target, temp, true)
  }

  /** The file-system updates of `write_snapshot`, in program order. */
  class SnapshotStore {
    const sha: Digest
    var files: Files

    constructor (sha: Digest, target: Option<string>)
      ensures this.sha == sha && files == SettledAt(target, "")
    {
      this.sha := sha;
      files := SettledAt(target, "");
    }

    /** At every moment of the write a crash leaves what it could leave before or the new snapshot, complete; afterwards
        it leaves the new one, unless the sync of the directory failed, which is ignored. */
    method WriteSnapshot(sequence: int, collections: Collections, directorySyncs: bool)
        returns (ghost moments: seq<Files>)
      modifies this`files
      ensures var text := EncodeSnapshot(sha, sequence, collections);
        files.visible == Target(Some(text), true)
        && if directorySyncs then files == SettledAt(Some(text), text) else files.durable == old(files.durable)
      ensures moments != [] && moments[0] == old(files) && moments[|moments| - 1] == files
      ensures forall moment <- moments, left :: MayLeave(moment, left) ==>
          MayLeave(old(files), left) || left == Some(EncodeSnapshot(sha, sequence, collections))
      ensures old(Settled(files)) ==> forall moment <- moments, left :: MayLeave(moment, left) ==>
          left == old(files.durable) || left == Some(EncodeSnapshot(sha, sequence, collections))
    {
      hide EncodeSnapshot;
      var text := EncodeSnapshot(sha, sequence, collections);
      moments := [files];
      files := WriteTemp(files, text);
      moments := moments + [files];
      files := SyncTemp(files);
      moments := moments + [files];
      files := Replace(files);
      moments := moments + [files];
      if directorySyncs {
        files := SyncDirectory(files);
        moments := moments + [files];
      }
    }
  }

  /** The sync before the rename is what makes the replacement atomic: a crash after it leaves what it could leave
      before, or the new file, complete exactly when the temporary was synced. */
  lemma ReplaceAtomicIffSynced(f: Files)
    requires |f.temp| > 1
    ensures forall left ::
        MayLeave(Replace(f), left) <==> MayLeave(f, left) || Leaves(Target(Some(f.temp), f.tempSynced), left)
    ensures (forall left :: Leaves(Target(Some(f.temp), f.tempSynced), left) ==> left == Some(f.temp)) <==> f.tempSynced
    ensures Settled(f) ==>
      ((forall left :: MayLeave(Replace(f), left) ==> left == f.durable || left == Some(f.temp)) <==> f.tempSynced)
  {
    forall left
      ensures MayLeave(Replace(f), left) <==> MayLeave(f, left) || Leaves(Target(Some(f.temp), f.tempSynced), left)
    {
      var g := Replace(f);
      if Leaves(f.visible, left) { assert f.visible in g.earlier; }
      if t :| t in f.earlier && Leaves(t, left) { assert t in g.earlier; }
    }
    if !f.tempSynced {
      assert Leaves(Target(Some(f.temp), false), Some(""));
      var left := if f.durable == Some("") then Some(f.temp[..1]) else Some("");
      assert Leaves(Target(Some(f.temp), false), left);
      assert MayLeave(Replace(f), left);
    }
  }
}
