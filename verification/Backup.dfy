/** Point-in-time restore from the version histories a backup holds, and the manifest that guards the backup. */
module Backup {
  import opened Values
  import opened Snapshot
  import JsonCodec

  /** One history entry as `point_in_time_restore` reads it: an absent sequence is 0, an absent document or
      null a deletion. */
  datatype Version = Version(sequence: int, document: Option<Json>)

  type History = map<string, seq<Version>>

  // ---------- reading histories ----------

  /** `int(entry.get("seq", 0))` and `entry.get("document")`; None stands for an exception. */
  function ReadVersion(py: Python, entry: Json): Option<Version> {
    if !entry.Obj? then None
    else match if "seq" in entry.fields then IntOf(py, entry.fields["seq"]) else Cast(0)
      case Cast(n) =>
        var present := "document" in entry.fields && entry.fields["document"] != Null;
        Some(Version(n, if present then Some(entry.fields["document"]) else None))
      case _ => None
  }

  function ReadVersions(py: Python, items: seq<Json>): (r: Option<seq<Version>>)
    ensures r.Some? ==> |r.value| == |items|
  {
    if items == [] then Some([])
    else match (ReadVersions(py, items[..|items| - 1]), ReadVersion(py, items[|items| - 1]))
      case (Some(before), Some(last)) => Some(before + [last])
      case _ => None
  }

  /** The entries of one document: a list, or anything else that is iterated without a single item. */
  function ReadEntries(py: Python, entries: Json): Option<seq<Version>> {
    match entries
    case Arr(items) => ReadVersions(py, items)
    case Str(s) => if s == "" then Some([]) else None
    case Obj(m) => if m == map[] then Some([]) else None
    case _ => None
  }

  /** None when reading any entry raises. */
  function ReadHistory(py: Python, history: Document): Option<History> {
    if exists id :: id in history && ReadEntries(py, history[id]).None? then None
    else Some(map id | id in history :: ReadEntries(py, history[id]).value)
  }

  // ---------- the latest version at a sequence ----------

  /** The position of the entry `max` picks among those at or before n, or -1 when there is none:
      the greatest sequence, and the first of equals. */
  function Latest(entries: seq<Version>, n: int): (r: int)
    ensures -1 <= r < |entries|
    ensures r == -1 <==> forall i | 0 <= i < |entries| :: entries[i].sequence > n
    ensures r >= 0 ==> entries[r].sequence <= n
    ensures r >= 0 ==> forall i | 0 <= i < |entries| && entries[i].sequence <= n ::
        entries[i].sequence <= entries[r].sequence && (i < r ==> entries[i].sequence < entries[r].sequence)
  {
    if entries == [] then -1 else
    var last := |entries| - 1;
    var r := Latest(entries[..last], n);
    if entries[last].sequence <= n && (r == -1 || entries[last].sequence > entries[r].sequence) then last else r
  }

  function DocumentAt(entries: seq<Version>, n: int): Option<Json> {
    var r := Latest(entries, n);
    if r == -1 then None else entries[r].document
  }

  function DocumentsAt(history: History, n: int): Document {
    map id | id in history && DocumentAt(history[id], n).Some? :: DocumentAt(history[id], n).value
  }

  // ---------- the manifest ----------

  const BACKUP_VERSION := 1
  const BACKED_UP := {"snapshot.json", "wal.log"}

  /** `read_snapshot` of a backup's snapshot. */
  function SnapshotIn(py: Python, sha: Digest, directory: map<string, string>): Option<(int, Collections)> {
    ReadSnapshot(text => DecodeSnapshot(py, sha, text),
      if "snapshot.json" in directory then Some(directory["snapshot.json"]) else None)
  }

  function FileSpec(sha: Digest, text: string): Json {
    Obj(map["bytes" := Int(|text|), "sha256" := Str(sha(text))])
  }

  function ManifestBody(sha: Digest, createdAt: Json, sequence: int, files: map<string, string>): Document {
    map["version" := Int(BACKUP_VERSION), "created_at" := createdAt, "sequence" := Int(sequence),
      "files" := Obj(map name | name in files && name in BACKED_UP :: FileSpec(sha, files[name]))]
  }

  /** A manifest carries the digest of its other fields. */
  function Sign(sha: Digest, body: Document): Document {
    body["manifest_sha256" := Str(sha(JsonCodec.Print(Obj(body))))]
  }

  predicate FileIntact(py: Python, sha: Digest, directory: map<string, string>, name: string, spec: Json) {
    name in directory && spec.Obj?
    && "bytes" in spec.fields && IntOf(py, spec.fields["bytes"]) == Cast(|directory[name]|)
    && "sha256" in spec.fields && spec.fields["sha256"] == Str(sha(directory[name]))
  }

  /** `verify` does not raise. */
  predicate Verifies(py: Python, sha: Digest, directory: map<string, string>, manifest: Document) {
    var body := manifest - {"manifest_sha256"};
    "manifest_sha256" in manifest && manifest["manifest_sha256"] == Str(sha(JsonCodec.Print(Obj(body))))
    && "version" in body && PyEq(body["version"], Int(BACKUP_VERSION))
    && "files" in body && body["files"].Obj? && "sequence" in body
    && (forall name | name in body["files"].fields :: FileIntact(py, sha, directory, name, body["files"].fields[name]))
    && SnapshotIn(py, sha, directory).Some?
  }

  ghost predicate Injective(sha: Digest) {
    forall a: string, b: string :: sha(a) == sha(b) ==> a == b
  }

  /** A backup verifies exactly when every file it took is still there unchanged and its snapshot loads. */
  lemma VerifiesIffUntouched(py: Python, sha: Digest, createdAt: Json, sequence: int,
                             files: map<string, string>, directory: map<string, string>)
    requires Injective(sha)
    ensures Verifies(py, sha, directory, Sign(sha, ManifestBody(sha, createdAt, sequence, files)))
      <==> (forall name | name in files && name in {"snapshot.json", "wal.log"} ::
              name in directory && directory[name] == files[name])
           && SnapshotIn(py, sha, directory).Some?
  {
    hide JsonCodec.Print, Norm, SnapshotIn;
    var body := ManifestBody(sha, createdAt, sequence, files);
    assert Sign(sha, body) - {"manifest_sha256"} == body;
    var specs := body["files"].fields;
    assert PyEq(body["version"], Int(BACKUP_VERSION));
    forall name | name in files && name in BACKED_UP
      ensures FileIntact(py, sha, directory, name, specs[name]) <==> name in directory && directory[name] == files[name]
    {
      assert specs[name] == FileSpec(sha, files[name]);
    }
  }

  /** A manifest that is signed is refused all the same if it has another version, no files or no sequence, or lists a
      file that is missing or has another size or digest. */
  lemma ManifestRefused(py: Python, sha: Digest, directory: map<string, string>, body: Document)
    requires "manifest_sha256" !in body
    requires "version" !in body || !PyEq(body["version"], Int(1)) || "sequence" !in body
      || "files" !in body || !body["files"].Obj?
      || exists name | name in body["files"].fields ::
          name !in directory || !body["files"].fields[name].Obj? || var spec := body["files"].fields[name].fields;
            ("bytes" in spec && spec["bytes"].Int? && spec["bytes"].n != |directory[name]|)
            || ("sha256" in spec && spec["sha256"] != Str(sha(directory[name])))
            || "bytes" !in spec || "sha256" !in spec
    ensures !Verifies(py, sha, directory, Sign(sha, body))
  {
    assert Sign(sha, body) - {"manifest_sha256"} == body;
    hide Norm, JsonCodec.Print, SnapshotIn;
  }

  /** A manifest altered in any field, but not re-signed, is refused. */
  lemma AlteredManifestRefused(py: Python, sha: Digest, directory: map<string, string>,
                               body: Document, altered: Document)
    requires Injective(sha) && altered != body
    requires "manifest_sha256" !in body && "manifest_sha256" !in altered
    ensures !Verifies(py, sha, directory, altered["manifest_sha256" := Sign(sha, body)["manifest_sha256"]])
  {
    hide JsonCodec.Print, Norm, SnapshotIn, FileIntact;
    var manifest := altered["manifest_sha256" := Sign(sha, body)["manifest_sha256"]];
    assert manifest - {"manifest_sha256"} == altered;
    if JsonCodec.Print(Obj(altered)) == JsonCodec.Print(Obj(body)) {
      JsonCodec.PrintInjective(Obj(altered), Obj(body));
    }
  }

  // ---------- the restore ----------

  /** `state.get(key, default)`. */
  function FieldOr(state: Document, key: string, default: Json): Json {
    if key in state then state[key] else default
  }

  function HistoryOf(py: Python, state: Json): Option<History> {
    if !state.Obj? || !FieldOr(state.fields, "history", Obj(map[])).Obj? then None
    else ReadHistory(py, FieldOr(state.fields, "history", Obj(map[])).fields)
  }

  function CollectionOf(documents: Document, history: Json, indexes: Json): Json {
    Obj(map["documents" := Obj(documents), "history" := history, "indexes" := indexes])
  }

  /** One collection as it was at sequence n; its history is kept whole. None stands for an exception. */
  function Materialize(py: Python, state: Json, n: int): Option<Json> {
    match HistoryOf(py, state)
    case None => None
    case Some(history) =>
      Some(CollectionOf(DocumentsAt(history, n), FieldOr(state.fields, "history", Obj(map[])),
        FieldOr(state.fields, "indexes", Arr([]))))
  }

  function MaterializeAll(py: Python, collections: Collections, n: int): Option<Collections> {
    if exists name :: name in collections && Materialize(py, collections[name], n).None? then None
    else Some(map name | name in collections :: Materialize(py, collections[name], n).value)
  }

  /** A restored directory; or a ValueError, a BackupError, or any exception over a history that does not read. */
  datatype Restore =
    | Restored(files: map<string, string>)
    | NegativeSequence
    | Refused
    | Malformed

  function FilesOf(sha: Digest, n: int, collections: Collections): map<string, string> {
    map["snapshot.json" := EncodeSnapshot(sha, n, collections), "wal.log" := ""]
  }

  /** A backup with its manifest, None when that is missing or no dict. */
  datatype Source = Source(files: map<string, string>, manifest: Option<Document>)

  predicate Verified(py: Python, sha: Digest, backup: Source) {
    backup.manifest.Some? && Verifies(py, sha, backup.files, backup.manifest.value)
  }

  function RestoreAt(py: Python, sha: Digest, backup: Source, destination: map<string, string>, n: int): Restore {
    if n < 0 then NegativeSequence
    else if !Verified(py, sha, backup) || destination != map[] then Refused
    else
      var (sequence, collections) := SnapshotIn(py, sha, backup.files).value;
      if n > sequence then Refused
      else match MaterializeAll(py, collections, n)
        case None => Malformed
        case Some(materialized) => Restored(FilesOf(sha, n, materialized))
  }

  function EntryDocument(py: Python, entries: Json, n: int): Option<Json> {
    match ReadEntries(py, entries) case None => None case Some(versions) => DocumentAt(versions, n)
  }

  /** The inner loop: one collection's documents, history entry by history entry. */
  method RestoreDocuments(py: Python, history: Document, n: int) returns (r: Option<Document>)
    ensures r == match ReadHistory(py, history) case None => None case Some(h) => Some(DocumentsAt(h, n))
  {
    var documents: Document := map[];
    var todo := history.Keys;
    while todo != {}
      invariant todo <= history.Keys
      invariant forall id | id in history && id !in todo :: ReadEntries(py, history[id]).Some?
      invariant forall id | id in history && id !in todo ::
        EntryDocument(py, history[id], n) == if id in documents then Some(documents[id]) else None
      invariant documents.Keys <= history.Keys - todo
      decreases |todo|
    {
      hide ReadEntries, Latest, EntryDocument, DocumentAt;
      var identifier :| identifier in todo;
      todo := todo - {identifier};
      var entries := ReadEntries(py, history[identifier]);
      if entries.None? {
        return None;
      }
      var latest := Latest(entries.value, n);
      LatestEntry(py, history[identifier], n);
      if latest >= 0 && entries.value[latest].document.Some? {
        documents := documents[identifier := entries.value[latest].document.value];
      }
    }
    EntriesTogether(py, history, n, documents);
    return Some(documents);
  }

  lemma LatestEntry(py: Python, entries: Json, n: int)
    requires ReadEntries(py, entries).Some?
    ensures var versions := ReadEntries(py, entries).value;
      EntryDocument(py, entries, n)
          == if Latest(versions, n) == -1 then None else versions[Latest(versions, n)].document
  {
    hide ReadEntries, Latest;
  }

  lemma EntriesTogether(py: Python, history: Document, n: int, documents: Document)
    requires forall id | id in history :: ReadEntries(py, history[id]).Some?
    requires forall id | id in history ::
      EntryDocument(py, history[id], n) == if id in documents then Some(documents[id]) else None
    requires documents.Keys <= history.Keys
    ensures ReadHistory(py, history).Some? && documents == DocumentsAt(ReadHistory(py, history).value, n)
  {
    hide ReadEntries, DocumentAt;
    var h := ReadHistory(py, history).value;
    assert forall id | id in history :: DocumentAt(h[id], n) == EntryDocument(py, history[id], n);
  }

  lemma Materialized(py: Python, state: Json, n: int)
    ensures Materialize(py, state, n)
      == if !state.Obj? || !FieldOr(state.fields, "history", Obj(map[])).Obj? then None
         else
           var history := FieldOr(state.fields, "history", Obj(map[]));
           match ReadHistory(py, history.fields)
           case None => None
           case Some(h) => Some(CollectionOf(DocumentsAt(h, n), history, FieldOr(state.fields, "indexes", Arr([]))))
  {
    hide ReadHistory, DocumentsAt;
  }

  /** The outer loop: collection by collection. */
  method MaterializeCollections(py: Python, collections: Collections, n: int) returns (r: Option<Collections>)
    ensures r == MaterializeAll(py, collections, n)
  {
    hide ReadHistory, Materialize, DocumentsAt, FieldOr, CollectionOf;
    var materialized: Collections := map[];
    var todo := collections.Keys;
    while todo != {}
      invariant todo <= collections.Keys
      invariant materialized.Keys == collections.Keys - todo
      invariant forall name | name in materialized :: Materialize(py, collections[name], n) == Some(materialized[name])
      decreases |todo|
    {
      var name :| name in todo;
      todo := todo - {name};
      var state := collections[name];
      Materialized(py, state, n);
      if !state.Obj? || !FieldOr(state.fields, "history", Obj(map[])).Obj? {
        return None;
      }
      var history := FieldOr(state.fields, "history", Obj(map[]));
      var documents := RestoreDocuments(py, history.fields, n);
      if documents.None? {
        return None;
      }
      var indexes := FieldOr(state.fields, "indexes", Arr([]));
      materialized := materialized[name := CollectionOf(documents.value, history, indexes)];
    }
    AllMaterialized(py, collections, n, materialized);
    return Some(materialized);
  }

  /** Reads a verified backup's collections at n into an empty directory. */
  method PointInTimeRestore(py: Python, sha: Digest, backup: Source, destination: map<string, string>, n: int)
      returns (r: Restore)
    ensures r == RestoreAt(py, sha, backup, destination, n)
    ensures r.Restored? <==>
      0 <= n && Verified(py, sha, backup) && destination == map[]
      && var (sequence, collections) := SnapshotIn(py, sha, backup.files).value;
        n <= sequence && forall name | name in collections :: HistoryOf(py, collections[name]).Some?
    ensures r.NegativeSequence? <==> n < 0
    ensures r.Refused? <==>
      n >= 0 && (!Verified(py, sha, backup) || destination != map[] || n > SnapshotIn(py, sha, backup.files).value.0)
  {
    hide MaterializeAll, EncodeSnapshot, Verifies, SnapshotIn;
    if n < 0 {
      return NegativeSequence;
    }
    if !Verified(py, sha, backup) || destination != map[] {
      return Refused;
    }
    VerifiedReads(py, sha, backup);
    var (sequence, collections) := SnapshotIn(py, sha, backup.files).value;
    if n > sequence {
      return Refused;
    }
    var materialized := MaterializeCollections(py, collections, n);
    AllRead(py, collections, n);
    if materialized.None? {
      return Malformed;
    }
    return Restored(FilesOf(sha, n, materialized.value));
  }

  lemma {:induction false} VersionsRead(py: Python, items: seq<Json>)
    ensures ReadVersions(py, items).Some? <==> forall i | 0 <= i < |items| :: ReadVersion(py, items[i]).Some?
  {
    hide ReadVersion;
    if items != [] { VersionsRead(py, items[..|items| - 1]); }
  }

  /** Which histories read: dicts of lists of dicts whose sequence, if there is one, is a number or read as one; a
      document's entries may also be an empty text or dict, and the history may be absent. */
  lemma HistoryReadable(py: Python, state: Json)
    ensures HistoryOf(py, state).Some? <==>
      state.Obj? && ("history" in state.fields ==>
        state.fields["history"].Obj?
        && forall id | id in state.fields["history"].fields ::
          var entries := state.fields["history"].fields[id];
          entries in {Str(""), Obj(map[])}
          || (entries.Arr? && forall i | 0 <= i < |entries.items| ::
                entries.items[i].Obj?
                && ("seq" in entries.items[i].fields ==> IntOf(py, entries.items[i].fields["seq"]).Cast?)))
  {
    if state.Obj? && FieldOr(state.fields, "history", Obj(map[])).Obj? {
      var history := FieldOr(state.fields, "history", Obj(map[])).fields;
      forall id | id in history && history[id].Arr?
        ensures ReadEntries(py, history[id]).Some? <==>
          forall i | 0 <= i < |history[id].items| :: ReadVersion(py, history[id].items[i]).Some?
      {
        VersionsRead(py, history[id].items);
      }
      hide ReadVersions, IntOf;
    }
  }

  lemma AllRead(py: Python, collections: Collections, n: int)
    ensures MaterializeAll(py, collections, n).Some? <==>
      forall name | name in collections :: HistoryOf(py, collections[name]).Some?
  {
    hide HistoryOf, DocumentsAt;
    assert forall name | name in collections ::
      Materialize(py, collections[name], n).Some? <==> HistoryOf(py, collections[name]).Some?;
  }

  lemma AllMaterialized(py: Python, collections: Collections, n: int, m: Collections)
    requires m.Keys == collections.Keys
    requires forall name | name in collections :: Materialize(py, collections[name], n) == Some(m[name])
    ensures MaterializeAll(py, collections, n) == Some(m)
  {
    hide Materialize;
    assert MaterializeAll(py, collections, n).Some?;
    assert MaterializeAll(py, collections, n).value == m;
  }

  lemma VerifiedReads(py: Python, sha: Digest, backup: Source)
    requires Verified(py, sha, backup)
    ensures SnapshotIn(py, sha, backup.files).Some?
  {}

  // ---------- histories written by mutations ----------

  /** A put of a document, or a deletion when it is None. Mutations of one batch share a sequence. */
  datatype Mutation = Mutation(sequence: int, collection: string, id: string, document: Option<Document>)

  /** The history entry a mutation leaves. */
  function VersionOf(m: Mutation): Version {
    Version(m.sequence, if m.document.Some? then Some(Obj(m.document.value)) else None)
  }

  /** The histories a database keeps: one entry per mutation, in order. */
  function Histories(ms: seq<Mutation>): map<string, History> {
    if ms == [] then map[] else
    var m := ms[|ms| - 1];
    var before := Histories(ms[..|ms| - 1]);
    var history: History := if m.collection in before then before[m.collection] else map[];
    var entries := if m.id in history then history[m.id] else [];
    before[m.collection := history[m.id := entries + [VersionOf(m)]]]
  }

  /** The documents of a collection after mutations are applied one by one. */
  function Documents(ms: seq<Mutation>, collection: string): Document {
    if ms == [] then map[] else
    var m := ms[|ms| - 1];
    var before := Documents(ms[..|ms| - 1], collection);
    if m.collection != collection then before
    else if m.document.Some? then before[m.id := Obj(m.document.value)]
    else before - {m.id}
  }

  /** The mutations at or before a sequence. */
  function Upto(ms: seq<Mutation>, n: int): seq<Mutation> {
    if ms == [] then [] else
    Upto(ms[..|ms| - 1], n) + if ms[|ms| - 1].sequence <= n then [ms[|ms| - 1]] else []
  }

  /** Sequences strictly increase document by document; a batch may give one sequence to mutations of several. */
  predicate Ordered(ms: seq<Mutation>) {
    forall i, j | 0 <= i < j < |ms| && ms[i].collection == ms[j].collection && ms[i].id == ms[j].id ::
      ms[i].sequence < ms[j].sequence
  }

  predicate Before(entries: seq<Version>, n: int) {
    forall i | 0 <= i < |entries| :: entries[i].sequence < n
  }

  lemma {:induction false} HistoryBefore(ms: seq<Mutation>, collection: string, id: string, n: int)
    requires forall i | 0 <= i < |ms| && ms[i].collection == collection && ms[i].id == id :: ms[i].sequence < n
    ensures id in HistoryIn(Histories(ms), collection) ==> Before(HistoryIn(Histories(ms), collection)[id], n)
  {
    if ms != [] { HistoryBefore(ms[..|ms| - 1], collection, id, n); }
  }

  lemma LatestAppend(entries: seq<Version>, v: Version, n: int)
    requires Before(entries, v.sequence)
    ensures DocumentAt(entries + [v], n) == if v.sequence <= n then v.document else DocumentAt(entries, n)
  {
    assert (entries + [v])[..|entries|] == entries;
  }

  function HistoryIn(histories: map<string, History>, collection: string): History {
    if collection in histories then histories[collection] else map[]
  }

  lemma HistoryStep(ms: seq<Mutation>, collection: string)
    requires ms != []
    ensures var m := ms[|ms| - 1];
      var before := HistoryIn(Histories(ms[..|ms| - 1]), collection);
      HistoryIn(Histories(ms), collection) == if m.collection != collection then before
        else before[m.id := (if m.id in before then before[m.id] else []) + [VersionOf(m)]]
  {}

  lemma DocumentsAtStep(history: History, id: string, v: Version, n: int)
    requires id in history ==> Before(history[id], v.sequence)
    ensures var after := history[id := (if id in history then history[id] else []) + [v]];
      DocumentsAt(after, n) == if v.sequence > n then DocumentsAt(history, n)
        else if v.document.Some? then DocumentsAt(history, n)[id := v.document.value]
        else DocumentsAt(history, n) - {id}
  {
    hide DocumentAt;
    LatestAppend(if id in history then history[id] else [], v, n);
    NoEntries(n);
  }

  lemma NoEntries(n: int)
    ensures DocumentAt([], n) == None
  {}

  lemma DocumentsStep(ms: seq<Mutation>, collection: string, n: int)
    requires ms != []
    ensures var m := ms[|ms| - 1];
      var before := Documents(Upto(ms[..|ms| - 1], n), collection);
      Documents(Upto(ms, n), collection) == if m.collection != collection || m.sequence > n then before
        else if m.document.Some? then before[m.id := Obj(m.document.value)]
        else before - {m.id}
  {
    var m, before := ms[|ms| - 1], Upto(ms[..|ms| - 1], n);
    if m.sequence <= n {
      assert Upto(ms, n)[..|Upto(ms, n)| - 1] == before;
    } else {
      assert Upto(ms, n) == before;
    }
  }

  /** Restoring at n gives, in every collection, exactly the documents after the mutations with sequence at most n. */
  lemma {:induction false} RestoreReplaysPrefix(ms: seq<Mutation>, collection: string, n: int)
    requires Ordered(ms)
    ensures DocumentsAt(HistoryIn(Histories(ms), collection), n) == Documents(Upto(ms, n), collection)
  {
    if ms != [] {
      hide DocumentsAt, Documents, Histories, Upto;
      var m, before := ms[|ms| - 1], ms[..|ms| - 1];
      RestoreReplaysPrefix(before, collection, n);
      HistoryStep(ms, collection);
      DocumentsStep(ms, collection, n);
      if m.collection == collection {
        HistoryBefore(before, collection, m.id, m.sequence);
        DocumentsAtStep(HistoryIn(Histories(before), collection), m.id, VersionOf(m), n);
      }
    }
  }

  // ---------- from the stored history to the restored snapshot ----------

  /** The mutations of one document, in order. */
  function Of(ms: seq<Mutation>, collection: string, id: string): seq<Mutation> {
    if ms == [] then []
    else
      var m := ms[|ms| - 1];
      Of(ms[..|ms| - 1], collection, id) + if m.collection == collection && m.id == id then [m] else []
  }

  function Ids(ms: seq<Mutation>, collection: string): set<string> {
    set m | m in ms && m.collection == collection :: m.id
  }

  /** A stored history entry that stands for the mutation: its sequence under "seq", where an absent one counts as 0,
      and its document under "document", where null or nothing is a deletion. */
  predicate Records(entry: Json, m: Mutation) {
    entry.Obj?
    && (if "seq" in entry.fields then entry.fields["seq"] == Int(m.sequence) else m.sequence == 0)
    && (if m.document.Some?
        then "document" in entry.fields && entry.fields["document"] == Obj(m.document.value)
        else "document" !in entry.fields || entry.fields["document"] == Null)
  }

  predicate RecordsAll(entries: seq<Json>, ms: seq<Mutation>) {
    |entries| == |ms| && forall i | 0 <= i < |ms| :: Records(entries[i], ms[i])
  }

  /** A stored collection whose "history" lists, under each id, the entries of the mutations of that document. */
  predicate KeepsHistory(state: Json, ms: seq<Mutation>, collection: string) {
    state.Obj? &&
    if "history" in state.fields then
      state.fields["history"].Obj?
      && var history := state.fields["history"].fields;
        history.Keys == Ids(ms, collection)
        && forall id | id in history :: history[id].Arr? && RecordsAll(history[id].items, Of(ms, collection, id))
    else Ids(ms, collection) == {}
  }

  /** Every collection that was written to is there, with its history. */
  predicate KeepsHistories(collections: Collections, ms: seq<Mutation>) {
    (forall m | m in ms :: m.collection in collections)
    && forall name | name in collections :: KeepsHistory(collections[name], ms, name)
  }

  function Versions(ms: seq<Mutation>): seq<Version> {
    seq(|ms|, i requires 0 <= i < |ms| => VersionOf(ms[i]))
  }

  lemma {:induction false} ReadRecords(py: Python, entries: seq<Json>, ms: seq<Mutation>)
    requires RecordsAll(entries, ms)
    ensures ReadVersions(py, entries) == Some(Versions(ms))
  {
    if entries != [] {
      var n := |ms| - 1;
      assert RecordsAll(entries[..n], ms[..n]);
      ReadRecords(py, entries[..n], ms[..n]);
      assert Records(entries[n], ms[n]);
      assert ReadVersion(py, entries[n]) == Some(VersionOf(ms[n]));
      assert Versions(ms) == Versions(ms[..n]) + [VersionOf(ms[n])];
    }
  }

  lemma IdsStep(ms: seq<Mutation>, collection: string)
    requires ms != []
    ensures var m := ms[|ms| - 1];
      Ids(ms, collection) == Ids(ms[..|ms| - 1], collection) + if m.collection == collection then {m.id} else {}
  {
    var m, before := ms[|ms| - 1], ms[..|ms| - 1];
    assert forall x | x in ms :: x == m || x in before;
    assert m in ms && forall x | x in before :: x in ms;
  }

  lemma {:induction false} NoneOf(ms: seq<Mutation>, collection: string, id: string)
    requires id !in Ids(ms, collection)
    ensures Of(ms, collection, id) == []
  {
    if ms != [] {
      IdsStep(ms, collection);
      NoneOf(ms[..|ms| - 1], collection, id);
    }
  }

  lemma VersionsStep(ms: seq<Mutation>, collection: string, id: string)
    requires ms != []
    ensures var m := ms[|ms| - 1];
      Versions(Of(ms, collection, id)) == Versions(Of(ms[..|ms| - 1], collection, id))
        + if m.collection == collection && m.id == id then [VersionOf(m)] else []
  {}

  lemma {:induction false} HistoryEntries(ms: seq<Mutation>, collection: string)
    ensures HistoryIn(Histories(ms), collection).Keys == Ids(ms, collection)
    ensures forall id | id in Ids(ms, collection) ::
        HistoryIn(Histories(ms), collection)[id] == Versions(Of(ms, collection, id))
  {
    if ms != [] {
      var m, before := ms[|ms| - 1], ms[..|ms| - 1];
      HistoryEntries(before, collection);
      HistoryStep(ms, collection);
      IdsStep(ms, collection);
      forall id ensures Versions(Of(ms, collection, id)) == Versions(Of(before, collection, id))
        + if m.collection == collection && m.id == id then [VersionOf(m)] else []
      {
        VersionsStep(ms, collection, id);
      }
      if m.id !in Ids(before, collection) { NoneOf(before, collection, m.id); }
      hide Histories, Ids, Of;
    }
  }

  /** Reading the stored history gives the mutations' history. */
  lemma HistoryReads(py: Python, state: Json, ms: seq<Mutation>, collection: string)
    requires KeepsHistory(state, ms, collection)
    ensures HistoryOf(py, state) == Some(HistoryIn(Histories(ms), collection))
  {
    HistoryEntries(ms, collection);
    hide Histories;
    var history := FieldOr(state.fields, "history", Obj(map[])).fields;
    forall id | id in history ensures ReadEntries(py, history[id]) == Some(HistoryIn(Histories(ms), collection)[id]) {
      ReadRecords(py, history[id].items, Of(ms, collection, id));
      hide ReadVersions;
    }
    hide ReadEntries;
    assert ReadHistory(py, history).Some?;
    assert ReadHistory(py, history).value == HistoryIn(Histories(ms), collection);
  }

  /** A verified backup that keeps the histories of the mutations restores, at every sequence from 0 to its own, to
      a snapshot of exactly the documents after the mutations up to there, with histories and indexes
      as they were and an empty log. */
  lemma RestoredSnapshot(py: Python, sha: Digest, backup: Source, ms: seq<Mutation>, n: int)
    requires Verified(py, sha, backup) && Ordered(ms)
    requires var (sequence, collections) := SnapshotIn(py, sha, backup.files).value;
      0 <= n <= sequence && KeepsHistories(collections, ms)
    ensures var r := RestoreAt(py, sha, backup, map[], n);
      r.Restored? && r.files.Keys == {"snapshot.json", "wal.log"} && r.files["wal.log"] == ""
      && SnapshotIn(py, sha, r.files).Some?
      && var (sequence, restored) := SnapshotIn(py, sha, r.files).value;
        var collections := SnapshotIn(py, sha, backup.files).value.1;
        sequence == n && restored.Keys == collections.Keys
        && forall name | name in restored ::
          var state := collections[name].fields;
          restored[name] == Obj(map["documents" := Obj(Documents(Upto(ms, n), name)),
            "history" := if "history" in state then state["history"] else Obj(map[]),
            "indexes" := if "indexes" in state then state["indexes"] else Arr([])])
  {
    hide EncodeSnapshot, DecodeSnapshot, Verifies, Histories, Documents, Upto, DocumentsAt, ReadHistory, HistoryOf;
    VerifiedReads(py, sha, backup);
    var collections := SnapshotIn(py, sha, backup.files).value.1;
    forall name | name in collections
      ensures DocumentsAt(HistoryIn(Histories(ms), name), n) == Documents(Upto(ms, n), name)
      ensures HistoryOf(py, collections[name]) == Some(HistoryIn(Histories(ms), name))
    {
      RestoreReplaysPrefix(ms, name, n);
      HistoryReads(py, collections[name], ms, name);
    }
    SnapshotRoundTrip(py, sha, n, MaterializeAll(py, collections, n).value);
  }

  /** Such a history: a document written twice, and another deleted in the batch of the second write. */
  lemma KeptHistory(a: Document, b: Document)
    ensures var first := Obj(map["seq" := Int(1), "document" := Obj(a)]);
      var second := Obj(map["seq" := Int(2), "document" := Obj(b)]);
      var gone := Obj(map["seq" := Int(2), "document" := Null]);
      var state := Obj(map["history" := Obj(map["x" := Arr([first, second]), "y" := Arr([gone])])]);
      var ms := [Mutation(1, "c", "x", Some(a)), Mutation(2, "c", "x", Some(b)), Mutation(2, "c", "y", None)];
      KeepsHistories(map["c" := state], ms) && Ordered(ms)
  {
    var m, n, o := Mutation(1, "c", "x", Some(a)), Mutation(2, "c", "x", Some(b)), Mutation(2, "c", "y", None);
    var first := Obj(map["seq" := Int(1), "document" := Obj(a)]);
    var second := Obj(map["seq" := Int(2), "document" := Obj(b)]);
    var gone := Obj(map["seq" := Int(2), "document" := Null]);
    hide Records, Of, Ids, KeepsHistories;
    WrittenRecords(m);
    WrittenRecords(n);
    WrittenRecords(o);
    var ms := [m, n, o];
    assert ms[0] == m && ms[1] == n && ms[2] == o;
    ThreeMutations(m, n, o);
    TwoKept(first, second, gone, m, n, o);
  }

  lemma WrittenRecords(m: Mutation)
    ensures Records(Obj(map["seq" := Int(m.sequence),
      "document" := if m.document.Some? then Obj(m.document.value) else Null]), m)
  {}

  lemma TwoKept(first: Json, second: Json, gone: Json, m: Mutation, n: Mutation, o: Mutation)
    requires Records(first, m) && Records(second, n) && Records(gone, o)
    requires m.collection == n.collection == o.collection == "c" && m.id == n.id == "x" && o.id == "y"
    requires m.sequence == 1 && n.sequence == o.sequence == 2
    ensures var history: Document := map["x" := Arr([first, second]), "y" := Arr([gone])];
      KeepsHistories(map["c" := Obj(map["history" := Obj(history)])], [m, n, o])
  {
    hide Records, Of, Ids;
    ThreeMutations(m, n, o);
    assert RecordsAll([first, second], [m, n]) && RecordsAll([gone], [o]);
    hide RecordsAll;
    var history: Document := map["x" := Arr([first, second]), "y" := Arr([gone])];
    HistoriesKept(history, [m, n, o]);
  }

  lemma HistoriesKept(history: Document, ms: seq<Mutation>)
    requires history.Keys == Ids(ms, "c") && forall m | m in ms :: m.collection == "c"
    requires forall id | id in history :: history[id].Arr? && RecordsAll(history[id].items, Of(ms, "c", id))
    ensures KeepsHistories(map["c" := Obj(map["history" := Obj(history)])], ms)
  {
    hide RecordsAll, Of, Ids;
  }

  /** What it restores to: the first write at 1, the second at 2. */
  lemma KeptDocuments(a: Document, b: Document)
    ensures var ms := [Mutation(1, "c", "x", Some(a)), Mutation(2, "c", "x", Some(b)), Mutation(2, "c", "y", None)];
      Documents(Upto(ms, 1), "c") == map["x" := Obj(a)] && Documents(Upto(ms, 2), "c") == map["x" := Obj(b)]
  {
    var m, n, o := Mutation(1, "c", "x", Some(a)), Mutation(2, "c", "x", Some(b)), Mutation(2, "c", "y", None);
    ThreeMutations(m, n, o);
    ThreeDocuments(m, n, o);
    hide Documents, Of, Upto, Ids;
  }

  lemma ThreeMutations(m: Mutation, n: Mutation, o: Mutation)
    requires m.collection == n.collection == o.collection && m.id == n.id != o.id
    requires m.sequence == 1 && n.sequence == o.sequence == 2
    ensures Of([m, n, o], m.collection, m.id) == [m, n] && Of([m, n, o], m.collection, o.id) == [o]
    ensures Ids([m, n, o], m.collection) == {m.id, o.id}
    ensures Upto([m, n, o], 1) == [m] && Upto([m, n, o], 2) == [m, n, o]
  {
    var ms := [m, n, o];
    assert ms[..2] == [m, n] && [m, n][..1] == [m] && [m][..0] == [];
    OneOf(m, n, o, m.id);
    OneOf(m, n, o, o.id);
    assert Upto([m], 1) == [m] == Upto([m], 2);
    assert Upto([m, n], 1) == [m] && Upto([m, n], 2) == [m, n];
    assert ms[0] == m && ms[2] == o;
  }

  lemma OneOf(m: Mutation, n: Mutation, o: Mutation, id: string)
    requires m.collection == n.collection == o.collection
    ensures Of([m, n, o], m.collection, id)
      == (if m.id == id then [m] else []) + (if n.id == id then [n] else []) + (if o.id == id then [o] else [])
  {
    assert [m, n, o][..2] == [m, n] && [m, n][..1] == [m] && [m][..0] == [];
    assert Of([m], m.collection, id) == [] + if m.id == id then [m] else [];
  }

  lemma ThreeDocuments(m: Mutation, n: Mutation, o: Mutation)
    requires m.collection == n.collection == o.collection && m.id == n.id != o.id
    requires m.document.Some? && n.document.Some? && o.document.None?
    ensures Documents([m], m.collection) == map[m.id := Obj(m.document.value)]
    ensures Documents([m, n, o], m.collection) == map[m.id := Obj(n.document.value)]
  {
    assert [m, n, o][..2] == [m, n] && [m, n][..1] == [m] && [m][..0] == [];
    assert Documents([m], m.collection) == map[m.id := Obj(m.document.value)];
    assert Documents([m, n], m.collection) == map[m.id := Obj(n.document.value)];
    assert map[m.id := Obj(n.document.value)] - {o.id} == map[m.id := Obj(n.document.value)];
  }

  lemma MaterializeTwice(py: Python, state: Json, m: int, k: int)
    requires Materialize(py, state, m).Some?
    ensures Materialize(py, Materialize(py, state, m).value, k) == Materialize(py, state, k)
    ensures Materialize(py, state, k).Some?
  {
    hide DocumentsAt, ReadHistory;
  }

  /** Restoring a restored backup at an earlier sequence gives the files that restoring the original there gives;
      and what a restore writes is what its own histories yield at its own sequence. */
  lemma RestoreTwice(py: Python, sha: Digest, backup: Source, again: Source, m: int, k: int)
    requires RestoreAt(py, sha, backup, map[], m) == Restored(again.files) && Verified(py, sha, again) && 0 <= k <= m
    ensures RestoreAt(py, sha, again, map[], m) == Restored(again.files)
    ensures RestoreAt(py, sha, again, map[], k) == RestoreAt(py, sha, backup, map[], k)
  {
    hide EncodeSnapshot, DecodeSnapshot, Verifies, Materialize;
    VerifiedReads(py, sha, backup);
    var collections := SnapshotIn(py, sha, backup.files).value.1;
    var once := MaterializeAll(py, collections, m).value;
    SnapshotRoundTrip(py, sha, m, once);
    forall name | name in collections
      ensures Materialize(py, once[name], m) == Materialize(py, collections[name], m)
      ensures Materialize(py, once[name], k) == Materialize(py, collections[name], k)
      ensures Materialize(py, collections[name], k).Some?
    {
      MaterializeTwice(py, collections[name], m, m);
      MaterializeTwice(py, collections[name], m, k);
    }
    var earlier := map name | name in collections :: Materialize(py, collections[name], k).value;
    AllMaterialized(py, once, m, once);
    AllMaterialized(py, once, k, earlier);
    AllMaterialized(py, collections, k, earlier);
  }

  // ---------- where strict order matters ----------

  /** The position of the last entry at or before n. */
  function LastUpto(entries: seq<Version>, n: int): (r: int)
    ensures -1 <= r < |entries|
    ensures r >= 0 ==> entries[r].sequence <= n
    ensures forall i | r < i < |entries| :: entries[i].sequence > n
  {
    if entries == [] then -1
    else if entries[|entries| - 1].sequence <= n then |entries| - 1
    else LastUpto(entries[..|entries| - 1], n)
  }

  predicate StrictlyIncreasing(entries: seq<Version>) {
    forall i, j | 0 <= i < j < |entries| :: entries[i].sequence < entries[j].sequence
  }

  /** Restore picks the most recently written version at every sequence exactly when
      the sequences of the history strictly increase. */
  lemma LatestIsLastIffIncreasing(entries: seq<Version>)
    ensures (forall n :: Latest(entries, n) == LastUpto(entries, n)) <==> StrictlyIncreasing(entries)
  {
    if !StrictlyIncreasing(entries) {
      var i, j :| 0 <= i < j < |entries| && entries[i].sequence >= entries[j].sequence;
      var n := entries[i].sequence;
      assert Latest(entries, n) <= i < j <= LastUpto(entries, n);
    }
  }

  /** A write to a restored database at sequence s is what a restore at s itself finds
      exactly when no entry that the restore kept carries s. */
  lemma WriteAfterRestore(kept: seq<Version>, s: int, document: Option<Json>)
    ensures Latest(kept + [Version(s, document)], s) == |kept|
      <==> forall i | 0 <= i < |kept| :: kept[i].sequence != s
  {
    var entries := kept + [Version(s, document)];
    var r := Latest(entries, s);
    assert entries[|kept|].sequence == s;
    assert entries[r].sequence == s;
    if i :| 0 <= i < |kept| && kept[i].sequence == s {
      assert entries[i].sequence == s;
    }
    if r < |kept| { assert entries[r] == kept[r]; }
  }

  /** What a restore at m should pick after a restore at n and the writes `added`: the last write
      at or before m, or without one what the restore at n had picked. */
  function Expected(kept: seq<Version>, n: int, added: seq<Version>, m: int): int {
    if LastUpto(added, m) >= 0 then |kept| + LastUpto(added, m) else Latest(kept, n)
  }

  /** Every later restore is right exactly when the restore at n left no entry after n in the history. */
  lemma RestoresAfterWrites(kept: seq<Version>, n: int, added: seq<Version>)
    requires StrictlyIncreasing(kept) && StrictlyIncreasing(added)
    requires forall i | 0 <= i < |added| :: added[i].sequence > n
    ensures (forall m | m >= n :: Latest(kept + added, m) == Expected(kept, n, added, m))
      <==> forall i | 0 <= i < |kept| :: kept[i].sequence <= n
  {
    if forall i | 0 <= i < |kept| :: kept[i].sequence <= n {
      forall m | m >= n ensures Latest(kept + added, m) == Expected(kept, n, added, m) {
        AllInOrder(kept, n, added, m);
      }
    } else {
      AbandonedReturns(kept, n, added);
    }
  }

  lemma AllInOrder(kept: seq<Version>, n: int, added: seq<Version>, m: int)
    requires StrictlyIncreasing(kept) && StrictlyIncreasing(added)
    requires forall i | 0 <= i < |added| :: added[i].sequence > n
    requires forall i | 0 <= i < |kept| :: kept[i].sequence <= n
    requires m >= n
    ensures Latest(kept + added, m) == Expected(kept, n, added, m)
  {
    hide Latest, LastUpto;
    var entries := kept + added;
    LatestIs(kept, n, |kept| - 1);
    LatestIs(entries, m, Expected(kept, n, added, m));
  }

  /** In increasing entries the latest is the last one at or before m. */
  lemma LatestIs(entries: seq<Version>, m: int, e: int)
    requires StrictlyIncreasing(entries) && -1 <= e < |entries|
    requires e >= 0 ==> entries[e].sequence <= m
    requires forall i | e < i < |entries| :: entries[i].sequence > m
    ensures Latest(entries, m) == e
  {
    hide Latest;
  }

  /** An entry the restore abandoned comes back: at its own sequence it is picked over every write. */
  lemma AbandonedReturns(kept: seq<Version>, n: int, added: seq<Version>)
    requires StrictlyIncreasing(kept) && forall i | 0 <= i < |added| :: added[i].sequence > n
    requires kept != [] && kept[|kept| - 1].sequence > n
    ensures var m := kept[|kept| - 1].sequence;
      Latest(kept + added, m) == |kept| - 1 != Expected(kept, n, added, m)
  {
    var last := |kept| - 1;
    var m, entries := kept[last].sequence, kept + added;
    var r := Latest(entries, m);
    assert entries[last] == kept[last];
    assert forall i | 0 <= i < last :: entries[i] == kept[i];
  }

  /** A write that no kept entry collides with is not enough: restored at 5, a history with entries at 1 and 9
      and then a write at 8 shows the abandoned entry 9 again. */
  lemma LaterEntryReturns(a: Option<Json>, b: Option<Json>, c: Option<Json>)
    ensures var entries := [Version(1, a), Version(9, b), Version(8, c)];
      DocumentAt(entries, 8) == c && DocumentAt(entries, 9) == b
  {
    var entries := [Version(1, a), Version(9, b), Version(8, c)];
    assert entries[2].sequence == 8 && entries[1].sequence == 9;
    assert Latest(entries, 8) == 2;
    assert Latest(entries, 9) == 1;
  }
}
