/** The audit log's hash chain. The digest of an event is any function of the event; binding assumes it is
    injective and never gives the genesis value. */
module Audit {
  import opened Values

  type Digest = Document -> string

  function Zeros(n: nat): (s: string)
    ensures |s| == n && forall c <- s :: c == '0'
  {
    if n == 0 then "" else "0" + Zeros(n - 1)
  }

  const GENESIS: Json := Str(Zeros(64))

  /** The event that is digested: what happened, and the hash before it. */
  function EventOf(body: Document, previous: Json): Document {
    body["previous_hash" := previous]
  }

  function RecordOf(digest: Digest, body: Document, previous: Json): Document {
    EventOf(body, previous)["hash" := Str(digest(EventOf(body, previous)))]
  }

  /** The hash the next record links to. */
  function Head(records: seq<Document>): Json {
    if records != [] && "hash" in records[|records| - 1] then records[|records| - 1]["hash"] else GENESIS
  }

  /** A line of the file, parsed; None when it is not JSON. */
  type Line = Option<Json>

  predicate HasHash(line: Line) {
    line.Some? && line.value.Obj? && "hash" in line.value.fields
  }

  function LinesOf(records: seq<Document>): seq<Line> {
    seq(|records|, i requires 0 <= i < |records| => Some(Obj(records[i])))
  }

  class AuditLogger {
    const digest: Digest
    var file: seq<Line>
    var previousHash: Json
    var corrupt: bool

    /** The file holds what recording these bodies one after another writes, and the next record goes on from there. */
    ghost predicate Recorded(bodies: seq<Document>)
      reads this
    {
      !corrupt && file == LinesOf(Written(digest, bodies)) && previousHash == Head(Written(digest, bodies))
    }

    /** Opens a file; `corrupt` stands for the ValueError. A file that recording wrote is opened where
        recording left it. */
    constructor (digest: Digest, file: seq<Line>)
      ensures this.digest == digest && this.file == file
      ensures forall bodies :: file == LinesOf(Written(digest, bodies)) ==> Recorded(bodies)
      ensures corrupt <==> exists i | 0 <= i < |file| :: !HasHash(file[i])
      ensures !corrupt && file != [] ==> previousHash == file[|file| - 1].value.fields["hash"]
      ensures file == [] ==> previousHash.Str? && |previousHash.s| == 64 && forall c <- previousHash.s :: c == '0'
    {
      this.digest := digest;
      this.file := file;
      previousHash := GENESIS;
      corrupt := false;
      new;
      forall bodies | file == LinesOf(Written(digest, bodies))
        ensures (forall k | 0 <= k < |file| :: HasHash(file[k])) && HashAfter(file) == Head(Written(digest, bodies))
      {
        WrittenReopens(digest, bodies);
      }
      hide Written, Head, LinesOf;
      var i := 0;
      while i < |file|
        invariant 0 <= i <= |file| && !corrupt && this.file == file
        invariant forall k | 0 <= k < i :: HasHash(file[k])
        invariant previousHash == if i == 0 then GENESIS else file[i - 1].value.fields["hash"]
      {
        if !HasHash(file[i]) {
          corrupt := true;
          return;
        }
        previousHash := file[i].value.fields["hash"];
        i := i + 1;
      }
    }

    /** One serialized record. */
    method Record(body: Document)
      modifies this`file, this`previousHash
      ensures file == old(file) + [Some(Obj(RecordOf(digest, body, old(previousHash))))]
      ensures previousHash == RecordOf(digest, body, old(previousHash))["hash"]
      ensures forall bodies :: old(Recorded(bodies)) ==> Recorded(bodies + [body])
    {
      var event := body["previous_hash" := previousHash];
      var hash := digest(event);
      event := event["hash" := Str(hash)];
      file := file + [Some(Obj(event))];
      previousHash := Str(hash);
    }
  }

  // ---------- chains ----------

  /** A record carries the digest of its other fields and links to the hash before it. */
  predicate Links(digest: Digest, record: Document, previous: Json) {
    "hash" in record && "previous_hash" in record
    && record["hash"] == Str(digest(record - {"hash"}))
    && record["previous_hash"] == previous
  }

  predicate Chain(digest: Digest, records: seq<Document>) {
    forall i | 0 <= i < |records| :: Links(digest, records[i], Head(records[..i]))
  }

  /** What `record` calls write, one after another, from a head; the file may be closed and reopened between any two. */
  function Written(digest: Digest, bodies: seq<Document>): seq<Document> {
    if bodies == [] then []
    else
      var before := Written(digest, bodies[..|bodies| - 1]);
      before + [RecordOf(digest, bodies[|bodies| - 1], Head(before))]
  }

  /** The hash on the last line. */
  function HashAfter(file: seq<Line>): Json
    requires file != [] ==> HasHash(file[|file| - 1])
  {
    if file == [] then GENESIS else file[|file| - 1].value.fields["hash"]
  }

  lemma WrittenReopens(digest: Digest, bodies: seq<Document>)
    ensures var file := LinesOf(Written(digest, bodies));
      (forall k | 0 <= k < |file| :: HasHash(file[k])) && HashAfter(file) == Head(Written(digest, bodies))
  {
    WrittenHasHash(digest, bodies);
  }

  lemma {:induction false} WrittenHasHash(digest: Digest, bodies: seq<Document>)
    ensures forall i | 0 <= i < |Written(digest, bodies)| :: "hash" in Written(digest, bodies)[i]
  {
    if bodies != [] { WrittenHasHash(digest, bodies[..|bodies| - 1]); }
  }

  predicate Plain(body: Document) {
    "hash" !in body && "previous_hash" !in body
  }

  lemma RecordLinks(digest: Digest, body: Document, previous: Json)
    requires Plain(body)
    ensures Links(digest, RecordOf(digest, body, previous), previous)
  {
    assert RecordOf(digest, body, previous) - {"hash"} == EventOf(body, previous);
  }

  lemma RecordKeepsBody(digest: Digest, body: Document, previous: Json)
    requires Plain(body)
    ensures RecordOf(digest, body, previous) - {"hash", "previous_hash"} == body
  {}

  /** Record i is body i and two hashes. */
  lemma {:induction false} WrittenKeepsBodies(digest: Digest, bodies: seq<Document>)
    requires forall b | b in bodies :: "hash" !in b && "previous_hash" !in b
    ensures |Written(digest, bodies)| == |bodies|
    ensures forall i | 0 <= i < |bodies| :: Written(digest, bodies)[i] - {"hash", "previous_hash"} == bodies[i]
  {
    hide RecordOf;
    if bodies != [] {
      var n := |bodies| - 1;
      WrittenKeepsBodies(digest, bodies[..n]);
      RecordKeepsBody(digest, bodies[n], Head(Written(digest, bodies[..n])));
    }
  }

  /** Every serialized sequence of records is a chain. */
  lemma {:induction false} WrittenIsChain(digest: Digest, bodies: seq<Document>)
    requires forall b | b in bodies :: "hash" !in b && "previous_hash" !in b
    ensures Chain(digest, Written(digest, bodies)) && |Written(digest, bodies)| == |bodies|
  {
    if bodies != [] {
      var n := |bodies| - 1;
      WrittenIsChain(digest, bodies[..n]);
      var before, records := Written(digest, bodies[..n]), Written(digest, bodies);
      RecordLinks(digest, bodies[n], Head(before));
      assert records[..n] == before;
      forall i | 0 <= i < |records| ensures Links(digest, records[i], Head(records[..i])) {
        if i < n {
          assert Links(digest, before[i], Head(before[..i]));
          assert records[..i] == before[..i];
        }
      }
    }
  }

  /** Reopening the file finds the head of the chain, so appending goes on as if it had never been closed. */
  lemma ReopenFindsHead(digest: Digest, records: seq<Document>)
    requires Chain(digest, records)
    ensures forall i | 0 <= i < |records| :: HasHash(LinesOf(records)[i])
    ensures (if records == [] then GENESIS else LinesOf(records)[|records| - 1].value.fields["hash"]) == Head(records)
  {
    forall i | 0 <= i < |records| ensures HasHash(LinesOf(records)[i]) {
      assert Links(digest, records[i], Head(records[..i]));
    }
  }

  // ---------- binding ----------

  ghost predicate Binding(digest: Digest) {
    (forall a: Document, b: Document :: digest(a) == digest(b) ==> a == b)
    && forall a: Document :: Str(digest(a)) != GENESIS
  }

  lemma ChainPrefix(digest: Digest, records: seq<Document>, k: nat)
    requires Chain(digest, records) && k <= |records|
    ensures Chain(digest, records[..k])
  {
    forall i | 0 <= i < k ensures Links(digest, records[..k][i], Head(records[..k][..i])) {
      assert records[..k][..i] == records[..i];
      assert Links(digest, records[i], Head(records[..i]));
    }
  }

  lemma ChainHead(digest: Digest, records: seq<Document>)
    requires Chain(digest, records) && records != []
    ensures var last := records[|records| - 1];
      Head(records) == Str(digest(last - {"hash"})) && "previous_hash" in last && "hash" in last
      && last["hash"] == Head(records) && last["previous_hash"] == Head(records[..|records| - 1])
  {
    assert Links(digest, records[|records| - 1], Head(records[..|records| - 1]));
  }

  lemma SameRecord(x: Document, y: Document)
    requires "hash" in x && "hash" in y && x["hash"] == y["hash"] && x - {"hash"} == y - {"hash"}
    ensures x == y
  {
    assert x == (x - {"hash"})["hash" := x["hash"]];
    assert y == (y - {"hash"})["hash" := y["hash"]];
  }

  /** Two chains with the same final hash are the same chain: changing, dropping, inserting
      or reordering any record of a log changes its final hash. */
  lemma {:induction false} FinalHashBinds(digest: Digest, a: seq<Document>, b: seq<Document>)
    requires Binding(digest) && Chain(digest, a) && Chain(digest, b) && Head(a) == Head(b)
    ensures a == b
    decreases |a|
  {
    hide Binding, Chain, Links;
    if a == [] || b == [] {
      if a != [] { ChainHead(digest, a); BindingAt(digest, a[|a| - 1] - {"hash"}, map[]); }
      if b != [] { ChainHead(digest, b); BindingAt(digest, b[|b| - 1] - {"hash"}, map[]); }
    } else {
      var x, y := a[|a| - 1], b[|b| - 1];
      ChainHead(digest, a);
      ChainHead(digest, b);
      hide Head;
      BindingAt(digest, x - {"hash"}, y - {"hash"});
      SameRecord(x, y);
      ChainPrefix(digest, a, |a| - 1);
      ChainPrefix(digest, b, |b| - 1);
      FinalHashBinds(digest, a[..|a| - 1], b[..|b| - 1]);
      assert a == a[..|a| - 1] + [x] && b == b[..|b| - 1] + [y];
    }
  }

  /** So the final hash stands for everything that was recorded, in order. */
  lemma SameHashSameBodies(digest: Digest, a: seq<Document>, b: seq<Document>)
    requires Binding(digest) && forall x | x in a + b :: "hash" !in x && "previous_hash" !in x
    requires Head(Written(digest, a)) == Head(Written(digest, b))
    ensures a == b
  {
    hide Binding, Head;
    assert forall x | x in a :: x in a + b;
    assert forall x | x in b :: x in a + b;
    WrittenIsChain(digest, a);
    WrittenIsChain(digest, b);
    WrittenKeepsBodies(digest, a);
    WrittenKeepsBodies(digest, b);
    FinalHashBinds(digest, Written(digest, a), Written(digest, b));
    assert |a| == |b| && forall i | 0 <= i < |a| :: a[i] == Written(digest, a)[i] - {"hash", "previous_hash"} == b[i];
  }

  lemma BindingAt(digest: Digest, a: Document, b: Document)
    requires Binding(digest)
    ensures digest(a) == digest(b) ==> a == b
    ensures Str(digest(a)) != GENESIS
  {}

  // ---------- unserialized records ----------

  /** What `record` calls write when call i reads the previous hash while the file holds seen[i] records, its own
      becoming the i-th: reading is outside the lock, so seen[i] may be less than i. */
  function WrittenSeeing(digest: Digest, bodies: seq<Document>, seen: seq<nat>): (records: seq<Document>)
    requires |seen| == |bodies| && forall i | 0 <= i < |seen| :: seen[i] <= i
    ensures |records| == |bodies|
  {
    if bodies == [] then []
    else
      var n := |bodies| - 1;
      var before := WrittenSeeing(digest, bodies[..n], seen[..n]);
      before + [RecordOf(digest, bodies[n], Head(before[..seen[n]]))]
  }

  lemma {:induction false} SeeingAt(digest: Digest, bodies: seq<Document>, seen: seq<nat>, i: nat)
    requires |seen| == |bodies| && forall i | 0 <= i < |seen| :: seen[i] <= i
    requires i < |bodies|
    ensures var records := WrittenSeeing(digest, bodies, seen);
      records[i] == RecordOf(digest, bodies[i], Head(records[..seen[i]]))
  {
    var n := |bodies| - 1;
    var before, records := WrittenSeeing(digest, bodies[..n], seen[..n]), WrittenSeeing(digest, bodies, seen);
    assert records[..seen[i]] == before[..seen[i]];
    if i < n { SeeingAt(digest, bodies[..n], seen[..n], i); }
  }

  /** The log is a chain exactly when the calls were serialized: each read the previous hash
      after all the records before its own were written. */
  lemma ChainIffSerialized(digest: Digest, bodies: seq<Document>, seen: seq<nat>)
    requires |seen| == |bodies| && forall i | 0 <= i < |seen| :: seen[i] <= i
    requires Binding(digest) && forall b | b in bodies :: Plain(b)
    ensures Chain(digest, WrittenSeeing(digest, bodies, seen)) <==> forall i | 0 <= i < |seen| :: seen[i] == i
  {
    hide Binding, Head, Links;
    var records := WrittenSeeing(digest, bodies, seen);
    forall i | 0 <= i < |seen| ensures Links(digest, records[i], Head(records[..seen[i]])) {
      SeeingAt(digest, bodies, seen, i);
      RecordLinks(digest, bodies[i], Head(records[..seen[i]]));
    }
    if Chain(digest, records) {
      forall i | 0 <= i < |seen| ensures seen[i] == i {
        SameLink(digest, records[i], Head(records[..i]), Head(records[..seen[i]]));
        ChainPrefix(digest, records, i);
        ChainPrefix(digest, records, seen[i]);
        FinalHashBinds(digest, records[..i], records[..seen[i]]);
        assert |records[..i]| == |records[..seen[i]]|;
      }
    }
  }

  lemma SameLink(digest: Digest, record: Document, a: Json, b: Json)
    requires Links(digest, record, a) && Links(digest, record, b)
    ensures a == b
  {}

  /** The smallest race: two records that read the hash before either is written. */
  lemma RacingRecordsBreakTheChain(digest: Digest, a: Document, b: Document)
    requires Binding(digest) && Plain(a) && Plain(b)
    ensures !Chain(digest, WrittenSeeing(digest, [a, b], [0, 0]))
  {
    ChainIffSerialized(digest, [a, b], [0, 0]);
    assert [0, 0][1] == 0;
  }
}
