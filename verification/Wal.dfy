/** The checksummed append-only write-ahead log. A file is its text, one `char` per byte. The CRC-32 is any function
    of the checksummed text: nothing here depends on which one. */
module Wal {
  import opened Text
  import opened Values
  import opened JsonCodec
  import opened JsonScan
  import opened Replay

  const WAL_VERSION := 1

  type Checksum = string -> int

  // ---------- one record ----------

  function Body(e: Entry): Document {
    map["version" := Int(WAL_VERSION), "seq" := Int(e.sequence), "op" := Str(e.op), "payload" := Obj(e.payload)]
  }

  function Encode(crc: Checksum, e: Entry): string {
    Print(Obj(Body(e)["crc32" := Int(crc(Print(Obj(Body(e)))))]))
  }

  function Decode(py: Python, crc: Checksum, line: string): Decoded {
    match Loads(line)
    case None => Malformed
    case Some(Arr(_)) => Malformed
    case Some(Obj(m)) => DecodeFields(py, crc, m)
    case Some(_) => Fatal
  }

  function DecodeFields(py: Python, crc: Checksum, m: Document): Decoded {
    if "crc32" !in m then Malformed
    else
      var record := m - {"crc32"};
      var expected := Int(crc(Print(Obj(record))));
      if "version" !in record || !PyEq(record["version"], Int(WAL_VERSION)) || !PyEq(m["crc32"], expected) then Fatal
      else if "seq" !in record || !IntOf(py, record["seq"]).Cast? then Malformed
      else
        var sequence := IntOf(py, record["seq"]).value;
        Sequenced(sequence,
          if "op" in record && "payload" in record then
            match DictOf(record["payload"])
            case Some(payload) => Some((StrOf(py, record["op"]), payload))
            case None => None
          else None)
  }

  /** Whatever checksum a line carries, decoding compares it with the checksum of the rest: a mismatch is fatal. */
  lemma {:induction false} DecodeWithChecksum(py: Python, crc: Checksum, e: Entry, stored: int)
    ensures Decode(py, crc, Print(Obj(Body(e)["crc32" := Int(stored)])) + "\n")
      == if stored == crc(Print(Obj(Body(e)))) then DecodedEntry(e) else Fatal
  {
    var m := Body(e)["crc32" := Int(stored)];
    RoundTrip(Obj(m), "\n");
    DecodeFieldsOf(py, crc, Body(e), e, stored);
  }

  lemma DecodeFieldsOf(py: Python, crc: Checksum, record: Document, e: Entry, stored: int)
    requires "crc32" !in record
    requires "version" in record && record["version"] == Int(WAL_VERSION)
    requires "seq" in record && record["seq"] == Int(e.sequence)
    requires "op" in record && record["op"] == Str(e.op)
    requires "payload" in record && record["payload"] == Obj(e.payload)
    ensures DecodeFields(py, crc, record["crc32" := Int(stored)])
      == if stored == crc(Print(Obj(record))) then DecodedEntry(e) else Fatal
  {
    var m := record["crc32" := Int(stored)];
    assert m - {"crc32"} == record;
    var expected := Int(crc(Print(Obj(record))));
    assert PyEq(m["crc32"], expected) <==> m["crc32"] == expected;
    assert PyEq(record["version"], Int(WAL_VERSION));
    assert DictOf(record["payload"]) == Some(e.payload);
    assert StrOf(py, record["op"]) == e.op;
    assert IntOf(py, record["seq"]) == Cast(e.sequence);
  }

  lemma EncodeStart(crc: Checksum, e: Entry)
    ensures "{\"c" <= Encode(crc, e)
  {
    hide Print;
    var m := Body(e)["crc32" := Int(crc(Print(Obj(Body(e)))))];
    assert "crc32" in m.Keys;
    assert forall k <- m.Keys :: LexLeq("crc32", k) by {
      assert m.Keys == {"crc32", "version", "seq", "op", "payload"};
    }
    ObjectStart(m);
  }

  lemma ObjectStart(m: Document)
    requires "crc32" in m.Keys && forall k <- m.Keys :: LexLeq("crc32", k)
    ensures "{\"c" <= Print(Obj(m))
  {
    var keys := SortedKeys(m.Keys);
    LexAntisymmetric("crc32", keys[0]);
    FieldStart(Obj(m), keys);
    var fields := PrintFields(Obj(m), keys);
    assert Print(Obj(m)) == "{" + fields + "}";
    assert "{\"c" == "{" + "\"c";
  }

  lemma FieldStart(v: Json, keys: seq<string>)
    requires v.Obj? && forall k <- keys :: k in v.fields
    requires keys != [] && keys[0] == "crc32"
    ensures "\"c" <= PrintFields(v, keys)
  {
    assert Escape("crc32")[0] == 'c';
    assert Quote("crc32") <= PrintFields(v, keys);
  }

  function WalCodec(py: Python, crc: Checksum): Codec {
    Codec((e: Entry) => Encode(crc, e), line => Decode(py, crc, line))
  }

  /** `replay` reads back exactly what `append` wrote, and refuses a record glued onto a broken one. */
  lemma WalCodecReadsBack(py: Python, crc: Checksum)
    ensures ReadsBack(WalCodec(py, crc)) && RejectsGlued(WalCodec(py, crc))
  {
    forall e: Entry
      ensures '\n' !in Encode(crc, e) && Decode(py, crc, Encode(crc, e) + "\n") == DecodedEntry(e)
    {
      PrintHasNoControl(Obj(Body(e)["crc32" := Int(crc(Print(Obj(Body(e)))))]));
      DecodeWithChecksum(py, crc, e, crc(Print(Obj(Body(e)))));
    }
    forall t: string, torn: Entry, e: Entry | t != "" && t <= Encode(crc, torn)
      ensures Decode(py, crc, t + (Encode(crc, e) + "\n")) == Malformed
    {
      GluedNeverDecodes(py, crc, t, torn, e);
    }
  }

  lemma GluedNeverDecodes(py: Python, crc: Checksum, t: string, torn: Entry, e: Entry)
    requires t != "" && t <= Encode(crc, torn)
    ensures Decode(py, crc, t + (Encode(crc, e) + "\n")) == Malformed
  {
    var v := Obj(Body(torn)["crc32" := Int(crc(Print(Obj(Body(torn)))))]);
    var record := Obj(Body(e)["crc32" := Int(crc(Print(Obj(Body(e)))))]);
    EncodeStart(crc, e);
    if t == Print(v) {
      CompleteThenGlued(v, Print(record) + "\n");
    } else {
      GluedRecordNeverLoads(v, t, record);
      assert t + (Encode(crc, e) + "\n") == t + Print(record) + "\n";
    }
  }

  lemma CompleteThenGlued(v: Json, rest: string)
    requires v.Obj? && rest != "" && rest[0] == '{'
    ensures Loads(Print(v) + rest) == None
  {
    RoundTripAt(v, rest);
    assert Skip(Print(v) + rest) == Print(v) + rest;
  }

  class WriteAheadLog {
    const py: Python
    const crc: Checksum
    const sync: bool
    var file: string    // what a reader sees once the handle is flushed
    var durable: string // what is known to be on the disk
    var replayedRecords: nat

    constructor (py: Python, crc: Checksum, sync: bool, contents: string)
      ensures this.py == py && this.crc == crc && this.sync == sync
      ensures file == durable == contents && replayedRecords == 0
    {
      this.py := py;
      this.crc := crc;
      this.sync := sync;
      file := contents;
      durable := contents;
      replayedRecords := 0;
    }

    method Append(sequence: int, operation: string, payload: Document)
      modifies this`file, this`durable
      ensures file == old(file) + Line(WalCodec(py, crc), Entry(sequence, operation, payload))
      ensures durable == if sync then file else old(durable)
    {
      var body := map["version" := Int(WAL_VERSION), "seq" := Int(sequence), "op" := Str(operation),
        "payload" := Obj(payload)];
      var checksum := crc(Print(Obj(body)));
      var record := body["crc32" := Int(checksum)];
      file := file + (Print(Obj(record)) + "\n");
      if sync {
        durable := file;
      }
      assert body == Body(Entry(sequence, operation, payload));
    }

    /** The records in the outcome are the calls to `apply`, in order. */
    method Replay() returns (outcome: Outcome)
      modifies this`replayedRecords
      ensures outcome == ReplayText(WalCodec(py, crc), file)
      ensures replayedRecords == |outcome.applied|
    {
      var codec := WalCodec(py, crc);
      var lastSequence := 0;
      var applied := [];
      replayedRecords := 0;
      var lines := Lines(file);
      var index := 0;
      while index < |lines|
        invariant 0 <= index <= |lines|
        invariant ReplayText(codec, file) == Preceded(applied, ReplayLines(codec, lines[index..], lastSequence))
        invariant replayedRecords == |applied|
      {
        var raw := lines[index];
        assert lines[index..][1..] == lines[index + 1..];
        if !Terminated(raw) {
          return Replayed(applied, lastSequence, 1);
        }
        var decoded := codec.decode(raw);
        if decoded.Fatal? || (decoded.Sequenced? && decoded.sequence <= lastSequence) {
          return Raised(applied);
        }
        if decoded.Malformed? || decoded.body.None? {
          if index == |lines| - 1 {
            return Replayed(applied, lastSequence, 1);
          }
          return Raised(applied);
        }
        var sequence := decoded.sequence;
        var e := Entry(sequence, decoded.body.value.0, decoded.body.value.1);
        PrecededAssociates(applied, e, ReplayLines(codec, lines[index + 1..], sequence));
        applied := applied + [e];
        lastSequence := sequence;
        replayedRecords := replayedRecords + 1;
        index := index + 1;
      }
      assert lines[index..] == [];
      return Replayed(applied, lastSequence, 0);
    }

    method Truncate()
      modifies this`file, this`durable
      ensures file == "" && durable == if sync then "" else old(durable)
    {
      file := "";
      if sync {
        durable := file;
      }
    }
  }

  /** A complete last record whose stored checksum is wrong makes replay raise; it is not ignored as a torn one. */
  lemma ChecksumFailureRaises(py: Python, crc: Checksum, es: seq<Entry>, e: Entry, stored: int)
    requires Increasing(es, 0) && stored != crc(Print(Obj(Body(e))))
    ensures var text := Print(Obj(Body(e)["crc32" := Int(stored)]));
      ReplayText(WalCodec(py, crc), LogOf(WalCodec(py, crc), es) + (text + "\n")) == Raised(es)
  {
    var text := Print(Obj(Body(e)["crc32" := Int(stored)]));
    WalCodecReadsBack(py, crc);
    PrintHasNoControl(Obj(Body(e)["crc32" := Int(stored)]));
    DecodeWithChecksum(py, crc, e, stored);
    FatalLineRaises(WalCodec(py, crc), es, text, "");
    assert text + "\n" + "" == text + "\n";
  }
}
