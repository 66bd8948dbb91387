/** The texts written, character by character: canonical JSON, the records of the log and the snapshot file;
    and which texts of these forms are read. */
module Formats {
  import opened Text
  import opened Values
  import opened JsonCodec
  import opened Replay
  import opened Wal
  import opened Snapshot
  import Audit

  // ---------- the text of values ----------

  /** The parts with commas between them. */
  function Commas(parts: seq<string>): string {
    if parts == [] then "" else if |parts| == 1 then parts[0] else parts[0] + "," + Commas(parts[1..])
  }

  /** One field of an object, its key being free of characters that are escaped. */
  function Field(key: string, text: string): string {
    "\"" + key + "\":" + text
  }

  predicate Unescaped(s: string) {
    forall i | 0 <= i < |s| :: ' ' <= s[i] && s[i] != '"' && s[i] != '\\'
  }

  lemma {:induction false} EscapeUnescaped(s: string)
    requires Unescaped(s)
    ensures Escape(s) == s
  {
    if s != "" { EscapeUnescaped(s[1..]); }
  }

  /** Quotes, backslashes and control characters are escaped, and nothing else. */
  lemma EscapeMeans(c: char)
    ensures Escape([c]) ==
      if c == '"' then "\\\"" else if c == '\\' then "\\\\"
      else if c == '\n' then "\\n" else if c == '\r' then "\\r" else if c == '\t' then "\\t"
      else if c == 8 as char then "\\b" else if c == 12 as char then "\\f"
      else if c >= 32 as char then [c]
      else ['\\', 'u', '0', '0', "0123456789abcdef"[c as int / 16], "0123456789abcdef"[c as int % 16]]
  {
    assert [c][1..] == "" && Escape("") == "";
    assert forall d: nat | d < 16 :: HexDigit(d) == "0123456789abcdef"[d];
  }

  lemma {:induction false} EscapeAppend(a: string, b: string)
    ensures Escape(a + b) == Escape(a) + Escape(b)
  {
    if a == "" {
      assert a + b == b;
    } else {
      assert (a + b)[1..] == a[1..] + b;
      EscapeAppend(a[1..], b);
    }
  }

  function Printed(items: seq<Json>): seq<string> {
    seq(|items|, i requires 0 <= i < |items| => Print(items[i]))
  }

  function PrintedFields(m: Document, keys: seq<string>): seq<string>
    requires forall k | k in keys :: k in m
  {
    seq(|keys|, i requires 0 <= i < |keys| => "\"" + Escape(keys[i]) + "\":" + Print(m[keys[i]]))
  }

  lemma {:induction false} PrintedItemsText(items: seq<Json>)
    ensures PrintItems(items) == Commas(Printed(items))
  {
    if |items| > 1 {
      PrintedItemsText(items[1..]);
      assert Printed(items)[1..] == Printed(items[1..]);
    }
  }

  lemma {:induction false} PrintedFieldsText(m: Document, keys: seq<string>)
    requires forall k | k in keys :: k in m
    ensures PrintFields(Obj(m), keys) == Commas(PrintedFields(m, keys))
    decreases |keys|
  {
    hide Print, Escape;
    if keys != [] {
      if |keys| > 1 { PrintedFieldsText(m, keys[1..]); }
      assert PrintedFields(m, keys)[1..] == PrintedFields(m, keys[1..]);
      var q, value := Escape(keys[0]), Print(m[keys[0]]);
      assert "\"" + q + "\"" + ":" + value == "\"" + q + "\":" + value;
    }
  }

  /** The text of every kind of value; the fields of an object come in increasing order of their keys. */
  lemma PrintMeans(v: Json, keys: seq<string>)
    requires v.Obj? ==>
      (forall k :: k in keys <==> k in v.fields) && forall i, j | 0 <= i < j < |keys| :: LexLess(keys[i], keys[j])
    ensures Print(v) == match v
      case Null => "null"
      case Bool(b) => if b then "true" else "false"
      case Int(n) => Decimal(n)
      case Str(s) => "\"" + Escape(s) + "\""
      case Arr(items) => "[" + Commas(Printed(items)) + "]"
      case Obj(m) => "{" + Commas(PrintedFields(m, keys)) + "}"
  {
    match v
    case Arr(items) => PrintedItemsText(items);
    case Obj(m) =>
      SortedKeysAre(keys, m.Keys);
      PrintedFieldsText(m, keys);
    case _ =>
  }

  /** Nothing but spaces, tabs and line ends. */
  predicate Blank(s: string) {
    forall i | 0 <= i < |s| :: s[i] == ' ' || s[i] == '\t' || s[i] == '\n' || s[i] == '\r'
  }

  lemma {:induction false} SkipSpace(space: string, rest: string)
    requires Blank(space)
    ensures Skip(space + rest) == Skip(rest)
  {
    if space == "" {
      assert space + rest == rest;
    } else {
      assert (space + rest)[1..] == space[1..] + rest;
      SkipSpace(space[1..], rest);
    }
  }

  /** Space around a value is skipped. */
  lemma LoadsPadded(v: Json, before: string, after: string)
    requires Blank(before) && Blank(after)
    ensures Loads(before + Print(v) + after) == Some(v)
  {
    var text := Print(v) + after;
    assert before + Print(v) + after == before + text;
    SkipSpace(before, text);
    PrintStart(v);
    RoundTripAt(v, after);
    SkipSpace(after, "");
    assert after + "" == after;
  }

  // ---------- the log ----------

  /** Keys that need no escapes and start with increasing characters. */
  ghost predicate Listed(keys: seq<string>, m: Document) {
    (forall k :: k in keys <==> k in m)
    && (forall i | 0 <= i < |keys| :: keys[i] != "" && Unescaped(keys[i]))
    && forall i, j | 0 <= i < j < |keys| :: keys[i][0] < keys[j][0]
  }

  /** An object with the given keys in increasing order, from the texts of its fields. */
  lemma ObjectText(m: Document, keys: seq<string>, parts: seq<string>)
    requires Listed(keys, m) && |parts| == |keys|
    requires forall i | 0 <= i < |keys| :: parts[i] == Field(keys[i], Print(m[keys[i]]))
    ensures Print(Obj(m)) == "{" + Commas(parts) + "}"
  {
    hide Print, SortedKeys, Commas;
    forall i, j | 0 <= i < j < |keys| ensures LexLess(keys[i], keys[j]) {}
    PrintMeans(Obj(m), keys);
    forall i | 0 <= i < |keys| ensures PrintedFields(m, keys)[i] == parts[i] {
      EscapeUnescaped(keys[i]);
    }
    assert PrintedFields(m, keys) == parts;
  }

  /** The text that is checksummed. */
  function RecordBody(e: Entry): string {
    "{" + Commas([Field("op", Print(Str(e.op))), Field("payload", Print(Obj(e.payload))),
      Field("seq", Decimal(e.sequence)), Field("version", "1")]) + "}"
  }

  lemma PlainKeys()
    ensures Unescaped("crc32") && Unescaped("op") && Unescaped("payload") && Unescaped("seq") && Unescaped("version")
    ensures Unescaped("collections") && Unescaped("sha256")
  {}

  lemma BodyText(e: Entry)
    ensures Print(Obj(Body(e))) == RecordBody(e)
  {
    PlainKeys();
    ScalarTexts();
    hide Commas, Field, Print, Unescaped, Decimal, SortedKeys;
    assert Listed(["op", "payload", "seq", "version"], Body(e));
    ObjectText(Body(e), ["op", "payload", "seq", "version"], [Field("op", Print(Str(e.op))),
      Field("payload", Print(Obj(e.payload))), Field("seq", Print(Int(e.sequence))), Field("version", Print(Int(1)))]);
  }

  lemma ScalarTexts()
    ensures Print(Int(1)) == "1" && forall n :: Print(Int(n)) == Decimal(n)
  {}

  /** A record is one line: the checksum of the rest, the operation, the payload, the sequence and version 1. */
  lemma RecordFormat(py: Python, crc: Checksum, e: Entry)
    ensures Line(WalCodec(py, crc), e) ==
      "{" + Commas([Field("crc32", Decimal(crc(RecordBody(e)))), Field("op", Print(Str(e.op))),
        Field("payload", Print(Obj(e.payload))), Field("seq", Decimal(e.sequence)), Field("version", "1")]) + "}" + "\n"
  {
    BodyText(e);
    PlainKeys();
    ScalarTexts();
    hide Commas, Field, Print, Unescaped, Decimal, SortedKeys, RecordBody;
    var n := crc(RecordBody(e));
    assert Listed(["crc32", "op", "payload", "seq", "version"], Body(e)["crc32" := Int(n)]);
    ObjectText(Body(e)["crc32" := Int(n)], ["crc32", "op", "payload", "seq", "version"],
      [Field("crc32", Print(Int(n))), Field("op", Print(Str(e.op))), Field("payload", Print(Obj(e.payload))),
       Field("seq", Print(Int(e.sequence))), Field("version", Print(Int(1)))]);
  }

  /** Which dicts are records: the checksum must be that of the other fields and the version 1, or the line is fatal;
      without a checksum or a sequence it is malformed. */
  lemma DecodeMeans(py: Python, crc: Checksum, m: Document)
    ensures var d := Decode(py, crc, Print(Obj(m)) + "\n");
      if "crc32" !in m then d == Malformed
      else if !(PyEq(m["crc32"], Int(crc(Print(Obj(m - {"crc32"}))))) && "version" in m && PyEq(m["version"], Int(1)))
      then d == Fatal
      else if "seq" !in m || !IntOf(py, m["seq"]).Cast? then d == Malformed
      else
        d.Sequenced? && d.sequence == IntOf(py, m["seq"]).value
        && if "op" in m && "payload" in m && (m["payload"].Obj? || m["payload"] in {Arr([]), Str("")})
           then d.body == Some((StrOf(py, m["op"]), if m["payload"].Obj? then m["payload"].fields else map[]))
           else d.body == None
  {
    hide Print, Loads, Norm, StrOf, IntOf, DecodeFields, SortedKeys;
    RoundTrip(Obj(m), "\n");
    DecodeFieldsMeans(py, crc, m);
  }

  lemma DecodeFieldsMeans(py: Python, crc: Checksum, m: Document)
    ensures var d := DecodeFields(py, crc, m);
      if "crc32" !in m then d == Malformed
      else if !(PyEq(m["crc32"], Int(crc(Print(Obj(m - {"crc32"}))))) && "version" in m && PyEq(m["version"], Int(1)))
      then d == Fatal
      else if "seq" !in m || !IntOf(py, m["seq"]).Cast? then d == Malformed
      else
        d.Sequenced? && d.sequence == IntOf(py, m["seq"]).value
        && if "op" in m && "payload" in m && (m["payload"].Obj? || m["payload"] in {Arr([]), Str("")})
           then d.body == Some((StrOf(py, m["op"]), if m["payload"].Obj? then m["payload"].fields else map[]))
           else d.body == None
  {
    hide Print, Norm, StrOf, IntOf, SortedKeys;
    var record := m - {"crc32"};
    assert forall k | k in {"version", "seq", "op", "payload"} ::
        (k in record <==> k in m) && (k in m ==> record[k] == m[k]);
    if "payload" in m { DictMeans(m["payload"]); }
    hide DictOf;
  }

  lemma DictMeans(v: Json)
    ensures DictOf(v) ==
      if v.Obj? then Some(v.fields) else if v in {Arr([]), Str("")} then Some(map[]) else None
  {}

  /** A last line that is JSON but no dict: a list is ignored like a torn record, anything else makes replay raise. */
  lemma BareValueLine(py: Python, crc: Checksum, es: seq<Entry>, v: Json)
    requires Increasing(es, 0) && !v.Obj?
    ensures ReplayText(WalCodec(py, crc), LogOf(WalCodec(py, crc), es) + (Print(v) + "\n" + ""))
      == if v.Arr? then Replayed(es, LastSeq(es, 0), 1) else Raised(es)
  {
    var c := WalCodec(py, crc);
    WalCodecReadsBack(py, crc);
    RoundTrip(v, "\n");
    PrintHasNoControl(v);
    hide Print, Loads, ReplayText, LogOf;
    assert c.decode(Print(v) + "\n") == if v.Arr? then Malformed else Fatal;
    assert '\n' !in Print(v);
    if v.Arr? { ReplayGlued(c, es, Print(v), ""); } else { FatalLineRaises(c, es, Print(v), ""); }
  }

  // ---------- snapshots ----------

  function SnapshotPayload(sequence: int, collections: Collections): string {
    "{" + Commas([Field("collections", Print(Obj(collections))), Field("seq", Decimal(sequence)),
      Field("version", "1")]) + "}"
  }

  lemma PayloadText(sequence: int, collections: Collections)
    ensures Print(Obj(Payload(sequence, collections))) == SnapshotPayload(sequence, collections)
  {
    PlainKeys();
    ScalarTexts();
    hide Commas, Field, Print, Unescaped, Decimal, SortedKeys;
    assert Listed(["collections", "seq", "version"], Payload(sequence, collections));
    ObjectText(Payload(sequence, collections), ["collections", "seq", "version"],
      [Field("collections", Print(Obj(collections))), Field("seq", Print(Int(sequence))),
       Field("version", Print(Int(1)))]);
  }

  /** A snapshot is one line: the payload, of collections, sequence and version 1, and its digest. */
  lemma SnapshotFormat(sha: Digest, sequence: int, collections: Collections)
    ensures EncodeSnapshot(sha, sequence, collections) ==
      "{" + Commas([Field("payload", SnapshotPayload(sequence, collections)),
        Field("sha256", Print(Str(sha(SnapshotPayload(sequence, collections)))))]) + "}" + "\n"
  {
    PayloadText(sequence, collections);
    PlainKeys();
    hide Commas, Field, Print, Unescaped, Decimal, SortedKeys, SnapshotPayload, Payload;
    var payload := Obj(Payload(sequence, collections));
    var digest := Str(sha(Print(payload)));
    assert Listed(["payload", "sha256"], map["payload" := payload, "sha256" := digest]);
    ObjectText(map["payload" := payload, "sha256" := digest], ["payload", "sha256"],
      [Field("payload", Print(payload)), Field("sha256", Print(digest))]);
  }

  /** Which files are snapshots: the digest must be that of the payload and the version 1, and sequence and collections
      must read. */
  lemma SnapshotMeans(py: Python, sha: Digest, record: Document, sequence: int, collections: Collections)
    ensures DecodeSnapshot(py, sha, Print(Obj(record)) + "\n") == Some((sequence, collections)) <==>
      "payload" in record && record["payload"].Obj? && var payload := record["payload"].fields;
        "sha256" in record && record["sha256"] == Str(sha(Print(Obj(payload))))
        && "version" in payload && PyEq(payload["version"], Int(1))
        && "seq" in payload && IntOf(py, payload["seq"]) == Cast(sequence)
        && "collections" in payload
        && (payload["collections"] == Obj(collections)
            || (collections == map[] && payload["collections"] in {Arr([]), Str("")}))
  {
    hide Print, Loads, Norm, IntOf, DictOf, SortedKeys;
    RoundTrip(Obj(record), "\n");
    if "payload" in record && record["payload"].Obj? && "collections" in record["payload"].fields {
      DictMeans(record["payload"].fields["collections"]);
    }
  }

  /** The canonical text itself is a digest that binds. */
  lemma TextBinds()
    ensures Audit.Binding((d: Document) => Print(Obj(d)))
  {
    hide Print;
    var digest := (d: Document) => Print(Obj(d));
    forall a: Document, b: Document | digest(a) == digest(b) ensures a == b { PrintInjective(Obj(a), Obj(b)); }
    forall a: Document ensures Str(digest(a)) != Audit.GENESIS {
      ObjectOpens(a);
      assert Audit.Zeros(64)[0] in Audit.Zeros(64);
    }
  }

  lemma ObjectOpens(d: Document)
    ensures Print(Obj(d)) != "" && Print(Obj(d))[0] == '{'
  {}
}
