/** A nesting-depth scanner for JSON text. It shows that a printed object broken off
    before its end never parses again, whatever complete record is written after it. */
module JsonScan {
  import opened Text
  import opened Values
  import opened JsonCodec

  /** Outside strings, inside one, just after a backslash, or past a character JSON
      does not allow outside strings. */
  datatype Mode = Out(depth: int) | In(depth: int) | Esc(depth: int) | Bad

  predicate Plain(c: char) {
    Whitespace(c) || IsDigit(c) || c in ",:-nultrefas"
  }

  function Step(m: Mode, c: char): Mode {
    match m
    case Bad => Bad
    case Esc(d) => In(d)
    case In(d) => if c == '"' then Out(d) else if c == '\\' then Esc(d) else m
    case Out(d) =>
      if c == '"' then In(d)
      else if c == '{' || c == '[' then Out(d + 1)
      else if c == '}' || c == ']' then Out(d - 1)
      else if Plain(c) then m
      else Bad
  }

  function Scan(m: Mode, s: string): Mode
    decreases |s|
  {
    if s == "" then m else Scan(Step(m, s[0]), s[1..])
  }

  lemma {:induction false} ScanAppend(m: Mode, a: string, b: string)
    ensures Scan(m, a + b) == Scan(Scan(m, a), b)
    decreases |a|
  {
    if a == "" {
      assert a + b == b;
    } else {
      assert (a + b)[1..] == a[1..] + b;
      ScanAppend(Step(m, a[0]), a[1..], b);
    }
  }

  lemma {:induction false} ScanBad(s: string)
    ensures Scan(Bad, s) == Bad
  {
    if s != "" { ScanBad(s[1..]); }
  }

  // ---------- what parses is balanced ----------

  lemma {:induction false} ScanPlain(d: int, a: string, b: string)
    requires forall c <- a :: Plain(c)
    ensures Scan(Out(d), a + b) == Scan(Out(d), b)
  {
    if a == "" {
      assert a + b == b;
    } else {
      assert (a + b)[1..] == a[1..] + b;
      assert a[0] in a;
      ScanPlain(d, a[1..], b);
    }
  }

  lemma {:induction false} ScanSkip(d: int, s: string)
    ensures Scan(Out(d), s) == Scan(Out(d), Skip(s))
  {
    if s != "" && Whitespace(s[0]) { ScanSkip(d, s[1..]); }
  }

  lemma {:induction false} ScanParsedString(d: int, s: string)
    requires ParseString(s).Parsed?
    ensures Scan(In(d), s) == Scan(Out(d), ParseString(s).rest)
    decreases |s|
  {
    if s[0] == '"' {
    } else if s[0] == '\\' {
      var after := ParseEscape(s[1..]).rest;
      assert Scan(In(d), s) == Scan(Esc(d), s[1..]) == Scan(In(d), s[1..][1..]);
      if s[1] == 'u' {
        ScanHex(d, s[1..][1..]);
      }
      ScanParsedString(d, after);
    } else {
      ScanParsedString(d, s[1..]);
    }
  }

  lemma ScanHex(d: int, s: string)
    requires ParseHex(s).Parsed?
    ensures Scan(In(d), s) == Scan(In(d), s[4..])
  {
    assert s == s[..4] + s[4..];
    ScanAppend(In(d), s[..4], s[4..]);
    GoesUnquoted(d, s[..4]);
  }

  lemma {:induction false} ScanParsedNumber(d: int, s: string)
    requires ParseNumber(s).Parsed?
    ensures Scan(Out(d), s) == Scan(Out(d), ParseNumber(s).rest)
  {
    hide Scan, NatValue, TakeDigits;
    var rest := ParseNumber(s).rest;
    var taken := s[..|s| - |rest|];
    var body := if s[0] == '-' then s[1..] else s;
    var digits := if body != "" && body[0] == '0' then "0" else TakeDigits(body);
    assert body == digits + rest;
    assert taken == (if s[0] == '-' then "-" else "") + digits;
    assert s == taken + rest;
    ScanPlain(d, taken, rest);
  }

  lemma {:induction false} ScanParsedLiteral(d: int, literal: string, v: Json, s: string)
    requires literal != "" && ParseLiteral(literal, v, s).Parsed? && forall c <- literal :: Plain(c)
    ensures Scan(Out(d), s) == Scan(Out(d), ParseLiteral(literal, v, s).rest)
  {
    assert s == literal + s[|literal|..];
    ScanPlain(d, literal, s[|literal|..]);
  }

  lemma {:induction false} ScanParsedValue(d: int, s: string)
    requires ParseValue(s).Parsed?
    ensures Scan(Out(d), s) == Scan(Out(d), ParseValue(s).rest)
    decreases |s|, 1
  {
    match s[0]
    case 'n' => ScanParsedLiteral(d, "null", Null, s);
    case 't' => ScanParsedLiteral(d, "true", Bool(true), s);
    case 'f' => ScanParsedLiteral(d, "false", Bool(false), s);
    case '"' => ScanParsedString(d, s[1..]);
    case '[' =>
      ScanSkip(d + 1, s[1..]);
      var inner := Skip(s[1..]);
      if inner[0] != ']' { ScanParsedItems(d, inner, []); }
    case '{' =>
      ScanSkip(d + 1, s[1..]);
      var inner := Skip(s[1..]);
      if inner[0] != '}' { ScanParsedFields(d, inner, map[]); }
    case _ => ScanParsedNumber(d, s);
  }

  lemma {:induction false} ScanParsedItems(d: int, s: string, seen: seq<Json>)
    requires ParseItems(s, seen).Parsed?
    ensures Scan(Out(d + 1), s) == Scan(Out(d), ParseItems(s, seen).rest)
    decreases |s|, 2
  {
    ScanParsedValue(d + 1, s);
    var after := ParseValue(s).rest;
    var rest := Skip(after);
    ScanSkip(d + 1, after);
    if rest[0] == ',' {
      ScanSkip(d + 1, rest[1..]);
      ScanParsedItems(d, Skip(rest[1..]), seen + [ParseValue(s).value]);
    }
  }

  lemma {:induction false} ScanParsedFields(d: int, s: string, seen: map<string, Json>)
    requires ParseFields(s, seen).Parsed?
    ensures Scan(Out(d + 1), s) == Scan(Out(d), ParseFields(s, seen).rest)
    decreases |s|, 2
  {
    hide ParseValue, ParseString, Skip;
    ScanParsedString(d + 1, s[1..]);
    var key, afterKey := ParseString(s[1..]).value, ParseString(s[1..]).rest;
    var colon := Skip(afterKey);
    ScanSkip(d + 1, afterKey);
    ScanSkip(d + 1, colon[1..]);
    var body := Skip(colon[1..]);
    ScanParsedValue(d + 1, body);
    var v, after := ParseValue(body).value, ParseValue(body).rest;
    var rest := Skip(after);
    ScanSkip(d + 1, after);
    if rest[0] == ',' {
      ScanSkip(d + 1, rest[1..]);
      ScanParsedFields(d, Skip(rest[1..]), seen[key := v]);
    }
  }

  /** Text that loads closes every bracket and quote it opens. */
  lemma {:induction false} LoadsBalanced(s: string)
    requires Loads(s).Some?
    ensures Scan(Out(0), s) == Out(0)
  {
    ScanSkip(0, s);
    ScanParsedValue(0, Skip(s));
    ScanSkip(0, ParseValue(Skip(s)).rest);
  }

  // ---------- printed text stays above its starting depth ----------

  predicate Above(m: Mode, floor: int, s: string)
    decreases |s|
  {
    m != Bad && m.depth >= floor && (s == "" || Above(Step(m, s[0]), floor, s[1..]))
  }

  lemma {:induction false} AboveAppend(m: Mode, floor: int, a: string, b: string)
    requires Above(m, floor, a) && Above(Scan(m, a), floor, b)
    ensures Above(m, floor, a + b)
    decreases |a|
  {
    if a == "" {
      assert a + b == b;
    } else {
      assert (a + b)[1..] == a[1..] + b;
      AboveAppend(Step(m, a[0]), floor, a[1..], b);
    }
  }

  lemma {:induction false} AbovePrefix(m: Mode, floor: int, t: string, s: string)
    requires Above(m, floor, s) && t <= s
    ensures Scan(m, t) != Bad && Scan(m, t).depth >= floor
    decreases |t|
  {
    if t != "" { AbovePrefix(Step(m, t[0]), floor, t[1..], s[1..]); }
  }

  /** Scanning `s` goes from m to m' and never below `floor`. */
  predicate Goes(m: Mode, m': Mode, floor: int, s: string) {
    Above(m, floor, s) && Scan(m, s) == m'
  }

  lemma GoesAppend(m: Mode, m': Mode, m'': Mode, floor: int, a: string, b: string)
    requires Goes(m, m', floor, a) && Goes(m', m'', floor, b)
    ensures Goes(m, m'', floor, a + b)
  {
    AboveAppend(m, floor, a, b);
    ScanAppend(m, a, b);
  }

  lemma GoesChar(m: Mode, floor: int, c: char)
    requires m != Bad && Step(m, c) != Bad && m.depth >= floor && Step(m, c).depth >= floor
    ensures Goes(m, Step(m, c), floor, [c])
  {
    assert [c][1..] == "";
  }

  lemma {:induction false} GoesUnquoted(d: int, s: string)
    requires forall i | 0 <= i < |s| :: s[i] != '"' && s[i] != '\\'
    ensures Goes(In(d), In(d), d, s)
  {
    if s != "" {
      GoesUnquoted(d, s[1..]);
    }
  }

  lemma GoesEscapeChar(d: int, c: char)
    ensures Goes(In(d), In(d), d, EscapeChar(c))
  {
    var s := EscapeChar(c);
    if |s| == 1 {
      GoesUnquoted(d, s);
    } else {
      GoesChar(In(d), d, '\\');
      GoesChar(Esc(d), d, s[1]);
      GoesUnquoted(d, s[2..]);
      GoesAppend(In(d), Esc(d), In(d), d, "\\", [s[1]]);
      GoesAppend(In(d), In(d), In(d), d, "\\" + [s[1]], s[2..]);
      assert s == "\\" + [s[1]] + s[2..];
    }
  }

  lemma {:induction false} GoesEscape(d: int, s: string)
    ensures Goes(In(d), In(d), d, Escape(s))
  {
    if s != "" {
      GoesEscapeChar(d, s[0]);
      GoesEscape(d, s[1..]);
      GoesAppend(In(d), In(d), In(d), d, EscapeChar(s[0]), Escape(s[1..]));
    }
  }

  lemma GoesQuote(d: int, s: string)
    ensures Goes(Out(d), Out(d), d, Quote(s))
  {
    GoesChar(Out(d), d, '"');
    GoesEscape(d, s);
    GoesChar(In(d), d, '"');
    GoesAppend(Out(d), In(d), In(d), d, "\"", Escape(s));
    GoesAppend(Out(d), In(d), Out(d), d, "\"" + Escape(s), "\"");
  }

  lemma {:induction false} GoesPlain(d: int, s: string)
    requires forall c <- s :: Plain(c)
    ensures Goes(Out(d), Out(d), d, s)
  {
    if s != "" {
      assert s[0] in s;
      GoesPlain(d, s[1..]);
    }
  }

  lemma {:induction false} GoesBelow(m: Mode, m': Mode, floor: int, lower: int, s: string)
    requires Goes(m, m', floor, s) && lower <= floor
    ensures Goes(m, m', lower, s)
    decreases |s|
  {
    if s != "" { GoesBelow(Step(m, s[0]), m', floor, lower, s[1..]); }
  }

  lemma GoesBracketed(d: int, open: char, body: string, close: char)
    requires open in "{[" && close in "}]" && Goes(Out(d + 1), Out(d + 1), d + 1, body)
    ensures Goes(Out(d), Out(d), d, [open] + body + [close])
  {
    GoesBelow(Out(d + 1), Out(d + 1), d + 1, d, body);
    GoesChar(Out(d), d, open);
    GoesChar(Out(d + 1), d, close);
    GoesAppend(Out(d), Out(d + 1), Out(d + 1), d, [open], body);
    GoesAppend(Out(d), Out(d + 1), Out(d), d, [open] + body, [close]);
  }

  lemma {:induction false} GoesPrint(d: int, v: Json)
    ensures Goes(Out(d), Out(d), d, Print(v))
    decreases v, 1, 0
  {
    match v
    case Null => GoesPlain(d, "null");
    case Bool(b) => GoesPlain(d, "true"); GoesPlain(d, "false");
    case Int(n) => GoesPlain(d, Decimal(n));
    case Str(s) => GoesQuote(d, s);
    case Arr(items) =>
      GoesItems(d + 1, items);
      GoesBracketed(d, '[', PrintItems(items), ']');
    case Obj(m) =>
      GoesFields(d + 1, v, SortedKeys(m.Keys));
      GoesBracketed(d, '{', PrintFields(v, SortedKeys(m.Keys)), '}');
  }

  lemma GoesThenComma(d: int, a: string, b: string)
    requires Goes(Out(d), Out(d), d, a) && Goes(Out(d), Out(d), d, b)
    ensures Goes(Out(d), Out(d), d, a + "," + b)
  {
    GoesPlain(d, ",");
    GoesAppend(Out(d), Out(d), Out(d), d, a, ",");
    GoesAppend(Out(d), Out(d), Out(d), d, a + ",", b);
  }

  lemma {:induction false} GoesItems(d: int, items: seq<Json>)
    ensures Goes(Out(d), Out(d), d, PrintItems(items))
    decreases items, 0, 0
  {
    if items != [] {
      GoesPrint(d, items[0]);
      GoesItems(d, items[1..]);
      GoesThenComma(d, Print(items[0]), PrintItems(items[1..]));
    }
  }

  lemma {:induction false} GoesFields(d: int, v: Json, keys: seq<string>)
    requires v.Obj? && forall k <- keys :: k in v.fields
    ensures Goes(Out(d), Out(d), d, PrintFields(v, keys))
    decreases v, 0, |keys|
  {
    if keys != [] {
      var key, value := Quote(keys[0]), Print(v.fields[keys[0]]);
      GoesQuote(d, keys[0]);
      GoesPlain(d, ":");
      GoesPrint(d, v.fields[keys[0]]);
      GoesAppend(Out(d), Out(d), Out(d), d, key, ":");
      GoesAppend(Out(d), Out(d), Out(d), d, key + ":", value);
      GoesFields(d, v, keys[1..]);
      GoesThenComma(d, key + ":" + value, PrintFields(v, keys[1..]));
    }
  }

  // ---------- broken-off objects ----------

  /** A printed object cut anywhere strictly inside leaves a bracket open. */
  lemma {:induction false} CutObjectStaysOpen(v: Json, t: string)
    requires v.Obj? && t != "" && t <= Print(v) && t != Print(v)
    ensures Scan(Out(0), t) != Bad && Scan(Out(0), t).depth >= 1
  {
    var body := PrintFields(v, SortedKeys(v.fields.Keys));
    GoesFields(1, v, SortedKeys(v.fields.Keys));
    assert Print(v) == "{" + body + "}";
    assert t[0] == '{' && t[1..] <= body;
    AbovePrefix(Out(1), 1, t[1..], body);
  }

  lemma GluedInsideString(m: Mode, line: string)
    requires m.In? || m.Esc?
    requires "{\"c" <= line
    ensures Scan(m, line) == Bad
  {
    assert line == ("{" + "\"" + "c") + line[3..];
    ScanAppend(m, "{" + "\"" + "c", line[3..]);
    ScanAppend(m, "{" + "\"", "c");
    ScanAppend(m, "{", "\"");
    assert Scan(m, "{") == In(m.depth);
    assert Scan(In(m.depth), "\"") == Out(m.depth);
    assert Scan(Out(m.depth), "c") == Bad;
    ScanBad(line[3..]);
  }

  /** Glueing a record onto the remains of another gives text that does not load. The record
      may be any printed object whose first key starts with a letter JSON never uses bare. */
  lemma {:induction false} GluedRecordNeverLoads(v: Json, t: string, record: Json)
    requires v.Obj? && t != "" && t <= Print(v) && t != Print(v)
    requires "{\"c" <= Print(record)
    ensures Loads(t + Print(record) + "\n") == None
  {
    var line := Print(record);
    CutObjectStaysOpen(v, t);
    var m := Scan(Out(0), t);
    ScanAppend(Out(0), t + line, "\n");
    ScanAppend(Out(0), t, line);
    if m.Out? {
      GoesPrint(m.depth, record);
      ScanSkip(m.depth, "\n");
    } else {
      GluedInsideString(m, line);
      ScanBad("\n");
    }
    if Loads(t + line + "\n").Some? { LoadsBalanced(t + line + "\n"); }
  }
}
