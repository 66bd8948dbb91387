/** `json.dumps(value, ensure_ascii=False, sort_keys=True, separators=(",", ":"))` and
    `json.loads`, in the grammar of RFC 8259 sections 2 and 4 to 7 without fractions and exponents.
    Text is a sequence of UTF-8 code units, one `char` each: every character the
    grammar singles out is ASCII, so units above 127 pass through unchanged. */
module JsonCodec {
  import opened Text
  import opened Values

  // ---------- printing ----------

  function EscapeChar(c: char): (s: string)
    ensures s != "" && forall d <- s :: ' ' <= d
  {
    match c
    case '"' => "\\\""
    case '\\' => "\\\\"
    case '\n' => "\\n"
    case '\r' => "\\r"
    case '\t' => "\\t"
    case '\U{0008}' => "\\b"
    case '\U{000C}' => "\\f"
    case _ =>
      if c < ' ' then "\\u00" + [HexDigit(c as int / 16), HexDigit(c as int % 16)] else [c]
  }

  function Escape(s: string): string {
    if s == "" then "" else EscapeChar(s[0]) + Escape(s[1..])
  }

  function Quote(s: string): string {
    "\"" + Escape(s) + "\""
  }

  function Print(v: Json): string
    decreases v, 1, 0
  {
    match v
    case Null => "null"
    case Bool(b) => if b then "true" else "false"
    case Int(n) => Decimal(n)
    case Str(s) => Quote(s)
    case Arr(items) => "[" + PrintItems(items) + "]"
    case Obj(m) => "{" + PrintFields(v, SortedKeys(m.Keys)) + "}"
  }

  function PrintItems(items: seq<Json>): string
    decreases items, 0, 0
  {
    if items == [] then ""
    else if |items| == 1 then Print(items[0])
    else Print(items[0]) + "," + PrintItems(items[1..])
  }

  function PrintFields(v: Json, keys: seq<string>): string
    requires v.Obj? && forall k <- keys :: k in v.fields
    decreases v, 0, |keys|
  {
    if keys == [] then ""
    else
      var field := Quote(keys[0]) + ":" + Print(v.fields[keys[0]]);
      if |keys| == 1 then field else field + "," + PrintFields(v, keys[1..])
  }

  // ---------- parsing ----------

  datatype Parsed<+T> = Failed | Parsed(value: T, rest: string)

  predicate Whitespace(c: char) {
    c == ' ' || c == '\t' || c == '\n' || c == '\r'
  }

  function Skip(s: string): (r: string)
    ensures |r| <= |s|
    ensures r != "" ==> !Whitespace(r[0])
  {
    if s != "" && Whitespace(s[0]) then Skip(s[1..]) else s
  }

  lemma SkipNothing(s: string)
    requires s == "" || !Whitespace(s[0])
    ensures Skip(s) == s
  {}

  /** The text after an opening quote, up to the closing one. */
  function ParseString(s: string): (r: Parsed<string>)
    ensures r.Parsed? ==> |r.rest| < |s|
  {
    if s == "" then Failed
    else if s[0] == '"' then Parsed("", s[1..])
    else if s[0] == '\\' then
      match ParseEscape(s[1..])
      case Failed => Failed
      case Parsed(c, rest) => Prepend(c, ParseString(rest))
    else if s[0] < ' ' then Failed
    else Prepend(s[0], ParseString(s[1..]))
  }

  function Prepend(c: char, r: Parsed<string>): Parsed<string> {
    match r
    case Failed => Failed
    case Parsed(t, rest) => Parsed([c] + t, rest)
  }

  /** The character an escape names; `s` starts after the backslash. */
  function ParseEscape(s: string): (r: Parsed<char>)
    ensures r.Parsed? ==> |r.rest| < |s|
  {
    if s == "" then Failed
    else
      match s[0]
      case '"' => Parsed('"', s[1..])
      case '\\' => Parsed('\\', s[1..])
      case '/' => Parsed('/', s[1..])
      case 'b' => Parsed('\U{0008}', s[1..])
      case 'f' => Parsed('\U{000C}', s[1..])
      case 'n' => Parsed('\n', s[1..])
      case 'r' => Parsed('\r', s[1..])
      case 't' => Parsed('\t', s[1..])
      case 'u' => ParseHex(s[1..])
      case _ => Failed
  }

  function ParseHex(s: string): (r: Parsed<char>)
    ensures r.Parsed? ==> |r.rest| <= |s|
  {
    if |s| < 4 then Failed
    else
      var (a, b, c, d) := (HexValue(s[0]), HexValue(s[1]), HexValue(s[2]), HexValue(s[3]));
      // code points above 127 would need re-encoding into several units
      if a == 0 && b == 0 && c < 8 && d < 16 then Parsed((16 * c + d) as char, s[4..]) else Failed
  }

  function ParseNumber(s: string): (r: Parsed<Json>)
    ensures r.Parsed? ==> |r.rest| < |s|
  {
    var negative := s != "" && s[0] == '-';
    var body := if negative then s[1..] else s;
    // a leading zero stands alone
    var digits := if body != "" && body[0] == '0' then "0" else TakeDigits(body);
    if digits == "" then Failed
    else
      var rest := body[|digits|..];
      if rest != "" && (rest[0] == '.' || rest[0] == 'e' || rest[0] == 'E') then Failed
      else
        var magnitude: int := NatValue(digits);
        Parsed(Int(if negative then -magnitude else magnitude), rest)
  }

  function ParseLiteral(literal: string, v: Json, s: string): (r: Parsed<Json>)
    requires literal != ""
    ensures r.Parsed? ==> |r.rest| < |s|
  {
    if literal <= s then Parsed(v, s[|literal|..]) else Failed
  }

  function ParseValue(s: string): (r: Parsed<Json>)
    ensures r.Parsed? ==> |r.rest| < |s|
    decreases |s|, 1
  {
    if s == "" then Failed
    else
      match s[0]
      case 'n' => ParseLiteral("null", Null, s)
      case 't' => ParseLiteral("true", Bool(true), s)
      case 'f' => ParseLiteral("false", Bool(false), s)
      case '"' => (match ParseString(s[1..]) case Failed => Failed case Parsed(t, rest) => Parsed(Str(t), rest))
      case '[' => ParseArray(Skip(s[1..]))
      case '{' => ParseObject(Skip(s[1..]))
      case _ => ParseNumber(s)
  }

  /** What follows an opening bracket. */
  function ParseArray(s: string): (r: Parsed<Json>)
    ensures r.Parsed? ==> |r.rest| < |s|
    decreases |s|, 3
  {
    if s != "" && s[0] == ']' then Parsed(Arr([]), s[1..]) else ParseItems(s, [])
  }

  /** What follows an opening brace. */
  function ParseObject(s: string): (r: Parsed<Json>)
    ensures r.Parsed? ==> |r.rest| < |s|
    decreases |s|, 3
  {
    if s != "" && s[0] == '}' then Parsed(Obj(map[]), s[1..]) else ParseFields(s, map[])
  }

  /** One or more items and the closing bracket; `seen` are the items so far. */
  function ParseItems(s: string, seen: seq<Json>): (r: Parsed<Json>)
    ensures r.Parsed? ==> |r.rest| < |s|
    decreases |s|, 2
  {
    match ParseValue(s)
    case Failed => Failed
    case Parsed(v, after) =>
      var rest := Skip(after);
      if rest == "" then Failed
      else if rest[0] == ']' then Parsed(Arr(seen + [v]), rest[1..])
      else if rest[0] == ',' then ParseItems(Skip(rest[1..]), seen + [v])
      else Failed
  }

  /** One or more fields and the closing brace; a repeated key keeps the last value. */
  function ParseFields(s: string, seen: map<string, Json>): (r: Parsed<Json>)
    ensures r.Parsed? ==> |r.rest| < |s|
    decreases |s|, 2
  {
    if s == "" || s[0] != '"' then Failed
    else
      match ParseString(s[1..])
      case Failed => Failed
      case Parsed(key, afterKey) =>
        var colon := Skip(afterKey);
        if colon == "" || colon[0] != ':' then Failed
        else
          match ParseValue(Skip(colon[1..]))
          case Failed => Failed
          case Parsed(v, after) =>
            var rest := Skip(after);
            if rest == "" then Failed
            else if rest[0] == '}' then Parsed(Obj(seen[key := v]), rest[1..])
            else if rest[0] == ',' then ParseFields(Skip(rest[1..]), seen[key := v])
            else Failed
  }

  /** `json.loads`; None stands for a ValueError. */
  function Loads(s: string): Option<Json> {
    match ParseValue(Skip(s))
    case Failed => None
    case Parsed(v, rest) => if Skip(rest) == "" then Some(v) else None
  }

  // ---------- round trip ----------

  /** What may follow a value without being read as part of a number. */
  predicate Delimited(rest: string) {
    rest != "" ==> !IsDigit(rest[0]) && rest[0] != '.' && rest[0] != 'e' && rest[0] != 'E'
  }

  lemma {:induction false} ControlEscapeRoundTrip(c: char, rest: string)
    requires c < ' '
    ensures ParseEscape("u00" + [HexDigit(c as int / 16), HexDigit(c as int % 16)] + rest) == Parsed(c, rest)
  {
    var s := "u00" + [HexDigit(c as int / 16), HexDigit(c as int % 16)] + rest;
    assert s[1..][4..] == rest;
    assert HexValue(s[1..][0]) == 0 == HexValue(s[1..][1]);
  }

  lemma {:induction false} EscapeCharRoundTrip(c: char, rest: string)
    ensures ParseString(EscapeChar(c) + rest) == Prepend(c, ParseString(rest))
  {
    hide HexDigit, HexValue;
    var s := EscapeChar(c) + rest;
    if |EscapeChar(c)| == 1 {
      assert s[1..] == rest;
    } else if |EscapeChar(c)| == 2 {
      assert s[1..][1..] == rest;
    } else {
      ControlEscapeRoundTrip(c, rest);
      assert s[1..] == "u00" + [HexDigit(c as int / 16), HexDigit(c as int % 16)] + rest;
    }
  }

  lemma {:induction false} StringRoundTrip(t: string, rest: string)
    ensures ParseString(Escape(t) + "\"" + rest) == Parsed(t, rest)
  {
    if t == "" {
      assert Escape(t) + "\"" + rest == "\"" + rest;
    } else {
      var tail := Escape(t[1..]) + "\"" + rest;
      assert Escape(t) + "\"" + rest == EscapeChar(t[0]) + tail;
      EscapeCharRoundTrip(t[0], tail);
      StringRoundTrip(t[1..], rest);
      assert t == [t[0]] + t[1..];
    }
  }

  lemma {:induction false} DigitsRoundTrip(digits: string, negative: bool, rest: string)
    requires Delimited(rest) && digits != "" && forall c <- digits :: IsDigit(c)
    requires digits[0] == '0' ==> digits == "0"
    ensures var magnitude: int := NatValue(digits);
      ParseNumber((if negative then "-" else "") + digits + rest)
        == Parsed(Int(if negative then -magnitude else magnitude), rest)
  {
    hide TakeDigits, NatValue;
    var body := digits + rest;
    var s := (if negative then "-" else "") + digits + rest;
    LeadingDigits(digits, rest);
    assert s[0] == '-' <==> negative;
    assert body == if negative then s[1..] else s;
  }

  lemma LeadingDigits(digits: string, rest: string)
    requires Delimited(rest) && digits != "" && forall c <- digits :: IsDigit(c)
    requires digits[0] == '0' ==> digits == "0"
    ensures var body := digits + rest;
      digits == (if body[0] == '0' then "0" else TakeDigits(body)) && body[|digits|..] == rest && IsDigit(body[0])
  {
    TakeDigitsOf(digits, rest);
  }

  lemma {:induction false} NumberRoundTrip(n: int, rest: string)
    requires Delimited(rest)
    ensures ParseNumber(Decimal(n) + rest) == Parsed(Int(n), rest)
  {
    var magnitude: nat := if n < 0 then -n else n;
    DecimalNatValue(magnitude);
    DigitsRoundTrip(DecimalNat(magnitude), n < 0, rest);
    assert Decimal(n) == (if n < 0 then "-" else "") + DecimalNat(magnitude);
  }

  lemma {:induction false} LiteralRoundTrip(v: Json, rest: string)
    requires v.Null? || v.Bool?
    ensures ParseValue(Print(v) + rest) == Parsed(v, rest)
  {
    assert (Print(v) + rest)[|Print(v)|..] == rest;
  }

  /** No printed value starts with whitespace or like the end of an array. */
  lemma {:induction false} PrintStart(v: Json)
    ensures Print(v) != "" && !Whitespace(Print(v)[0]) && Print(v)[0] != ']'
  {
    if v.Int? { assert IsDigit(Print(v)[0]) || Print(v)[0] == '-'; }
  }

  lemma IntRoundTrip(n: int, rest: string)
    requires Delimited(rest)
    ensures ParseValue(Decimal(n) + rest) == Parsed(Int(n), rest)
  {
    NumberRoundTrip(n, rest);
    var s := Decimal(n) + rest;
    assert IsDigit(s[0]) || s[0] == '-';
  }

  lemma StrRoundTrip(t: string, rest: string)
    ensures ParseValue(Quote(t) + rest) == Parsed(Str(t), rest)
  {
    hide ParseString, Escape;
    StringRoundTrip(t, rest);
    assert (Quote(t) + rest)[1..] == Escape(t) + "\"" + rest;
  }

  lemma {:induction false} RoundTripAt(v: Json, rest: string)
    requires Delimited(rest)
    ensures ParseValue(Print(v) + rest) == Parsed(v, rest)
    decreases v, 1, 0
  {
    match v
    case Null => LiteralRoundTrip(v, rest);
    case Bool(b) => LiteralRoundTrip(v, rest);
    case Int(n) => IntRoundTrip(n, rest);
    case Str(t) => StrRoundTrip(t, rest);
    case Arr(items) => ArrayRoundTrip(items, rest);
    case Obj(m) => ObjectRoundTrip(v, rest);
  }

  lemma ParseOpened(inner: string)
    requires Skip(inner) == inner
    ensures ParseValue("[" + inner) == ParseArray(inner)
    ensures ParseValue("{" + inner) == ParseObject(inner)
  {
    hide ParseArray, ParseObject;
    assert ("[" + inner)[1..] == inner;
    assert ("{" + inner)[1..] == inner;
  }

  lemma {:induction false} ArrayRoundTrip(items: seq<Json>, rest: string)
    requires Delimited(rest)
    ensures ParseValue(Print(Arr(items)) + rest) == Parsed(Arr(items), rest)
    decreases items, 1, 0
  {
    var inner := PrintItems(items) + "]" + rest;
    hide ParseValue, ParseItems;
    assert Print(Arr(items)) + rest == "[" + inner;
    if items != [] {
      ItemsRoundTrip(items, [], rest);
      assert [] + items == items;
    } else {
      assert inner == "]" + rest && inner[1..] == rest;
    }
    ParseOpened(inner);
  }

  lemma {:induction false} ObjectRoundTrip(v: Json, rest: string)
    requires v.Obj? && Delimited(rest)
    ensures ParseValue(Print(v) + rest) == Parsed(v, rest)
    decreases v, 0, |v.fields| + 1
  {
    hide ParseValue, ParseFields, SortedKeys;
    var keys := SortedKeys(v.fields.Keys);
    var inner := PrintFields(v, keys) + "}" + rest;
    assert Print(v) + rest == "{" + inner;
    AllFields(v.fields, keys);
    if keys != [] {
      FieldsRoundTrip(v, keys, map[], rest);
    } else {
      assert inner == "}" + rest && inner[1..] == rest;
    }
    ParseOpened(inner);
  }

  lemma AllFields(m: map<string, Json>, keys: seq<string>)
    requires forall k :: k in keys <==> k in m
    ensures map[] + (map k | k in keys :: m[k]) == m
    ensures keys == [] ==> m == map[]
  {
    if keys == [] { assert forall k :: k !in keys; }
  }

  /** Reading one item: what follows it decides between the end and one more item. */
  lemma ParseOneItem(printed: string, tail: string, seen: seq<Json>)
    requires ParseValue(printed + tail).Parsed? && ParseValue(printed + tail).rest == tail
    requires tail != "" && (tail[0] == ']' || tail[0] == ',')
    ensures var items := seen + [ParseValue(printed + tail).value];
      ParseItems(printed + tail, seen)
        == if tail[0] == ']' then Parsed(Arr(items), tail[1..]) else ParseItems(Skip(tail[1..]), items)
  {
    assert Skip(tail) == tail;
  }

  // Regroupings of concatenated text, kept apart from what the text means.
  lemma RegroupLast(a: string, close: string, rest: string)
    ensures a + close + rest == a + (close + rest)
  {}

  lemma RegroupMore(a: string, more: string, close: string, rest: string)
    ensures a + "," + more + close + rest == a + ("," + (more + close + rest))
  {
    assert a + "," + more == a + ("," + more);
    assert a + ("," + more) + close + rest == a + (("," + more) + close + rest);
    assert ("," + more) + close + rest == "," + (more + close + rest);
  }

  lemma RegroupField(key: string, value: string, tail: string)
    ensures key + ":" + value + tail == key + (":" + (value + tail))
  {}

  lemma MoveFirst<T>(seen: seq<T>, items: seq<T>)
    requires items != []
    ensures seen + [items[0]] + items[1..] == seen + items
    ensures |items| == 1 ==> seen + [items[0]] == seen + items
  {}

  lemma ItemsText(items: seq<Json>, rest: string)
    requires items != []
    ensures PrintItems(items) + "]" + rest
      == Print(items[0]) + if |items| == 1 then "]" + rest else "," + (PrintItems(items[1..]) + "]" + rest)
  {
    hide Print;
    if |items| > 1 {
      RegroupMore(Print(items[0]), PrintItems(items[1..]), "]", rest);
    } else {
      RegroupLast(Print(items[0]), "]", rest);
    }
  }

  lemma {:induction false} ItemsRoundTrip(items: seq<Json>, seen: seq<Json>, rest: string)
    requires items != []
    ensures var text := PrintItems(items) + "]" + rest;
      Skip(text) == text && text[0] != ']' && ParseItems(text, seen) == Parsed(Arr(seen + items), rest)
    decreases items, 0, 0
  {
    hide ParseValue, ParseItems, Print, PrintItems, Skip;
    var text := PrintItems(items) + "]" + rest;
    var more := PrintItems(items[1..]) + "]" + rest;
    var tail := if |items| == 1 then "]" + rest else "," + more;
    ItemsText(items, rest);
    PrintStart(items[0]);
    RoundTripAt(items[0], tail);
    ParseOneItem(Print(items[0]), tail, seen);
    assert text[0] == Print(items[0])[0];
    SkipNothing(text);
    MoveFirst(seen, items);
    if |items| == 1 {
      assert tail[1..] == rest;
    } else {
      assert tail[1..] == more;
      ItemsRoundTrip(items[1..], seen + [items[0]], rest);
    }
  }

  /** Reading one field: what follows it decides between the end and one more field. */
  lemma {:induction false} ParseOneField(key: string, printed: string, tail: string, seen: map<string, Json>)
    requires Skip(printed + tail) == printed + tail
    requires ParseValue(printed + tail).Parsed? && ParseValue(printed + tail).rest == tail
    requires tail != "" && (tail[0] == '}' || tail[0] == ',')
    ensures var m := seen[key := ParseValue(printed + tail).value];
      ParseFields(Quote(key) + (":" + (printed + tail)), seen)
        == if tail[0] == '}' then Parsed(Obj(m), tail[1..]) else ParseFields(Skip(tail[1..]), m)
  {
    hide ParseValue, ParseString, Escape;
    var value := printed + tail;
    var after := ":" + value;
    StringRoundTrip(key, after);
    assert (Quote(key) + after)[1..] == Escape(key) + "\"" + after;
    assert after[1..] == value;
    assert Skip(after) == after && Skip(tail) == tail;
  }

  lemma FieldsText(v: Json, keys: seq<string>, rest: string)
    requires v.Obj? && keys != [] && forall k <- keys :: k in v.fields
    ensures PrintFields(v, keys) + "}" + rest == Quote(keys[0]) + (":" + (Print(v.fields[keys[0]])
      + if |keys| == 1 then "}" + rest else "," + (PrintFields(v, keys[1..]) + "}" + rest)))
  {
    hide Print, Quote;
    var key, value := Quote(keys[0]), Print(v.fields[keys[0]]);
    if |keys| > 1 {
      RegroupMore(key + ":" + value, PrintFields(v, keys[1..]), "}", rest);
      RegroupField(key, value, "," + (PrintFields(v, keys[1..]) + "}" + rest));
    } else {
      RegroupLast(key + ":" + value, "}", rest);
      RegroupField(key, value, "}" + rest);
    }
  }

  lemma {:induction false} FieldsRoundTrip(v: Json, keys: seq<string>, seen: map<string, Json>, rest: string)
    requires v.Obj? && keys != [] && forall k <- keys :: k in v.fields
    ensures var text := PrintFields(v, keys) + "}" + rest;
      Skip(text) == text && text[0] == '"'
      && ParseFields(text, seen) == Parsed(Obj(seen + (map k | k in keys :: v.fields[k])), rest)
    decreases v, 0, |keys|
  {
    hide ParseValue, ParseFields, Print, PrintFields, Skip;
    var text := PrintFields(v, keys) + "}" + rest;
    var key, value := keys[0], v.fields[keys[0]];
    var more := PrintFields(v, keys[1..]) + "}" + rest;
    var tail := if |keys| == 1 then "}" + rest else "," + more;
    FieldsText(v, keys, rest);
    PrintStart(value);
    RoundTripAt(value, tail);
    SkipNothing(Print(value) + tail);
    ParseOneField(key, Print(value), tail, seen);
    SkipNothing(text);
    if |keys| == 1 {
      assert tail[1..] == rest;
      assert seen[key := value] == seen + (map k | k in keys :: v.fields[k]);
    } else {
      assert tail[1..] == more;
      FieldsRoundTrip(v, keys[1..], seen[key := value], rest);
      MapSplit(v.fields, keys, seen);
    }
  }

  lemma {:induction false} MapSplit(m: map<string, Json>, keys: seq<string>, seen: map<string, Json>)
    requires keys != [] && forall k <- keys :: k in m
    ensures seen[keys[0] := m[keys[0]]] + (map k | k in keys[1..] :: m[k]) == seen + (map k | k in keys :: m[k])
  {
    assert keys == [keys[0]] + keys[1..];
  }

  /** Reading back what was printed gives the value printed. */
  lemma {:induction false} RoundTrip(v: Json, newline: string)
    requires newline == "" || newline == "\n"
    ensures Loads(Print(v) + newline) == Some(v)
  {
    hide ParseValue, Print;
    PrintStart(v);
    RoundTripAt(v, newline);
    if newline != "" { assert newline[1..] == ""; }
  }

  /** Printing is injective. */
  lemma {:induction false} PrintInjective(v: Json, w: Json)
    requires Print(v) == Print(w)
    ensures v == w
  {
    RoundTrip(v, "");
    RoundTrip(w, "");
  }

  // ---------- no raw control characters ----------

  predicate NoControl(s: string) {
    forall c <- s :: ' ' <= c
  }

  lemma {:induction false} EscapeHasNoControl(s: string)
    ensures NoControl(Escape(s))
  {
    if s != "" { EscapeHasNoControl(s[1..]); }
  }

  lemma {:induction false} PrintHasNoControl(v: Json)
    ensures NoControl(Print(v))
    decreases v, 1, 0
  {
    match v
    case Str(s) => EscapeHasNoControl(s);
    case Arr(items) => ItemsHaveNoControl(items);
    case Obj(m) => FieldsHaveNoControl(v, SortedKeys(m.Keys));
    case _ =>
  }

  lemma {:induction false} ItemsHaveNoControl(items: seq<Json>)
    ensures NoControl(PrintItems(items))
    decreases items, 0, 0
  {
    if items != [] {
      PrintHasNoControl(items[0]);
      ItemsHaveNoControl(items[1..]);
    }
  }

  lemma {:induction false} FieldsHaveNoControl(v: Json, keys: seq<string>)
    requires v.Obj? && forall k <- keys :: k in v.fields
    ensures NoControl(PrintFields(v, keys))
    decreases v, 0, |keys|
  {
    if keys != [] {
      EscapeHasNoControl(keys[0]);
      PrintHasNoControl(v.fields[keys[0]]);
      FieldsHaveNoControl(v, keys[1..]);
      hide Print, Escape;
    }
  }
}
