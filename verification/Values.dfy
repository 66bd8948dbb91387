/** JSON-shaped Python values and the Python operators the repository applies to them. */
module Values {
  import opened Text

  datatype Option<+T> = None | Some(value: T)

  datatype Json =
    | Null
    | Bool(b: bool)
    | Int(n: int)
    | Str(s: string)
    | Arr(items: seq<Json>)
    | Obj(fields: map<string, Json>)

  type Document = map<string, Json>

  /** Python primitives with no logic of their own here: `repr` of a dict or list and of a tuple, `re.search`
      (None when the pattern does not compile) and `int` of a string (None on a ValueError). */
  datatype Python = Python(
    repr: Json -> string,
    reprTuple: seq<Json> -> string,
    search: (string, string) -> Option<bool>,
    parseInt: string -> Option<int>
  )

  /** Numbers with their type forgotten: Python holds True == 1 and False == 0, at any depth. */
  function Norm(v: Json): Json {
    match v
    case Bool(b) => Int(if b then 1 else 0)
    case Arr(items) => Arr(seq(|items|, i requires 0 <= i < |items| => Norm(items[i])))
    case Obj(m) => Obj(map k | k in m :: Norm(m[k]))
    case _ => v
  }

  /** Python's `a == b`. */
  predicate PyEq(a: Json, b: Json) {
    Norm(a) == Norm(b)
  }

  /** A value that is neither a dict nor a list. */
  predicate Scalar(v: Json) {
    !v.Arr? && !v.Obj?
  }

  predicate Number(v: Json) {
    v.Bool? || v.Int?
  }

  function NumberOf(v: Json): int
    requires Number(v)
  {
    if v.Int? then v.n else if v.b then 1 else 0
  }

  /** Python's `a < b`; None stands for a TypeError. */
  function Less(a: Json, b: Json): Option<bool> {
    if Number(a) && Number(b) then Some(NumberOf(a) < NumberOf(b))
    else if a.Str? && b.Str? then Some(LexLess(a.s, b.s))
    else if a.Arr? && b.Arr? then LessItems(a.items, b.items)
    else None
  }

  /** Lists compare at the first position where they differ, else by length. */
  function LessItems(a: seq<Json>, b: seq<Json>): Option<bool> {
    if a == [] || b == [] then Some(|a| < |b|)
    else if PyEq(a[0], b[0]) then LessItems(a[1..], b[1..])
    else Less(a[0], b[0])
  }

  /** `str(v)`. */
  function StrOf(py: Python, v: Json): string {
    match v
    case Null => "None"
    case Bool(b) => if b then "True" else "False"
    case Int(n) => Decimal(n)
    case Str(s) => s
    case _ => py.repr(v)
  }

  /** `bool(v)`. */
  predicate Truthy(v: Json) {
    match v
    case Null => false
    case Bool(b) => b
    case Int(n) => n != 0
    case Str(s) => s != ""
    case Arr(items) => items != []
    case Obj(m) => m != map[]
  }

  datatype Cast = Cast(value: int) | ValueError | TypeError

  /** `int(v)`. */
  function IntOf(py: Python, v: Json): Cast {
    match v
    case Bool(b) => Cast(if b then 1 else 0)
    case Int(n) => Cast(n)
    case Str(s) => (match py.parseInt(s) case Some(n) => Cast(n) case None => ValueError)
    case _ => TypeError
  }

  /** `dict(v)`. */
  function DictOf(v: Json): Option<Document> {
    match v
    case Obj(m) => Some(m)
    case Arr(items) => if items == [] then Some(map[]) else None
    case Str(s) => if s == "" then Some(map[]) else None
    case _ => None
  }

  /** `needle in haystack` for strings. */
  predicate Substring(needle: string, haystack: string) {
    exists i | 0 <= i <= |haystack| :: needle <= haystack[i..]
  }

  /** Some item of the list is `==` to v. */
  predicate Member(v: Json, items: seq<Json>) {
    exists i | 0 <= i < |items| :: PyEq(items[i], v)
  }

  // ---------- what equality and order mean ----------

  /** Equal are numbers of the same value, whatever their type, equal strings, null and null, lists of equal items in
      order, and dicts of equal values under the same keys. */
  lemma {:induction false} PyEqMeans(a: Json, b: Json)
    ensures PyEq(a, b) <==>
      || (Number(a) && Number(b) && NumberOf(a) == NumberOf(b))
      || (a.Str? && b.Str? && a.s == b.s)
      || (a.Null? && b.Null?)
      || (a.Arr? && b.Arr? && |a.items| == |b.items| && forall i | 0 <= i < |a.items| :: PyEq(a.items[i], b.items[i]))
      || (a.Obj? && b.Obj? && a.fields.Keys == b.fields.Keys
          && forall k | k in a.fields :: PyEq(a.fields[k], b.fields[k]))
  {
    if a.Arr? && b.Arr? {
      var x, y := Norm(a).items, Norm(b).items;
      assert forall i | 0 <= i < |x| :: x[i] == Norm(a.items[i]);
      assert forall i | 0 <= i < |y| :: y[i] == Norm(b.items[i]);
      assert x == y <==> |x| == |y| && forall i | 0 <= i < |x| :: x[i] == y[i];
    } else if a.Obj? && b.Obj? {
      var x, y := Norm(a).fields, Norm(b).fields;
      assert x.Keys == a.fields.Keys && y.Keys == b.fields.Keys;
      assert x == y <==> x.Keys == y.Keys && forall k | k in x :: x[k] == y[k];
    }
  }

  /** `<` compares numbers with numbers, strings with strings and lists with lists only. */
  lemma {:induction false} LessMeans(a: Json, b: Json)
    ensures Number(a) && Number(b) ==> Less(a, b) == Some(NumberOf(a) < NumberOf(b))
    ensures a.Str? && b.Str? ==> Less(a, b).Some? && Less(a, b).value == (a.s != b.s && LexLeq(a.s, b.s))
    ensures Less(a, b).Some? ==> (Number(a) && Number(b)) || (a.Str? && b.Str?) || (a.Arr? && b.Arr?)
    ensures forall n :: NumberOf(Int(n)) == n
    ensures NumberOf(Bool(true)) == 1 && NumberOf(Bool(false)) == 0
  {}
}
