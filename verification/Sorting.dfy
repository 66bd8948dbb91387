/** Sorting documents by several fields. */
module Sorting {
  import opened Text
  import opened Values
  import opened Paths
  import opened StableSort

  type SortKey = (string, string) // field, direction

  function LowerChar(c: char): char {
    if 'A' <= c <= 'Z' then 'a' + (c - 'A') else c
  }

  function Lower(s: string): string {
    if s == "" then "" else [LowerChar(s[0])] + Lower(s[1..])
  }

  predicate Descending(direction: string) {
    Lower(direction) == "desc"
  }

  /** Missing values come last; values `<` cannot compare are compared as strings. */
  function CompareValues(py: Python, a: Option<Json>, b: Option<Json>): int {
    if a.Some? != b.Some? then (if a.None? then 1 else -1)
    else if a.None? || PyEq(a.value, b.value) then 0
    else match Less(a.value, b.value)
      case Some(less) => if less then -1 else 1
      case None => if LexLess(StrOf(py, a.value), StrOf(py, b.value)) then -1 else 1
  }

  /** One key's comparison of two documents. */
  function CompareKey(py: Python, key: SortKey): (Document, Document) -> int {
    (x: Document, y: Document) =>
      var outcome := CompareValues(py, GetPath(x, key.0), GetPath(y, key.0));
      if Descending(key.1) then -outcome else outcome
  }

  /** All keys' comparison: the first that finds a difference decides. */
  function Comparator(py: Python, sort: seq<SortKey>): (Document, Document) -> int {
    if sort == [] then (x: Document, y: Document) => 0
    else Lex(CompareKey(py, sort[0]), Comparator(py, sort[1..]))
  }

  /** The comparator as it runs: a loop that returns at the first difference. */
  method Compare(py: Python, sort: seq<SortKey>, left: Document, right: Document) returns (r: int)
    ensures r == Comparator(py, sort)(left, right)
  {
    var i := 0;
    while i < |sort|
      invariant 0 <= i <= |sort|
      invariant Comparator(py, sort)(left, right) == Comparator(py, sort[i..])(left, right)
    {
      hide CompareValues;
      assert sort[i..][1..] == sort[i + 1..];
      var (field, direction) := sort[i];
      var outcome := CompareValues(py, GetPath(left, field), GetPath(right, field));
      if outcome != 0 {
        return if Lower(direction) != "desc" then outcome else -outcome;
      }
      i := i + 1;
    }
    return 0;
  }

  /** `sort_documents`: `sorted` with the comparator. */
  function SortDocuments(py: Python, documents: seq<Document>, sort: seq<SortKey>): seq<Document> {
    if sort == [] then documents else SortBy(Comparator(py, sort), documents)
  }

  // ---------- comparing values ----------

  lemma {:induction false} NormIdempotent(a: Json)
    ensures Norm(Norm(a)) == Norm(a)
  {
    match a
    case Arr(items) => forall i | 0 <= i < |items|
        ensures Norm(Norm(items[i])) == Norm(items[i]) { NormIdempotent(items[i]); }
    case Obj(m) => forall k | k in m ensures Norm(Norm(m[k])) == Norm(m[k]) { NormIdempotent(m[k]); }
    case _ =>
  }

  function NormItems(items: seq<Json>): seq<Json> {
    seq(|items|, i requires 0 <= i < |items| => Norm(items[i]))
  }

  /** Comparison looks only at the normalised values. */
  lemma {:induction false} LessNorm(a: Json, b: Json)
    ensures Less(Norm(a), Norm(b)) == Less(a, b)
    decreases a, 1
  {
    if a.Arr? && b.Arr? {
      LessItemsNorm(a.items, b.items);
    }
  }

  lemma {:induction false} LessItemsNorm(a: seq<Json>, b: seq<Json>)
    ensures LessItems(NormItems(a), NormItems(b)) == LessItems(a, b)
    decreases a, 0
  {
    if a != [] && b != [] {
      NormIdempotent(a[0]);
      NormIdempotent(b[0]);
      LessNorm(a[0], b[0]);
      LessItemsNorm(a[1..], b[1..]);
      assert NormItems(a)[1..] == NormItems(a[1..]) && NormItems(b)[1..] == NormItems(b[1..]);
    }
  }

  lemma LessEqual(a: Json, a': Json, b: Json, b': Json)
    requires PyEq(a, a') && PyEq(b, b')
    ensures Less(a, b) == Less(a', b')
  {
    LessNorm(a, b);
    LessNorm(a', b');
  }

  /** Of two values that differ and compare, exactly one is less. */
  lemma {:induction false} LessOpposite(a: Json, b: Json)
    ensures Less(a, b).Some? <==> Less(b, a).Some?
    ensures Less(a, b).Some? && !PyEq(a, b) ==> Less(a, b).value == !Less(b, a).value
    ensures PyEq(a, b) && Less(a, b).Some? ==> !Less(a, b).value
    decreases a, 1
  {
    if a.Str? && b.Str? {
      LexTotal(a.s, b.s);
      if LexLeq(a.s, b.s) && LexLeq(b.s, a.s) { LexAntisymmetric(a.s, b.s); }
    } else if a.Arr? && b.Arr? {
      LessItemsOpposite(a.items, b.items);
      assert NormItems(a.items) == NormItems(b.items) <==> PyEq(a, b);
    }
  }

  lemma {:induction false} LessItemsOpposite(a: seq<Json>, b: seq<Json>)
    ensures LessItems(a, b).Some? <==> LessItems(b, a).Some?
    ensures LessItems(a, b).Some? && NormItems(a) != NormItems(b) ==> LessItems(a, b).value == !LessItems(b, a).value
    ensures LessItems(a, b).Some? && NormItems(a) == NormItems(b) ==> !LessItems(a, b).value
    decreases a, 0
  {
    if a == [] || b == [] {
      assert |NormItems(a)| == |a| && |NormItems(b)| == |b|;
    } else {
      LessOpposite(a[0], b[0]);
      LessItemsOpposite(a[1..], b[1..]);
      assert NormItems(a) == [Norm(a[0])] + NormItems(a[1..]) && NormItems(b) == [Norm(b[0])] + NormItems(b[1..]);
      assert NormItems(a)[0] == Norm(a[0]) && NormItems(b)[0] == Norm(b[0]);
      assert NormItems(a)[1..] == NormItems(a[1..]) && NormItems(b)[1..] == NormItems(b[1..]);
    }
  }

  /** Values in order compare, also lists that hold values of several types. */
  lemma {:induction false} LessTransitive(a: Json, b: Json, c: Json)
    requires Less(a, b) == Some(true) && Less(b, c) == Some(true)
    ensures Less(a, c) == Some(true)
    decreases a, 1
  {
    if a.Str? && b.Str? {
      LexTransitive(a.s, b.s, c.s);
      if a.s == c.s { LexAntisymmetric(a.s, b.s); }
    } else if a.Arr? && b.Arr? {
      LessItemsTransitive(a.items, b.items, c.items);
    }
  }

  lemma {:induction false} LessItemsTransitive(a: seq<Json>, b: seq<Json>, c: seq<Json>)
    requires LessItems(a, b) == Some(true) && LessItems(b, c) == Some(true)
    ensures LessItems(a, c) == Some(true)
    decreases a, 0
  {
    if a != [] && b != [] && c != [] {
      var x, y, z := a[0], b[0], c[0];
      LessOpposite(x, y);
      if PyEq(x, y) && PyEq(y, z) {
        LessItemsTransitive(a[1..], b[1..], c[1..]);
      } else if PyEq(x, y) {
        LessEqual(x, y, z, z);
      } else if PyEq(y, z) {
        LessEqual(x, x, y, z);
      } else if PyEq(x, z) {
        LessEqual(y, y, z, x);
      } else {
        LessTransitive(x, y, z);
      }
    }
  }

  // ---------- columns the comparator orders ----------

  /** No comparison raises a TypeError: the values are equal or comparable by `<`, or one is missing. */
  predicate ComparableValues(a: Option<Json>, b: Option<Json>) {
    a.Some? && b.Some? ==> PyEq(a.value, b.value) || Less(a.value, b.value).Some?
  }

  lemma CompareRange(py: Python, a: Option<Json>, b: Option<Json>)
    ensures -1 <= CompareValues(py, a, b) <= 1
  {}

  /** Swapping two values turns the comparison round exactly when `<` compares them or they print differently. */
  lemma OppositeIff(py: Python, a: Option<Json>, b: Option<Json>)
    ensures CompareValues(py, b, a) == -CompareValues(py, a, b)
      <==> ComparableValues(a, b) || StrOf(py, a.value) != StrOf(py, b.value)
  {
    if a.Some? && b.Some? {
      LessOpposite(a.value, b.value);
      var x, y := StrOf(py, a.value), StrOf(py, b.value);
      LexTotal(x, y);
      if LexLeq(x, y) && LexLeq(y, x) { LexAntisymmetric(x, y); }
    }
  }

  predicate ValuesTurn(py: Python, a: Option<Json>, b: Option<Json>) {
    CompareValues(py, b, a) == -CompareValues(py, a, b)
  }

  predicate ValuesStrict(py: Python, a: Option<Json>, b: Option<Json>, c: Option<Json>) {
    CompareValues(py, a, b) < 0 && CompareValues(py, b, c) < 0 ==> CompareValues(py, a, c) <= 0
  }

  lemma DirectedTurn(py: Python, key: SortKey, x: Document, y: Document)
    ensures Opposite(CompareKey(py, key), x, y) <==> ValuesTurn(py, GetPath(x, key.0), GetPath(y, key.0))
  {
    CompareRange(py, GetPath(x, key.0), GetPath(y, key.0));
    hide CompareValues;
  }

  lemma DirectedStrict(py: Python, key: SortKey, x: Document, y: Document, z: Document)
    requires ValuesTurn(py, GetPath(x, key.0), GetPath(y, key.0))
      && ValuesTurn(py, GetPath(y, key.0), GetPath(z, key.0)) && ValuesTurn(py, GetPath(x, key.0), GetPath(z, key.0))
    ensures var (a, b, c) := (GetPath(x, key.0), GetPath(y, key.0), GetPath(z, key.0));
      StrictlyChained(CompareKey(py, key), x, y, z) <==>
        if Descending(key.1) then ValuesStrict(py, c, b, a) else ValuesStrict(py, a, b, c)
  {
    hide CompareValues;
  }

  /** The values the field has in the documents. */
  function Column(documents: seq<Document>, field: string): set<Json> {
    set x | x in documents && GetPath(x, field).Some? :: GetPath(x, field).value
  }

  /** `<` compares the values, or they are equal. */
  predicate Like(a: Json, b: Json) {
    ComparableValues(Some(a), Some(b))
  }

  /** The comparison tells the values apart: by `<`, or by what they print as. */
  predicate Apart(py: Python, a: Json, b: Json) {
    Like(a, b) || StrOf(py, a) != StrOf(py, b)
  }

  /** Text compared with both x and y that comes after y comes after x. */
  predicate TextAfter(py: Python, x: Json, y: Json, z: Json) {
    !Like(x, z) && !Like(y, z) && LexLess(StrOf(py, y), StrOf(py, z)) ==> LexLess(StrOf(py, x), StrOf(py, z))
  }

  predicate Fits(py: Python, x: Json, y: Json, z: Json) {
    Less(x, y) == Some(true) ==> TextAfter(py, x, y, z)
  }

  /** No two values print alike unless `<` compares them, and no text lies between two values the wrong way round. */
  predicate Separated(py: Python, documents: seq<Document>, field: string) {
    (forall a, b | a in Column(documents, field) && b in Column(documents, field) :: Apart(py, a, b))
    && forall x, y, z |
        x in Column(documents, field) && y in Column(documents, field) && z in Column(documents, field) ::
      Fits(py, x, y, z)
  }

  lemma LikeBack(a: Json, b: Json)
    ensures Like(a, b) == Like(b, a)
  {
    LessOpposite(a, b);
  }

  /** How two values told apart compare: by `<` where that is possible, and otherwise by their text. */
  lemma ApartCompare(py: Python, a: Json, b: Json)
    requires Apart(py, a, b)
    ensures CompareValues(py, Some(a), Some(b)) < 0
      <==> if Like(a, b) then Less(a, b) == Some(true) else LexLess(StrOf(py, a), StrOf(py, b))
    ensures CompareValues(py, Some(a), Some(b)) == 0 <==> PyEq(a, b)
    ensures CompareValues(py, Some(a), Some(b)) > 0
      ==> if Like(a, b) then Less(b, a) == Some(true) else LexLess(StrOf(py, b), StrOf(py, a))
  {
    LessOpposite(a, b);
    LexTotal(StrOf(py, a), StrOf(py, b));
  }

  lemma NotBothBefore(x: string, y: string)
    requires LexLess(x, y)
    ensures !LexLess(y, x)
  {
    if LexLeq(y, x) { LexAntisymmetric(x, y); }
  }

  /** Values that are told apart and fit are strictly chained, whichever pairs of them `<` compares. */
  lemma FitsChained(py: Python, a: Json, b: Json, c: Json)
    requires Apart(py, a, b) && Apart(py, b, c) && Apart(py, a, c)
    requires Fits(py, a, b, c) && Fits(py, b, c, a) && Fits(py, c, a, b)
    ensures ValuesStrict(py, Some(a), Some(b), Some(c))
  {
    ApartCompare(py, a, b);
    ApartCompare(py, b, c);
    ApartCompare(py, a, c);
    LikeBack(a, b);
    LikeBack(b, c);
    LikeBack(a, c);
    NoCircle(py, a, b, c);
    hide CompareValues, Less, PyEq, StrOf, Fits;
  }

  /** How a value comes before another. */
  predicate Precedes(py: Python, a: Json, b: Json) {
    if Like(a, b) then Less(a, b) == Some(true) else LexLess(StrOf(py, a), StrOf(py, b))
  }

  /** Three values that fit do not precede one another in a circle. */
  lemma NoCircle(py: Python, a: Json, b: Json, c: Json)
    requires Fits(py, a, b, c) && Fits(py, b, c, a) && Fits(py, c, a, b)
    ensures !(Precedes(py, a, b) && Precedes(py, b, c) && Precedes(py, c, a))
  {
    if Precedes(py, a, b) && Precedes(py, b, c) && Precedes(py, c, a) {
      LikeBack(a, b);
      LikeBack(b, c);
      LikeBack(a, c);
      var x, y, z := StrOf(py, a), StrOf(py, b), StrOf(py, c);
      if Like(a, b) && Like(b, c) {
        LessTransitive(a, b, c);
        LessOpposite(a, c);
      } else if Like(a, b) && Like(a, c) {
        LessTransitive(c, a, b);
      } else if Like(b, c) && Like(a, c) {
        LessTransitive(b, c, a);
      } else if Like(a, b) {
        NotBothBefore(z, x);
      } else if Like(b, c) {
        NotBothBefore(x, y);
      } else if Like(a, c) {
        NotBothBefore(y, z);
      } else {
        LexTransitive(x, y, z);
        LexAntisymmetric(x, z);
      }
    }
  }

  lemma StrictFits(py: Python, x: Json, y: Json, z: Json)
    requires ValuesStrict(py, Some(x), Some(y), Some(z)) && Apart(py, x, z)
    ensures Fits(py, x, y, z)
  {
    LessOpposite(x, y);
  }

  /** One key tells unequal documents apart and orders them exactly when its column is separated. */
  lemma SeparatedIff(py: Python, documents: seq<Document>, key: SortKey)
    ensures Separated(py, documents, key.0) <==>
      (forall x, y | x in documents && y in documents :: Opposite(CompareKey(py, key), x, y))
      && forall x, y, z | x in documents && y in documents && z in documents ::
        StrictlyChained(CompareKey(py, key), x, y, z)
  {
    hide CompareKey, CompareValues, Fits, Opposite, StrictlyChained, ValuesStrict, Descending;
    AntisymmetricIff(py, documents, key);
    var f := key.0;
    if forall x, y | x in documents && y in documents :: Opposite(CompareKey(py, key), x, y) {
      forall x, y | x in documents && y in documents ensures ValuesTurn(py, GetPath(x, f), GetPath(y, f)) {
        DirectedTurn(py, key, x, y);
      }
      if Separated(py, documents, f) {
        forall x, y, z | x in documents && y in documents && z in documents
          ensures StrictlyChained(CompareKey(py, key), x, y, z)
        {
          DirectedStrict(py, key, x, y, z);
          SeparatedStrict(py, documents, f, x, y, z);
          SeparatedStrict(py, documents, f, z, y, x);
        }
      } else {
        var a, b, c :|
          a in Column(documents, f) && b in Column(documents, f) && c in Column(documents, f) && !Fits(py, a, b, c);
        var x :| x in documents && GetPath(x, f) == Some(a);
        var y :| y in documents && GetPath(y, f) == Some(b);
        var z :| z in documents && GetPath(z, f) == Some(c);
        assert Apart(py, a, c);
        if ValuesStrict(py, Some(a), Some(b), Some(c)) { StrictFits(py, a, b, c); }
        DirectedStrict(py, key, x, y, z);
        DirectedStrict(py, key, z, y, x);
      }
    }
  }

  lemma SeparatedStrict(py: Python, documents: seq<Document>, field: string, x: Document, y: Document, z: Document)
    requires Separated(py, documents, field) && x in documents && y in documents && z in documents
    ensures ValuesStrict(py, GetPath(x, field), GetPath(y, field), GetPath(z, field))
  {
    var a, b, c := GetPath(x, field), GetPath(y, field), GetPath(z, field);
    if a.Some? && b.Some? && c.Some? {
      assert a.value in Column(documents, field) && b.value in Column(documents, field)
        && c.value in Column(documents, field);
      FitsChained(py, a.value, b.value, c.value);
    }
  }

  /** On any column, two values are each other's opposite exactly when `<` compares them or they print differently. */
  lemma AntisymmetricIff(py: Python, documents: seq<Document>, key: SortKey)
    ensures (forall x, y | x in documents && y in documents :: Opposite(CompareKey(py, key), x, y))
      <==> forall a, b | a in Column(documents, key.0) && b in Column(documents, key.0) :: Apart(py, a, b)
  {
    hide CompareKey, Opposite, CompareValues, ComparableValues;
    forall x, y | x in documents && y in documents
      ensures Opposite(CompareKey(py, key), x, y) <==>
        (GetPath(x, key.0).Some? && GetPath(y, key.0).Some? ==>
          Apart(py, GetPath(x, key.0).value, GetPath(y, key.0).value))
    {
      DirectedTurn(py, key, x, y);
      OppositeIff(py, GetPath(x, key.0), GetPath(y, key.0));
      MissingLike(GetPath(x, key.0), GetPath(y, key.0));
    }
  }

  lemma MissingLike(a: Option<Json>, b: Option<Json>)
    ensures a.None? || b.None? ==> ComparableValues(a, b)
  {}

  // ---------- several keys ----------

  /** Whether the documents can be sorted by the keys: the first column is separated; where text lies between two
      equal values of it that print differently, the other keys put their documents the same way
      round; and the documents with equal values can be sorted by the other keys. */
  ghost predicate OrderedBy(py: Python, documents: seq<Document>, sort: seq<SortKey>)
    decreases |sort|
  {
    sort == [] || (
      Separated(py, documents, sort[0].0)
      && (forall x, y, z | x in documents && y in documents && z in documents ::
            Straddled(CompareKey(py, sort[0]), Comparator(py, sort[1..]), x, y, z))
      && forall x | x in documents :: OrderedBy(py, Class(CompareKey(py, sort[0]), x, documents), sort[1..]))
  }

  lemma KeyEquates(py: Python, documents: seq<Document>, key: SortKey)
    ensures EqualityOk(CompareKey(py, key), documents)
  {
    forall x, y, z | x in documents && y in documents && z in documents ensures Equates(CompareKey(py, key), x, y, z) {
      EqualValues(py, GetPath(x, key.0), GetPath(y, key.0));
      EqualValues(py, GetPath(y, key.0), GetPath(x, key.0));
      EqualValues(py, GetPath(y, key.0), GetPath(z, key.0));
      EqualValues(py, GetPath(x, key.0), GetPath(z, key.0));
      EqualValues(py, GetPath(x, key.0), GetPath(x, key.0));
      hide CompareValues, Norm;
    }
  }

  lemma EqualValues(py: Python, a: Option<Json>, b: Option<Json>)
    ensures CompareValues(py, a, b) == 0 <==> a.Some? == b.Some? && (a.Some? ==> PyEq(a.value, b.value))
  {}

  /** The comparator is a total preorder on the documents exactly when they can be sorted by the keys. */
  lemma {:induction false} ComparatorConsistentIff(py: Python, documents: seq<Document>, sort: seq<SortKey>)
    ensures Consistent(Comparator(py, sort), documents) <==> OrderedBy(py, documents, sort)
    decreases |sort|
  {
    if sort != [] {
      hide CompareKey, Separated, Opposite, StrictlyChained, Chained;
      var c, d := CompareKey(py, sort[0]), Comparator(py, sort[1..]);
      KeyEquates(py, documents, sort[0]);
      LexConsistentIff(c, d, documents);
      SeparatedIff(py, documents, sort[0]);
      forall x | x in documents
        ensures Consistent(d, Class(c, x, documents)) <==> OrderedBy(py, Class(c, x, documents), sort[1..])
      {
        ComparatorConsistentIff(py, Class(c, x, documents), sort[1..]);
      }
      hide Consistent, Straddled;
    }
  }

  // ---------- one key ----------

  /** Equal values are on the same side of every text. */
  predicate Even(py: Python, x: Json, y: Json, z: Json) {
    PyEq(x, y) ==> TextAfter(py, x, y, z)
  }

  /** A column one key puts in order. */
  predicate OrderedColumn(py: Python, documents: seq<Document>, field: string) {
    Separated(py, documents, field)
    && forall x, y, z |
        x in Column(documents, field) && y in Column(documents, field) && z in Column(documents, field) ::
      Even(py, x, y, z)
  }

  predicate Between(py: Python, a: Option<Json>, b: Option<Json>, z: Option<Json>) {
    CompareValues(py, a, b) == 0 && CompareValues(py, a, z) < 0 && CompareValues(py, z, b) < 0
  }

  lemma DirectedBetween(py: Python, key: SortKey, x: Document, y: Document, z: Document)
    requires ValuesTurn(py, GetPath(x, key.0), GetPath(y, key.0))
      && ValuesTurn(py, GetPath(y, key.0), GetPath(z, key.0)) && ValuesTurn(py, GetPath(x, key.0), GetPath(z, key.0))
    ensures var (a, b, c) := (GetPath(x, key.0), GetPath(y, key.0), GetPath(z, key.0));
      Straddled(CompareKey(py, key), Comparator(py, []), x, y, z) <==>
        if Descending(key.1) then !Between(py, b, a, c) else !Between(py, a, b, c)
  {
    hide CompareValues;
  }

  lemma EvenNotBetween(py: Python, a: Json, b: Json, z: Json)
    requires Apart(py, a, z) && Apart(py, z, b) && Apart(py, a, b) && Even(py, b, a, z)
    ensures !Between(py, Some(a), Some(b), Some(z))
  {
    ApartCompare(py, a, b);
    ApartCompare(py, a, z);
    ApartCompare(py, z, b);
    if Between(py, Some(a), Some(b), Some(z)) {
      LikeBack(b, z);
      LessEqual(a, b, z, z);
      LessEqual(z, z, a, b);
      LessOpposite(a, z);
      if LexLess(StrOf(py, z), StrOf(py, b)) { NotBothBefore(StrOf(py, z), StrOf(py, b)); }
    }
  }

  lemma BetweenNotEven(py: Python, x: Json, y: Json, z: Json)
    requires Apart(py, x, z) && Apart(py, y, z) && Apart(py, z, x) && !Even(py, x, y, z)
    ensures Between(py, Some(y), Some(x), Some(z))
  {
    ApartCompare(py, y, z);
    ApartCompare(py, z, x);
    LikeBack(x, z);
    LexTotal(StrOf(py, x), StrOf(py, z));
    hide Less;
  }

  lemma EvenIff(py: Python, documents: seq<Document>, key: SortKey)
    requires Separated(py, documents, key.0)
    ensures OrderedColumn(py, documents, key.0) <==>
      forall x, y, z | x in documents && y in documents && z in documents ::
        Straddled(CompareKey(py, key), Comparator(py, []), x, y, z)
  {
    hide CompareKey, CompareValues, Apart, Fits, Even, Straddled, Descending, Opposite, StrictlyChained;
    var f := key.0;
    SeparatedIff(py, documents, key);
    forall x, y | x in documents && y in documents ensures ValuesTurn(py, GetPath(x, f), GetPath(y, f)) {
      DirectedTurn(py, key, x, y);
    }
    if OrderedColumn(py, documents, f) {
      forall x, y, z | x in documents && y in documents && z in documents
        ensures Straddled(CompareKey(py, key), Comparator(py, []), x, y, z)
      {
        DirectedBetween(py, key, x, y, z);
        OrderedNotBetween(py, documents, f, x, y, z);
        OrderedNotBetween(py, documents, f, y, x, z);
      }
    } else {
      var a, b, c :|
        a in Column(documents, f) && b in Column(documents, f) && c in Column(documents, f) && !Even(py, a, b, c);
      var x :| x in documents && GetPath(x, f) == Some(a);
      var y :| y in documents && GetPath(y, f) == Some(b);
      var z :| z in documents && GetPath(z, f) == Some(c);
      BetweenNotEven(py, a, b, c);
      DirectedBetween(py, key, y, x, z);
      DirectedBetween(py, key, x, y, z);
    }
  }

  lemma OrderedNotBetween(py: Python, documents: seq<Document>, field: string, x: Document, y: Document, z: Document)
    requires OrderedColumn(py, documents, field) && x in documents && y in documents && z in documents
    ensures !Between(py, GetPath(x, field), GetPath(y, field), GetPath(z, field))
  {
    hide Apart, Fits, Even;
    var a, b, c := GetPath(x, field), GetPath(y, field), GetPath(z, field);
    if a.Some? && b.Some? && c.Some? {
      assert a.value in Column(documents, field) && b.value in Column(documents, field)
        && c.value in Column(documents, field);
      EvenNotBetween(py, a.value, b.value, c.value);
    }
  }

  /** One key's comparison is a total preorder, in either direction, exactly when its column is ordered. */
  lemma KeyConsistentIff(py: Python, documents: seq<Document>, key: SortKey)
    ensures Consistent(CompareKey(py, key), documents) <==> OrderedColumn(py, documents, key.0)
  {
    hide CompareKey, Separated, Straddled;
    assert [key][1..] == [];
    ComparatorConsistentIff(py, documents, [key]);
    OneKey(py, documents, key);
    if Separated(py, documents, key.0) { EvenIff(py, documents, key); }
    hide Consistent, OrderedColumn;
  }

  lemma OneKey(py: Python, documents: seq<Document>, key: SortKey)
    ensures Consistent(Comparator(py, [key]), documents) <==> Consistent(CompareKey(py, key), documents)
  {
    hide CompareKey;
    assert [key][1..] == [];
    var l, c, d := Comparator(py, [key]), CompareKey(py, key), Comparator(py, []);
    assert l == Lex(c, d) && forall x, y :: d(x, y) == 0;
    assert forall x, y :: l(x, y) == c(x, y);
    assert forall x, y :: Opposite(l, x, y) == Opposite(c, x, y);
    assert forall x, y, z :: Chained(l, x, y, z) == Chained(c, x, y, z);
    hide Opposite, Chained;
  }

  predicate AllOrdered(py: Python, documents: seq<Document>, sort: seq<SortKey>) {
    forall i | 0 <= i < |sort| :: OrderedColumn(py, documents, sort[i].0)
  }

  /** Documents all of whose columns are ordered can be sorted. */
  lemma {:induction false} AllOrderedIsOrderedBy(py: Python, documents: seq<Document>, sort: seq<SortKey>)
    requires AllOrdered(py, documents, sort)
    ensures OrderedBy(py, documents, sort) && Consistent(Comparator(py, sort), documents)
  {
    hide OrderedColumn, CompareKey, OrderedBy;
    if sort != [] {
      KeyConsistentIff(py, documents, sort[0]);
      AllOrderedIsOrderedBy(py, documents, sort[1..]);
      LexConsistent(CompareKey(py, sort[0]), Comparator(py, sort[1..]), documents);
    }
    ComparatorConsistentIff(py, documents, sort);
  }

  /** A column no two values of which raise a TypeError is ordered. */
  lemma ComparableIsOrdered(py: Python, documents: seq<Document>, field: string)
    requires forall a, b | a in Column(documents, field) && b in Column(documents, field) :: Like(a, b)
    ensures OrderedColumn(py, documents, field)
  {
    hide Column, Like;
  }

  /** Where equal values print alike, nothing lies between them: a separated column is ordered. */
  lemma EqualPrintsAreEven(py: Python, documents: seq<Document>, field: string)
    requires Separated(py, documents, field)
    requires forall a, b | a in Column(documents, field) && b in Column(documents, field) && PyEq(a, b) ::
      StrOf(py, a) == StrOf(py, b)
    ensures OrderedColumn(py, documents, field)
  {
    hide Column, Like, StrOf, Norm;
  }

  // ---------- main results ----------

  /** Documents that can be sorted by the keys come out as their one stably sorted arrangement. */
  lemma SortDocumentsStable(py: Python, documents: seq<Document>, sort: seq<SortKey>)
    requires sort != [] && OrderedBy(py, documents, sort)
    ensures StablySorted(Comparator(py, sort), documents, SortDocuments(py, documents, sort))
    ensures forall other ::
        StablySorted(Comparator(py, sort), documents, other) ==> other == SortDocuments(py, documents, sort)
  {
    ComparatorConsistentIff(py, documents, sort);
    SortIsStable(Comparator(py, sort), documents);
    forall other | StablySorted(Comparator(py, sort), documents, other)
      ensures other == SortDocuments(py, documents, sort)
    {
      StableSortUnique(Comparator(py, sort), documents, other);
    }
  }

  /** Stable sorting by the last key, then the one before, and so on to the first. */
  function OneByOne(py: Python, documents: seq<Document>, sort: seq<SortKey>): seq<Document> {
    if sort == [] then documents
    else SortBy(CompareKey(py, sort[0]), OneByOne(py, documents, sort[1..]))
  }

  lemma {:induction false} NoKeysKeepOrder(py: Python, documents: seq<Document>)
    ensures SortBy(Comparator(py, []), documents) == documents
  {
    if documents != [] {
      NoKeysKeepOrder(py, documents[1..]);
      assert documents == [documents[0]] + documents[1..];
    }
  }

  /** Sorting by several keys at once is stable sorting key by key, from the last to the first. */
  lemma {:induction false} KeyByKey(py: Python, documents: seq<Document>, sort: seq<SortKey>)
    requires AllOrdered(py, documents, sort)
    ensures SortBy(Comparator(py, sort), documents) == OneByOne(py, documents, sort)
    ensures SortDocuments(py, documents, sort) == OneByOne(py, documents, sort)
  {
    hide OrderedColumn, CompareKey;
    if sort == [] {
      NoKeysKeepOrder(py, documents);
    } else {
      KeyByKey(py, documents, sort[1..]);
      KeyConsistentIff(py, documents, sort[0]);
      AllOrderedIsOrderedBy(py, documents, sort[1..]);
      SortTwice(CompareKey(py, sort[0]), Comparator(py, sort[1..]), documents);
    }
  }

  /** Documents without the first field come last when it ascends and first when it descends. */
  lemma MissingAtTheEnd(py: Python, documents: seq<Document>, sort: seq<SortKey>, i: nat, j: nat)
    requires sort != [] && OrderedBy(py, documents, sort) && i < j < |SortDocuments(py, documents, sort)|
    ensures var r := SortDocuments(py, documents, sort);
      var (x, y) := (GetPath(r[i], sort[0].0), GetPath(r[j], sort[0].0));
      if Descending(sort[0].1) then y.None? ==> x.None? else x.None? ==> y.None?
  {
    SortDocumentsStable(py, documents, sort);
    var r := SortDocuments(py, documents, sort);
    assert Comparator(py, sort)(r[i], r[j]) <= 0;
    var c := CompareKey(py, sort[0]);
    assert c(r[i], r[j]) <= 0;
  }

  // ---------- what the order is ----------

  /** Which directions descend: "desc", in any mixture of cases. */
  lemma DescendingMeans(direction: string)
    ensures Descending(direction) <==>
      |direction| == 4 && direction[0] in "dD" && direction[1] in "eE" && direction[2] in "sS" && direction[3] in "cC"
  {
    LowerAt(direction);
    if |direction| == 4 {
      assert Lower(direction) == "desc" <==> forall i | 0 <= i < 4 :: Lower(direction)[i] == "desc"[i];
    }
  }

  lemma {:induction false} LowerAt(s: string)
    ensures |Lower(s)| == |s| && forall i | 0 <= i < |s| :: Lower(s)[i] == LowerChar(s[i])
  {
    if s != "" { LowerAt(s[1..]); }
  }

  /** a may come before b: it is not missing unless b is; `<` puts it first, or they are equal; or, where `<`
      cannot compare them, its text comes first. */
  predicate MayPrecede(py: Python, a: Option<Json>, b: Option<Json>) {
    (a.None? ==> b.None?)
    && (a.Some? && b.Some? ==>
          if Less(a.value, b.value).Some? || PyEq(a.value, b.value)
          then PyEq(a.value, b.value) || Less(a.value, b.value) == Some(true)
          else LexLeq(StrOf(py, a.value), StrOf(py, b.value)))
  }

  predicate Tied(x: Document, y: Document, field: string) {
    var a, b := GetPath(x, field), GetPath(y, field);
    a.Some? == b.Some? && (a.Some? ==> PyEq(a.value, b.value))
  }

  lemma NotAfter(py: Python, a: Option<Json>, b: Option<Json>)
    ensures CompareValues(py, a, b) <= 0 ==> MayPrecede(py, a, b)
    ensures CompareValues(py, a, b) >= 0 ==> MayPrecede(py, b, a)
  {
    if a.Some? && b.Some? {
      LessOpposite(a.value, b.value);
      LexTotal(StrOf(py, a.value), StrOf(py, b.value));
    }
  }

  lemma {:induction false} FirstDifference(py: Python, sort: seq<SortKey>, x: Document, y: Document, k: nat)
    requires k < |sort| && Comparator(py, sort)(x, y) <= 0 && forall l | 0 <= l < k :: Tied(x, y, sort[l].0)
    ensures CompareKey(py, sort[k])(x, y) <= 0
    decreases k
  {
    if k > 0 {
      EqualValues(py, GetPath(x, sort[0].0), GetPath(y, sort[0].0));
      assert Tied(x, y, sort[0].0);
      hide CompareValues, Tied;
      assert forall l | 0 <= l < k - 1 :: sort[1..][l] == sort[l + 1];
      FirstDifference(py, sort[1..], x, y, k - 1);
    }
  }

  /** In the sorted documents, two that agree on the first k keys are in order of the next one, the other way round
      for "desc". */
  lemma SortedInOrder(py: Python, documents: seq<Document>, sort: seq<SortKey>, i: nat, j: nat, k: nat)
    requires OrderedBy(py, documents, sort) && i < j < |SortDocuments(py, documents, sort)| && k < |sort|
    requires var r := SortDocuments(py, documents, sort); forall l | 0 <= l < k :: Tied(r[i], r[j], sort[l].0)
    ensures var r := SortDocuments(py, documents, sort);
      var (a, b) := (GetPath(r[i], sort[k].0), GetPath(r[j], sort[k].0));
      if Lower(sort[k].1) == "desc" then MayPrecede(py, b, a) else MayPrecede(py, a, b)
  {
    SortDocumentsStable(py, documents, sort);
    var r := SortDocuments(py, documents, sort);
    assert Comparator(py, sort)(r[i], r[j]) <= 0;
    FirstDifference(py, sort, r[i], r[j], k);
    NotAfter(py, GetPath(r[i], sort[k].0), GetPath(r[j], sort[k].0));
    hide CompareValues, MayPrecede, OrderedBy;
  }

  /** Without keys the documents stay as they are. */
  lemma UnsortedStay(py: Python, documents: seq<Document>)
    ensures SortDocuments(py, documents, []) == documents
  {}

  /** All documents have a number in the field. */
  predicate Numbers(documents: seq<Document>, field: string) {
    forall d | d in documents :: GetPath(d, field).Some? && Number(GetPath(d, field).value)
  }

  lemma NumbersOrdered(py: Python, documents: seq<Document>, key: SortKey)
    requires Numbers(documents, key.0)
    ensures OrderedBy(py, documents, [key])
    ensures var r := SortDocuments(py, documents, [key]); multiset(r) == multiset(documents) && Numbers(r, key.0)
  {
    ComparableIsOrdered(py, documents, key.0);
    AllOrderedIsOrderedBy(py, documents, [key]);
    hide OrderedBy, Comparator;
    SortDocumentsStable(py, documents, [key]);
    SameMembers(SortDocuments(py, documents, [key]), documents);
  }

  lemma NumbersInTurn(py: Python, documents: seq<Document>, key: SortKey, i: nat, j: nat)
    requires Numbers(documents, key.0) && i < j < |SortDocuments(py, documents, [key])|
    requires Numbers(SortDocuments(py, documents, [key]), key.0)
    ensures var r := SortDocuments(py, documents, [key]);
      var (m, n) := (NumberOf(GetPath(r[i], key.0).value), NumberOf(GetPath(r[j], key.0).value));
      if Lower(key.1) == "desc" then m >= n else m <= n
  {
    hide OrderedBy, SortDocuments;
    NumbersOrdered(py, documents, key);
    SortedInOrder(py, documents, [key], i, j, 0);
    var r := SortDocuments(py, documents, [key]);
    var a, b := GetPath(r[i], key.0).value, GetPath(r[j], key.0).value;
    if Lower(key.1) == "desc" { NumbersInOrder(py, b, a); } else { NumbersInOrder(py, a, b); }
  }

  /** A field of numbers sorted by "asc" does not decrease and by "desc" does not increase. */
  lemma NumbersSorted(py: Python, documents: seq<Document>, field: string)
    requires forall d | d in documents :: GetPath(d, field).Some? && Number(GetPath(d, field).value)
    ensures var up := SortDocuments(py, documents, [(field, "asc")]);
      multiset(up) == multiset(documents) && Numbers(up, field)
      && forall i, j | 0 <= i < j < |up| ::
        NumberOf(GetPath(up[i], field).value) <= NumberOf(GetPath(up[j], field).value)
    ensures var down := SortDocuments(py, documents, [(field, "desc")]);
      multiset(down) == multiset(documents) && Numbers(down, field)
      && forall i, j | 0 <= i < j < |down| ::
        NumberOf(GetPath(down[i], field).value) >= NumberOf(GetPath(down[j], field).value)
  {
    var asc, desc := (field, "asc"), (field, "desc");
    NumbersOrdered(py, documents, asc);
    NumbersOrdered(py, documents, desc);
    DescendingMeans("asc");
    DescendingMeans("desc");
    hide OrderedBy, SortDocuments, Lower;
    forall i, j | 0 <= i < j < |SortDocuments(py, documents, [asc])| {
      NumbersInTurn(py, documents, asc, i, j);
    }
    forall i, j | 0 <= i < j < |SortDocuments(py, documents, [desc])| {
      NumbersInTurn(py, documents, desc, i, j);
    }
  }

  lemma NumbersInOrder(py: Python, a: Json, b: Json)
    requires Number(a) && Number(b) && MayPrecede(py, Some(a), Some(b))
    ensures NumberOf(a) <= NumberOf(b)
  {}

  /** Values of columns that are not ordered: 9 < 10 < "1a" < 9, and 1 and "1" are each after the other. */
  lemma MixedColumnExamples(py: Python)
    ensures CompareValues(py, Some(Int(9)), Some(Int(10))) == -1
    ensures CompareValues(py, Some(Int(10)), Some(Str("1a"))) == -1
    ensures CompareValues(py, Some(Str("1a")), Some(Int(9))) == -1
    ensures CompareValues(py, Some(Int(1)), Some(Str("1"))) == 1 == CompareValues(py, Some(Str("1")), Some(Int(1)))
  {
    assert DecimalNat(9) == "9" && DecimalNat(1) == "1";
    assert DecimalNat(10) == DecimalNat(1) + ['0'] == "10";
    assert LexLeq("10", "1a") by { assert "10"[1..] == "0" && "1a"[1..] == "a"; }
    assert StrOf(py, Int(10)) == "10" && StrOf(py, Int(9)) == "9" && StrOf(py, Int(1)) == "1";
  }

  /** So are null and "None", and the booleans and their names. */
  lemma NamesTie(py: Python)
    ensures CompareValues(py, Some(Null), Some(Str("None"))) == 1 == CompareValues(py, Some(Str("None")), Some(Null))
    ensures forall b :: var s := if b then "True" else "False";
      CompareValues(py, Some(Bool(b)), Some(Str(s))) == 1 == CompareValues(py, Some(Str(s)), Some(Bool(b)))
  {
    LexTotal("None", "None");
    LexTotal("True", "True");
    LexTotal("False", "False");
  }

  /** A column of lists that `<` cannot all compare is ordered nevertheless: [], [1] and ["a"], as Python
      prints them. */
  lemma OverlappingLists(py: Python, documents: seq<Document>, field: string)
    requires Column(documents, field) == {Arr([]), Arr([Int(1)]), Arr([Str("a")])}
    requires py.repr(Arr([Int(1)])) == "[1]" && py.repr(Arr([Str("a")])) == "['a']"
    ensures OrderedColumn(py, documents, field) && !Like(Arr([Int(1)]), Arr([Str("a")]))
  {
    OverlappingLikes();
    assert "[1]"[1] != "['a']"[1];
    OneUnlikePair(py, documents, field, Arr([]), Arr([Int(1)]), Arr([Str("a")]));
  }

  lemma OneUnlikePair(py: Python, documents: seq<Document>, field: string, w: Json, u: Json, v: Json)
    requires Column(documents, field) == {w, u, v} && StrOf(py, u) != StrOf(py, v)
    requires Like(w, w) && Like(w, u) && Like(u, w) && Like(w, v) && Like(v, w) && Like(u, u) && Like(v, v)
    requires Less(u, u) != Some(true) && Less(v, v) != Some(true)
    ensures OrderedColumn(py, documents, field)
  {
    hide Like, Less, StrOf, Norm, Column;
  }

  lemma OverlappingLikes()
    ensures var (none, one, a) := (Arr([]), Arr([Int(1)]), Arr([Str("a")]));
      Like(none, none) && Like(none, one) && Like(one, none) && Like(none, a) && Like(a, none)
      && Like(one, one) && Like(a, a) && !Like(one, a) && !Like(a, one)
      && Less(one, one) == Less(a, a) == Some(false)
  {
    var none, one, a := Arr([]), Arr([Int(1)]), Arr([Str("a")]);
    assert Norm(one).items[0] == Int(1) && Norm(a).items[0] == Str("a");
    assert LessItems(one.items, a.items) == None == LessItems(a.items, one.items);
    assert [Int(1)][1..] == [] && [Str("a")][1..] == [];
    assert LessItems(one.items, one.items) == Some(false) == LessItems(a.items, a.items);
    hide Norm, LessItems;
  }
}
