/** Python's `sorted` with a comparator, as the one result every stable sorting algorithm gives. */
module StableSort {

  /** A comparator that is a total preorder on the elements of xs. */
  ghost predicate Consistent<T(!new)>(c: (T, T) -> int, xs: seq<T>) {
    (forall x, y | x in xs && y in xs :: Opposite(c, x, y))
    && (forall x, y, z | x in xs && y in xs && z in xs :: Chained(c, x, y, z))
  }

  predicate Opposite<T>(c: (T, T) -> int, x: T, y: T) {
    -1 <= c(x, y) <= 1 && c(y, x) == -c(x, y)
  }

  predicate Chained<T>(c: (T, T) -> int, x: T, y: T, z: T) {
    c(x, y) <= 0 && c(y, z) <= 0 ==> c(x, z) <= 0
  }

  predicate Sorted<T>(c: (T, T) -> int, xs: seq<T>) {
    forall i, j | 0 <= i < j < |xs| :: c(xs[i], xs[j]) <= 0
  }

  /** The elements that compare equal to x, in their order. */
  function Class<T>(c: (T, T) -> int, x: T, xs: seq<T>): seq<T> {
    if xs == [] then [] else (if c(x, xs[0]) == 0 then [xs[0]] else []) + Class(c, x, xs[1..])
  }

  /** ys is a sorted arrangement of xs in which equal elements keep their order. */
  ghost predicate StablySorted<T(!new)>(c: (T, T) -> int, xs: seq<T>, ys: seq<T>) {
    Sorted(c, ys) && multiset(ys) == multiset(xs)
    && forall x | x in xs :: Class(c, x, ys) == Class(c, x, xs)
  }

  // ---------- existence ----------

  function Insert<T>(c: (T, T) -> int, x: T, ys: seq<T>): seq<T> {
    if ys == [] || c(x, ys[0]) <= 0 then [x] + ys else [ys[0]] + Insert(c, x, ys[1..])
  }

  function SortBy<T>(c: (T, T) -> int, xs: seq<T>): seq<T> {
    if xs == [] then [] else Insert(c, xs[0], SortBy(c, xs[1..]))
  }

  lemma {:induction false} InsertElements<T(!new)>(c: (T, T) -> int, x: T, ys: seq<T>)
    ensures multiset(Insert(c, x, ys)) == multiset{x} + multiset(ys)
  {
    if !(ys == [] || c(x, ys[0]) <= 0) {
      assert ys == [ys[0]] + ys[1..];
      InsertElements(c, x, ys[1..]);
    }
  }

  lemma {:induction false} SortElements<T(!new)>(c: (T, T) -> int, xs: seq<T>)
    ensures multiset(SortBy(c, xs)) == multiset(xs)
  {
    if xs != [] {
      assert xs == [xs[0]] + xs[1..];
      SortElements(c, xs[1..]);
      InsertElements(c, xs[0], SortBy(c, xs[1..]));
    }
  }

  lemma SameMembers<T>(xs: seq<T>, ys: seq<T>)
    requires multiset(xs) == multiset(ys)
    ensures forall x :: x in xs <==> x in ys
  {
    assert forall x :: x in xs <==> x in multiset(xs);
  }

  lemma {:induction false} InsertSorted<T(!new)>(c: (T, T) -> int, x: T, ys: seq<T>)
    requires Consistent(c, [x] + ys) && Sorted(c, ys)
    ensures Sorted(c, Insert(c, x, ys))
  {
    if ys == [] {
    } else if c(x, ys[0]) <= 0 {
      forall j | 0 <= j < |ys| ensures c(x, ys[j]) <= 0 {
        assert Chained(c, x, ys[0], ys[j]);
        assert Opposite(c, ys[0], ys[0]);
      }
    } else {
      SubConsistent(c, [x] + ys, [x] + ys[1..]);
      InsertSorted(c, x, ys[1..]);
      InsertElements(c, x, ys[1..]);
      var zs := Insert(c, x, ys[1..]);
      forall z | z in zs ensures c(ys[0], z) <= 0 {
        assert z in multiset(zs);
        assert Opposite(c, x, ys[0]);
        if z != x { assert z in ys[1..]; }
      }
    }
  }

  lemma SubConsistent<T(!new)>(c: (T, T) -> int, xs: seq<T>, ys: seq<T>)
    requires Consistent(c, xs) && forall y | y in ys :: y in xs
    ensures Consistent(c, ys)
  {}

  lemma {:induction false} ClassAppend<T(!new)>(c: (T, T) -> int, x: T, a: seq<T>, b: seq<T>)
    ensures Class(c, x, a + b) == Class(c, x, a) + Class(c, x, b)
  {
    if a == [] {
      assert a + b == b;
    } else {
      ClassAppend(c, x, a[1..], b);
      assert (a + b)[1..] == a[1..] + b && (a + b)[0] == a[0];
      var p: seq<T> := if c(x, a[0]) == 0 then [a[0]] else [];
      var q, r := Class(c, x, a[1..]), Class(c, x, b);
      assert p + (q + r) == p + q + r;
    }
  }

  lemma ClassCons<T>(c: (T, T) -> int, w: T, x: T, xs: seq<T>)
    ensures Class(c, w, [x] + xs) == (if c(w, x) == 0 then [x] else []) + Class(c, w, xs)
  {
    assert ([x] + xs)[1..] == xs;
  }

  lemma NotBothEqual<T(!new)>(c: (T, T) -> int, all: seq<T>, w: T, x: T, y: T)
    requires Consistent(c, all) && w in all && x in all && y in all && c(x, y) > 0
    ensures c(w, x) != 0 || c(w, y) != 0
  {
    assert Opposite(c, w, x) && Chained(c, x, w, y);
  }

  /** Inserting in front of equal elements keeps every class in order. */
  lemma {:induction false} InsertClass<T(!new)>(c: (T, T) -> int, all: seq<T>, w: T, x: T, ys: seq<T>)
    requires Consistent(c, all) && w in all && x in all && forall y | y in ys :: y in all
    ensures Class(c, w, Insert(c, x, ys)) == Class(c, w, [x] + ys)
  {
    if !(ys == [] || c(x, ys[0]) <= 0) {
      var y, rest := ys[0], ys[1..];
      NotBothEqual(c, all, w, x, y);
      assert ys == [y] + rest;
      assert Insert(c, x, ys) == [y] + Insert(c, x, rest);
      hide Class, Consistent, Insert;
      InsertClass(c, all, w, x, rest);
      ClassCons(c, w, y, Insert(c, x, rest));
      ClassCons(c, w, x, rest);
      ClassCons(c, w, y, rest);
      ClassCons(c, w, x, ys);
      var p: seq<T> := if c(w, y) == 0 then [y] else [];
      var q: seq<T> := if c(w, x) == 0 then [x] else [];
      SwapParts(p, q, Class(c, w, rest));
    }
  }

  lemma SwapParts<T>(p: seq<T>, q: seq<T>, r: seq<T>)
    requires p == [] || q == []
    ensures p + (q + r) == q + (p + r)
  {
    if p == [] {
      assert p + (q + r) == q + r && p + r == r;
    } else {
      assert q + (p + r) == p + r && q + r == r;
    }
  }

  lemma {:induction false} SortClass<T(!new)>(c: (T, T) -> int, all: seq<T>, w: T, xs: seq<T>)
    requires Consistent(c, all) && w in all && forall x | x in xs :: x in all
    ensures Class(c, w, SortBy(c, xs)) == Class(c, w, xs)
  {
    if xs != [] {
      hide Class, Consistent;
      var ys := SortBy(c, xs[1..]);
      SortClass(c, all, w, xs[1..]);
      SortElements(c, xs[1..]);
      SameMembers(ys, xs[1..]);
      InsertClass(c, all, w, xs[0], ys);
      ClassCons(c, w, xs[0], ys);
      ClassCons(c, w, xs[0], xs[1..]);
      assert xs == [xs[0]] + xs[1..];
    }
  }

  lemma {:induction false} SortSorted<T(!new)>(c: (T, T) -> int, xs: seq<T>)
    requires Consistent(c, xs)
    ensures Sorted(c, SortBy(c, xs))
  {
    if xs != [] {
      var ys := SortBy(c, xs[1..]);
      SubConsistent(c, xs, xs[1..]);
      SortSorted(c, xs[1..]);
      SortElements(c, xs[1..]);
      SameMembers(ys, xs[1..]);
      SubConsistent(c, xs, [xs[0]] + ys);
      InsertSorted(c, xs[0], ys);
    }
  }

  lemma SortIsStable<T(!new)>(c: (T, T) -> int, xs: seq<T>)
    requires Consistent(c, xs)
    ensures StablySorted(c, xs, SortBy(c, xs))
  {
    SortSorted(c, xs);
    SortElements(c, xs);
    forall x | x in xs ensures Class(c, x, SortBy(c, xs)) == Class(c, x, xs) {
      SortClass(c, xs, x, xs);
    }
  }

  // ---------- uniqueness ----------

  lemma {:induction false} ClassMembers<T(!new)>(c: (T, T) -> int, x: T, xs: seq<T>)
    ensures forall y :: y in Class(c, x, xs) <==> y in xs && c(x, y) == 0
  {
    if xs != [] {
      ClassMembers(c, x, xs[1..]);
      assert forall y :: y in xs <==> y == xs[0] || y in xs[1..];
    }
  }

  lemma OwnClass<T(!new)>(c: (T, T) -> int, all: seq<T>, x: T, xs: seq<T>)
    requires Consistent(c, all) && x in all && x in xs
    ensures Class(c, x, xs) != []
  {
    ClassMembers(c, x, xs);
    assert Opposite(c, x, x);
    assert x in Class(c, x, xs);
  }

  /** Sorted sequences with the same classes are equal. */
  lemma {:induction false} SortedUnique<T(!new)>(c: (T, T) -> int, xs: seq<T>, ys: seq<T>)
    requires Consistent(c, xs + ys) && Sorted(c, xs) && Sorted(c, ys)
    requires forall x | x in xs || x in ys :: Class(c, x, xs) == Class(c, x, ys)
    ensures xs == ys
    decreases |xs|
  {
    if xs == [] || ys == [] {
      if ys != [] { OwnClass(c, xs + ys, ys[0], ys); }
      if xs != [] { OwnClass(c, xs + ys, xs[0], xs); }
    } else {
      SameHead(c, xs, ys);
      var x := xs[0];
      forall w | w in xs[1..] || w in ys[1..] ensures Class(c, w, xs[1..]) == Class(c, w, ys[1..]) {
        assert w in xs || w in ys;
        assert Class(c, w, xs) == Class(c, w, ys);
        ClassTail(c, w, xs);
        ClassTail(c, w, ys);
      }
      SubConsistent(c, xs + ys, xs[1..] + ys[1..]);
      SortedUnique(c, xs[1..], ys[1..]);
      assert xs == [x] + xs[1..] && ys == [x] + ys[1..];
    }
  }

  lemma ClassTail<T>(c: (T, T) -> int, w: T, xs: seq<T>)
    requires xs != []
    ensures Class(c, w, xs[1..]) == if c(w, xs[0]) == 0 then Class(c, w, xs)[1..] else Class(c, w, xs)
  {}

  lemma SameHead<T(!new)>(c: (T, T) -> int, xs: seq<T>, ys: seq<T>)
    requires Consistent(c, xs + ys) && Sorted(c, xs) && Sorted(c, ys) && xs != [] && ys != []
    requires forall x | x in xs || x in ys :: Class(c, x, xs) == Class(c, x, ys)
    ensures xs[0] == ys[0]
  {
    var x, y := xs[0], ys[0];
    assert x in xs && y in ys;
    assert x in xs + ys && y in xs + ys;
    assert Opposite(c, x, x) && Opposite(c, y, y) && Opposite(c, x, y);
    ClassMembers(c, x, xs);
    ClassMembers(c, x, ys);
    ClassMembers(c, y, xs);
    ClassMembers(c, y, ys);
    assert x in ys && y in xs;
    assert c(x, y) <= 0 && c(y, x) <= 0;
    assert Class(c, x, xs)[0] == x;
    assert Class(c, x, ys)[0] == y;
  }

  /** There is exactly one stably sorted arrangement. */
  lemma StableSortUnique<T(!new)>(c: (T, T) -> int, xs: seq<T>, ys: seq<T>)
    requires Consistent(c, xs) && StablySorted(c, xs, ys)
    ensures ys == SortBy(c, xs)
  {
    SortIsStable(c, xs);
    var zs := SortBy(c, xs);
    SameMembers(ys, xs);
    SameMembers(zs, xs);
    SubConsistent(c, xs, ys + zs);
    forall x | x in ys || x in zs ensures Class(c, x, ys) == Class(c, x, zs) {
      assert x in xs;
    }
    SortedUnique(c, ys, zs);
  }

  // ---------- several keys ----------

  /** Compare by c, and by d where c finds no difference. */
  function Lex<T>(c: (T, T) -> int, d: (T, T) -> int): (T, T) -> int {
    (x, y) => if c(x, y) != 0 then c(x, y) else d(x, y)
  }

  lemma LexChained<T(!new)>(c: (T, T) -> int, d: (T, T) -> int, xs: seq<T>, x: T, y: T, z: T)
    requires Consistent(c, xs) && Consistent(d, xs) && x in xs && y in xs && z in xs
    ensures Chained(Lex(c, d), x, y, z)
  {
    assert Opposite(c, x, y) && Opposite(c, y, z) && Opposite(c, x, z);
    assert Chained(c, x, y, z) && Chained(c, z, x, y) && Chained(c, y, z, x);
    assert Chained(d, x, y, z);
  }

  lemma LexConsistent<T(!new)>(c: (T, T) -> int, d: (T, T) -> int, xs: seq<T>)
    requires Consistent(c, xs) && Consistent(d, xs)
    ensures Consistent(Lex(c, d), xs)
  {
    forall x, y | x in xs && y in xs ensures Opposite(Lex(c, d), x, y) {
      assert Opposite(c, x, y) && Opposite(d, x, y);
    }
    forall x, y, z | x in xs && y in xs && z in xs ensures Chained(Lex(c, d), x, y, z) {
      LexChained(c, d, xs, x, y, z);
    }
  }

  // ---------- when comparing by two keys is a total preorder ----------

  /** Comparing equal is an equivalence. */
  predicate Equates<T>(c: (T, T) -> int, x: T, y: T, z: T) {
    c(x, x) == 0 && (c(x, y) == 0 <==> c(y, x) == 0) && (c(x, y) == 0 && c(y, z) == 0 ==> c(x, z) == 0)
  }

  ghost predicate EqualityOk<T(!new)>(c: (T, T) -> int, xs: seq<T>) {
    forall x, y, z | x in xs && y in xs && z in xs :: Equates(c, x, y, z)
  }

  predicate StrictlyChained<T>(c: (T, T) -> int, x: T, y: T, z: T) {
    c(x, y) < 0 && c(y, z) < 0 ==> c(x, z) <= 0
  }

  /** x and y compare equal, yet z comes after x and before y; then the next key must put x before y. */
  predicate Straddled<T>(c: (T, T) -> int, d: (T, T) -> int, x: T, y: T, z: T) {
    c(x, y) == 0 && c(x, z) < 0 && c(z, y) < 0 ==> d(x, y) < 0
  }

  /** What makes c, and d where c finds no difference, a total preorder: c tells unequal elements apart and
      orders them, d decides where another element comes between equal ones, and
      orders each class of equal elements. */
  ghost predicate Lexical<T(!new)>(c: (T, T) -> int, d: (T, T) -> int, xs: seq<T>) {
    (forall x, y | x in xs && y in xs :: Opposite(c, x, y))
    && (forall x, y, z | x in xs && y in xs && z in xs :: StrictlyChained(c, x, y, z))
    && (forall x, y, z | x in xs && y in xs && z in xs :: Straddled(c, d, x, y, z))
    && (forall x | x in xs :: Consistent(d, Class(c, x, xs)))
  }

  lemma LexicalChained<T(!new)>(c: (T, T) -> int, d: (T, T) -> int, xs: seq<T>, x: T, y: T, z: T)
    requires EqualityOk(c, xs) && Lexical(c, d, xs) && x in xs && y in xs && z in xs
    ensures Opposite(Lex(c, d), x, y) && Chained(Lex(c, d), x, y, z)
  {
    assert Equates(c, x, y, z) && Equates(c, y, z, x) && Equates(c, x, z, y);
    assert Equates(c, y, x, z) && Equates(c, z, y, x);
    assert Opposite(c, x, y) && Opposite(c, y, z) && Opposite(c, x, z);
    assert StrictlyChained(c, x, y, z);
    assert Straddled(c, d, x, z, y) && Straddled(c, d, y, x, z) && Straddled(c, d, z, y, x);
    if c(x, y) == 0 { InClass(c, d, xs, x, y); }
    if c(y, z) == 0 { InClass(c, d, xs, y, z); }
    ClassMembers(c, x, xs);
    if c(x, y) == 0 && c(y, z) == 0 { assert Chained(d, x, y, z); }
  }

  /** Elements that compare equal are compared by d as d compares their class. */
  lemma InClass<T(!new)>(c: (T, T) -> int, d: (T, T) -> int, xs: seq<T>, x: T, y: T)
    requires EqualityOk(c, xs) && Lexical(c, d, xs) && x in xs && y in xs && c(x, y) == 0
    ensures Opposite(d, x, y)
  {
    ClassMembers(c, x, xs);
    assert Equates(c, x, x, x);
  }

  lemma LexicalFrom<T(!new)>(c: (T, T) -> int, d: (T, T) -> int, xs: seq<T>)
    requires EqualityOk(c, xs) && Consistent(Lex(c, d), xs)
    ensures Lexical(c, d, xs)
  {
    var l := Lex(c, d);
    forall x, y | x in xs && y in xs ensures Opposite(c, x, y) {
      assert Opposite(l, x, y) && Equates(c, x, y, x);
    }
    forall x, y, z | x in xs && y in xs && z in xs ensures StrictlyChained(c, x, y, z) && Straddled(c, d, x, y, z) {
      assert Chained(l, x, y, z) && Chained(l, x, z, y) && Chained(l, y, x, z);
      assert Opposite(l, x, y) && Opposite(l, y, z) && Opposite(c, y, z) && Equates(c, x, y, z);
    }
    forall w | w in xs ensures Consistent(d, Class(c, w, xs)) {
      ClassFrom(c, d, xs, w);
    }
  }

  lemma ClassFrom<T(!new)>(c: (T, T) -> int, d: (T, T) -> int, xs: seq<T>, w: T)
    requires EqualityOk(c, xs) && Consistent(Lex(c, d), xs) && w in xs
    ensures Consistent(d, Class(c, w, xs))
  {
    var l, ys := Lex(c, d), Class(c, w, xs);
    ClassMembers(c, w, xs);
    forall x, y | x in ys && y in ys ensures c(x, y) == 0 {
      assert Equates(c, w, x, y) && Equates(c, x, w, y);
    }
    forall x, y | x in ys && y in ys ensures Opposite(d, x, y) { assert Opposite(l, x, y); }
    forall x, y, z | x in ys && y in ys && z in ys ensures Chained(d, x, y, z) { assert Chained(l, x, y, z); }
  }

  /** Comparing by c, and by d where c finds no difference, is a total preorder exactly when that holds. */
  lemma LexConsistentIff<T(!new)>(c: (T, T) -> int, d: (T, T) -> int, xs: seq<T>)
    requires EqualityOk(c, xs)
    ensures Consistent(Lex(c, d), xs) <==> Lexical(c, d, xs)
  {
    if Consistent(Lex(c, d), xs) { LexicalFrom(c, d, xs); }
    if Lexical(c, d, xs) {
      forall x, y, z | x in xs && y in xs && z in xs ensures Opposite(Lex(c, d), x, y) && Chained(Lex(c, d), x, y, z) {
        LexicalChained(c, d, xs, x, y, z);
      }
    }
  }

  /** The lexicographic class is the d-class of the c-class. */
  lemma {:induction false} ClassOfClass<T(!new)>(c: (T, T) -> int, d: (T, T) -> int, x: T, xs: seq<T>)
    ensures Class(Lex(c, d), x, xs) == Class(d, x, Class(c, x, xs))
    ensures Class(Lex(c, d), x, xs) == Class(c, x, Class(d, x, xs))
  {
    if xs != [] {
      ClassOfClass(c, d, x, xs[1..]);
      var head := if c(x, xs[0]) == 0 then [xs[0]] else [];
      var head' := if d(x, xs[0]) == 0 then [xs[0]] else [];
      ClassAppend(d, x, head, Class(c, x, xs[1..]));
      ClassAppend(c, x, head', Class(d, x, xs[1..]));
      ClassOne(c, x, xs[0]);
      ClassOne(d, x, xs[0]);
    }
  }

  lemma ClassOne<T>(c: (T, T) -> int, x: T, y: T)
    ensures Class(c, x, [y]) == if c(x, y) == 0 then [y] else []
  {
    assert [y][1..] == [];
    assert Class(c, x, []) == [];
  }

  lemma {:induction false} ClassSorted<T(!new)>(c: (T, T) -> int, d: (T, T) -> int, x: T, xs: seq<T>)
    requires Sorted(d, xs)
    ensures Sorted(d, Class(c, x, xs))
  {
    if xs != [] {
      ClassSorted(c, d, x, xs[1..]);
      ClassMembers(c, x, xs[1..]);
      var tail := Class(c, x, xs[1..]);
      forall j | 0 <= j < |tail| ensures d(xs[0], tail[j]) <= 0 {
        assert tail[j] in tail;
      }
    }
  }

  /** Elements in one class appear in it in the order they have in the whole. */
  lemma {:induction false} ClassOrder<T(!new)>(c: (T, T) -> int, d: (T, T) -> int, x: T, xs: seq<T>, i: nat, j: nat)
    requires i < j < |xs| && c(x, xs[i]) == 0 && c(x, xs[j]) == 0
    requires Sorted(d, Class(c, x, xs))
    ensures d(xs[i], xs[j]) <= 0
    decreases |xs|
  {
    if i == 0 {
      ClassMembers(c, x, xs[1..]);
      assert xs[j] == xs[1..][j - 1];
      var k :| 0 <= k < |Class(c, x, xs[1..])| && Class(c, x, xs[1..])[k] == xs[j];
      assert Class(c, x, xs)[0] == xs[0] && Class(c, x, xs)[k + 1] == xs[j];
    } else {
      assert Sorted(d, Class(c, x, xs[1..])) by {
        var whole, tail := Class(c, x, xs), Class(c, x, xs[1..]);
        var shift := |whole| - |tail|;
        assert forall k | 0 <= k < |tail| :: tail[k] == whole[k + shift];
      }
      ClassOrder(c, d, x, xs[1..], i - 1, j - 1);
    }
  }

  /** Sorting by the second key and then stably by the first is sorting by both. */
  lemma SortTwice<T(!new)>(c: (T, T) -> int, d: (T, T) -> int, xs: seq<T>)
    requires Consistent(c, xs) && Consistent(d, xs)
    ensures SortBy(Lex(c, d), xs) == SortBy(c, SortBy(d, xs))
  {
    var ys := SortBy(d, xs);
    var zs := SortBy(c, ys);
    SortIsStable(d, xs);
    SameMembers(ys, xs);
    SubConsistent(c, xs, ys);
    SortIsStable(c, ys);
    SameMembers(zs, ys);
    LexConsistent(c, d, xs);
    forall x | x in xs ensures Class(Lex(c, d), x, zs) == Class(Lex(c, d), x, xs) {
      ClassOfClass(c, d, x, zs);
      ClassOfClass(c, d, x, ys);
      ClassOfClass(c, d, x, xs);
    }
    forall i, j | 0 <= i < j < |zs| ensures Lex(c, d)(zs[i], zs[j]) <= 0 {
      SortTwiceOrder(c, d, xs, ys, zs, i, j);
    }
    StableSortUnique(Lex(c, d), xs, zs);
  }

  lemma SortTwiceOrder<T(!new)>(c: (T, T) -> int, d: (T, T) -> int, xs: seq<T>, ys: seq<T>, zs: seq<T>, i: nat, j: nat)
    requires Consistent(c, xs) && Consistent(d, xs)
    requires StablySorted(d, xs, ys) && StablySorted(c, ys, zs) && i < j < |zs|
    ensures Lex(c, d)(zs[i], zs[j]) <= 0
  {
    assert c(zs[i], zs[j]) <= 0;
    if c(zs[i], zs[j]) == 0 {
      var x := zs[i];
      SameMembers(zs, ys);
      SameMembers(ys, xs);
      assert x in zs && x in ys && x in xs;
      assert Opposite(c, x, x);
      assert Class(c, x, zs) == Class(c, x, ys);
      ClassSorted(c, d, x, ys);
      ClassOrder(c, d, x, zs, i, j);
    }
  }
}
