/** What queries decide, construct by construct: when a document is selected, when it is not, and when evaluating
    raises. */
module QueryMeaning {
  import Text
  import opened Values
  import opened Paths
  import opened Query

  // ---------- clauses and connectives ----------

  function Verdicts(py: Python, d: Document, items: seq<Query>): seq<Verdict> {
    seq(|items|, i requires 0 <= i < |items| => Matches(py, d, items[i]))
  }

  /** The first verdict other than `go` is v. */
  predicate FirstOther(vs: seq<Verdict>, go: Verdict, v: Verdict) {
    exists i | 0 <= i < |vs| :: vs[i] == v && forall j | 0 <= j < i :: vs[j] == go
  }

  lemma FirstOtherStep(vs: seq<Verdict>, go: Verdict, v: Verdict)
    requires vs != [] && v != go
    ensures FirstOther(vs, go, v) <==> vs[0] == v || (vs[0] == go && FirstOther(vs[1..], go, v))
  {
    var rest := vs[1..];
    if i :| 0 <= i < |vs| && vs[i] == v && (forall j | 0 <= j < i :: vs[j] == go) && i > 0 {
      assert rest[i - 1] == v && forall j | 0 <= j < i - 1 :: rest[j] == vs[j + 1];
    }
    if vs[0] == go && FirstOther(rest, go, v) {
      var i :| 0 <= i < |rest| && rest[i] == v && forall j | 0 <= j < i :: rest[j] == go;
      assert vs[i + 1] == v && forall j | 0 < j < i + 1 :: vs[j] == rest[j - 1];
    }
  }

  lemma {:induction false} AllFirst(py: Python, d: Document, items: seq<Query>)
    ensures MatchesAll(py, d, items) == Yes <==> forall i | 0 <= i < |items| :: Matches(py, d, items[i]) == Yes
    ensures MatchesAll(py, d, items) == No <==> FirstOther(Verdicts(py, d, items), Yes, No)
    ensures MatchesAll(py, d, items) == Raises <==> FirstOther(Verdicts(py, d, items), Yes, Raises)
  {
    hide Matches;
    if items != [] {
      AllFirst(py, d, items[1..]);
      var vs := Verdicts(py, d, items);
      assert vs[1..] == Verdicts(py, d, items[1..]);
      FirstOtherStep(vs, Yes, No);
      FirstOtherStep(vs, Yes, Raises);
      assert forall i | 0 < i < |items| :: items[i] == items[1..][i - 1];
      hide FirstOther;
    }
  }

  lemma {:induction false} AnyFirst(py: Python, d: Document, items: seq<Query>)
    ensures MatchesAny(py, d, items) == No <==> forall i | 0 <= i < |items| :: Matches(py, d, items[i]) == No
    ensures MatchesAny(py, d, items) == Yes <==> FirstOther(Verdicts(py, d, items), No, Yes)
    ensures MatchesAny(py, d, items) == Raises <==> FirstOther(Verdicts(py, d, items), No, Raises)
  {
    hide Matches;
    if items != [] {
      AnyFirst(py, d, items[1..]);
      var vs := Verdicts(py, d, items);
      assert vs[1..] == Verdicts(py, d, items[1..]);
      FirstOtherStep(vs, No, Yes);
      FirstOtherStep(vs, No, Raises);
      assert forall i | 0 < i < |items| :: items[i] == items[1..][i - 1];
      hide FirstOther;
    }
  }

  lemma FirstMeans(py: Python, d: Document, items: seq<Query>, go: Verdict, v: Verdict)
    ensures FirstOther(Verdicts(py, d, items), go, v) <==>
      exists i | 0 <= i < |items| ::
        Matches(py, d, items[i]) == v && forall j | 0 <= j < i :: Matches(py, d, items[j]) == go
  {
    hide Matches;
    var vs, n := Verdicts(py, d, items), |items|;
    if i :| 0 <= i < n && vs[i] == v && forall j | 0 <= j < i :: vs[j] == go {
      assert forall j | 0 <= j < i :: Matches(py, d, items[j]) == vs[j];
      assert Matches(py, d, items[i]) == v;
    }
    if i :| 0 <= i < n && Matches(py, d, items[i]) == v && forall j | 0 <= j < i :: Matches(py, d, items[j]) == go {
      assert vs[i] == v && forall j | 0 <= j < i :: vs[j] == go;
    }
  }

  /** `$and` selects what every item selects; the first item that does not decides whether it fails or raises. */
  lemma AndMeans(py: Python, d: Document, items: seq<Query>)
    ensures Matches(py, d, Single(And(items))) == Yes <==>
      forall i | 0 <= i < |items| :: Matches(py, d, items[i]) == Yes
    ensures Matches(py, d, Single(And(items))) == No <==>
      exists i | 0 <= i < |items| ::
        Matches(py, d, items[i]) == No && forall j | 0 <= j < i :: Matches(py, d, items[j]) == Yes
    ensures Matches(py, d, Single(And(items))) == Raises <==>
      exists i | 0 <= i < |items| ::
        Matches(py, d, items[i]) == Raises && forall j | 0 <= j < i :: Matches(py, d, items[j]) == Yes
  {
    SingleClause(py, d, And(items));
    AllFirst(py, d, items);
    FirstMeans(py, d, items, Yes, No);
    FirstMeans(py, d, items, Yes, Raises);
    hide Matches, FirstOther;
  }

  /** `$or` rejects what every item rejects; the first item that does not decides whether it holds or raises. */
  lemma OrMeans(py: Python, d: Document, items: seq<Query>)
    ensures Matches(py, d, Single(Or(items))) == No <==>
      forall i | 0 <= i < |items| :: Matches(py, d, items[i]) == No
    ensures Matches(py, d, Single(Or(items))) == Yes <==>
      exists i | 0 <= i < |items| ::
        Matches(py, d, items[i]) == Yes && forall j | 0 <= j < i :: Matches(py, d, items[j]) == No
    ensures Matches(py, d, Single(Or(items))) == Raises <==>
      exists i | 0 <= i < |items| ::
        Matches(py, d, items[i]) == Raises && forall j | 0 <= j < i :: Matches(py, d, items[j]) == No
  {
    SingleClause(py, d, Or(items));
    AnyFirst(py, d, items);
    FirstMeans(py, d, items, No, Yes);
    FirstMeans(py, d, items, No, Raises);
    hide Matches, FirstOther;
  }

  function Singles(clauses: seq<Clause>): seq<Query> {
    seq(|clauses|, i requires 0 <= i < |clauses| => Single(clauses[i]))
  }

  /** The clauses of a query are read like the items of `$and`. */
  lemma {:induction false} ClausesMean(py: Python, d: Document, clauses: seq<Clause>)
    ensures Matches(py, d, Query(clauses)) == Yes <==>
      forall i | 0 <= i < |clauses| :: Matches(py, d, Single(clauses[i])) == Yes
    ensures Matches(py, d, Query(clauses)) == Matches(py, d, Single(And(Singles(clauses))))
    ensures Matches(py, d, NotADict) == Raises && Matches(py, d, Single(NotAList)) == No
  {
    var items := Singles(clauses);
    ClausesAreItems(py, d, clauses, items);
    AndMeans(py, d, items);
    SingleClause(py, d, And(items));
    SingleClause(py, d, NotAList);
    hide Matches;
    assert forall i | 0 <= i < |clauses| :: items[i] == Single(clauses[i]);
  }

  lemma {:induction false} ClausesAreItems(py: Python, d: Document, clauses: seq<Clause>, items: seq<Query>)
    requires |items| == |clauses| && forall i | 0 <= i < |clauses| :: items[i] == Single(clauses[i])
    ensures Matches(py, d, Query(clauses)) == MatchesAll(py, d, items)
    decreases |clauses|
  {
    if clauses != [] {
      SingleClause(py, d, clauses[0]);
      ClausesAreItems(py, d, clauses[1..], items[1..]);
      assert Matches(py, d, items[0]) == MatchesClause(py, d, clauses[0]);
      hide MatchesClause;
    }
  }

  lemma NotMeans(py: Python, d: Document, q: Query)
    ensures Matches(py, d, Single(Not(q))) == Yes <==> Matches(py, d, q) == No
    ensures Matches(py, d, Single(Not(q))) == Raises <==> Matches(py, d, q) == Raises
  {
    SingleClause(py, d, Not(q));
  }

  // ---------- operators ----------

  /** `{path: v}` and `{path: {"$eq": v}}` select the documents that have the field with an equal value, `$ne` all
      others. */
  lemma EqualityMeans(py: Python, d: Document, path: string, v: Json)
    ensures Matches(py, d, Single(Equals(path, v))) != Raises
    ensures Matches(py, d, Single(Equals(path, v))) == Yes <==>
      GetPath(d, path).Some? && PyEq(GetPath(d, path).value, v)
    ensures Test(py, d, path, "$eq", v) == Matches(py, d, Single(Equals(path, v)))
    ensures Test(py, d, path, "$ne", v) != Raises
    ensures Test(py, d, path, "$ne", v) == Yes <==> GetPath(d, path).None? || !PyEq(GetPath(d, path).value, v)
  {
    SingleClause(py, d, Equals(path, v));
    TestCompares(py, d, path, "$eq", v);
    TestCompares(py, d, path, "$ne", v);
    hide Test, Matches, Norm;
  }

  /** The number of items, characters or fields. */
  function Size(v: Json): Option<nat> {
    match v
    case Arr(items) => Some(|items|)
    case Str(s) => Some(|s|)
    case Obj(m) => Some(|m|)
    case _ => None
  }

  /** `$size` compares the size of a list, string or dict with a number; what is no number fails, unless
      it is a string that `int` rejects with a ValueError, which is raised. */
  lemma SizeOperator(py: Python, d: Document, path: string, expected: Json)
    requires GetPath(d, path).Some?
    ensures var size := Size(GetPath(d, path).value);
      (expected.Int? ==>
            Test(py, d, path, "$size", expected) == if size.Some? && size.value == expected.n then Yes else No)
      && (expected.Bool? ==>
            Test(py, d, path, "$size", expected) == if size == Some(if expected.b then 1 else 0) then Yes else No)
      && (expected.Null? || expected.Arr? || expected.Obj? ==> Test(py, d, path, "$size", expected) == No)
      && (expected.Str? ==>
            (Test(py, d, path, "$size", expected) == Raises <==> size.Some? && py.parseInt(expected.s).None?)
            && (Test(py, d, path, "$size", expected) == Yes <==>
                  size.Some? && py.parseInt(expected.s).Some? && py.parseInt(expected.s).value == size.value))
  {
    TestCompares(py, d, path, "$size", expected);
    hide Test;
  }

  /** `$regex` searches a string for the pattern; a pattern that does not compile raises. */
  lemma RegexOperator(py: Python, d: Document, path: string, pattern: string)
    requires GetPath(d, path).Some?
    ensures var a := GetPath(d, path).value;
      Test(py, d, path, "$regex", Str(pattern)) ==
        if !a.Str? then No
        else if py.search(pattern, a.s) == None then Raises
        else if py.search(pattern, a.s) == Some(true) then Yes else No
  {
    TestCompares(py, d, path, "$regex", Str(pattern));
    hide Test;
  }

  /** The text lies somewhere in the other. */
  ghost predicate Occurs(needle: string, haystack: string) {
    exists i, j | 0 <= i <= j <= |haystack| :: haystack[i..j] == needle
  }

  lemma SubstringOccurs(needle: string, haystack: string)
    ensures Substring(needle, haystack) <==> Occurs(needle, haystack)
  {
    if Substring(needle, haystack) {
      var i :| 0 <= i <= |haystack| && needle <= haystack[i..];
      assert haystack[i..i + |needle|] == needle;
    }
    if i, j :| 0 <= i <= j <= |haystack| && haystack[i..j] == needle {
      assert needle <= haystack[i..];
    }
  }

  /** `$contains`: a list has an equal item; a string has the operand's text in it; a dict has the key or an equal
      value, unless the operand cannot be a key. */
  lemma ContainsOperator(py: Python, d: Document, path: string, expected: Json)
    requires GetPath(d, path).Some?
    ensures Test(py, d, path, "$contains", expected) != Raises
    ensures Test(py, d, path, "$contains", expected) == Yes <==>
      match GetPath(d, path).value
      case Arr(items) => exists i | 0 <= i < |items| :: PyEq(items[i], expected)
      case Str(s) => Occurs(StrOf(py, expected), s)
      case Obj(m) => !expected.Arr? && !expected.Obj?
          && ((expected.Str? && expected.s in m) || exists k | k in m :: PyEq(m[k], expected))
      case _ => false
  {
    TestCompares(py, d, path, "$contains", expected);
    if GetPath(d, path).value.Str? { SubstringOccurs(StrOf(py, expected), GetPath(d, path).value.s); }
    hide Test, StrOf, Substring, Occurs, PyEq;
  }

  /** `$in` of a value that is no list: an equal item of a list, a part of a string, or a key of a dict. */
  lemma InOperator(py: Python, d: Document, path: string, expected: Json)
    requires GetPath(d, path).Some? && !GetPath(d, path).value.Arr?
    ensures Test(py, d, path, "$in", expected) != Raises
    ensures var a := GetPath(d, path).value;
      Test(py, d, path, "$in", expected) == Yes <==>
        match expected
        case Arr(items) => exists i | 0 <= i < |items| :: PyEq(items[i], a)
        case Str(s) => a.Str? && Occurs(a.s, s)
        case Obj(m) => a.Str? && a.s in m
        case _ => false
  {
    var a := GetPath(d, path).value;
    TestCompares(py, d, path, "$in", expected);
    if a.Str? && expected.Str? { SubstringOccurs(a.s, expected.s); }
    hide Test, Substring, Occurs, PyEq;
  }

  /** `$all` of a list: every item of a list, character of a string or key of a dict equals one of its items. */
  lemma AllOperator(py: Python, d: Document, path: string, expected: Json)
    requires GetPath(d, path).Some?
    ensures Test(py, d, path, "$all", expected) != Raises
    ensures var a := GetPath(d, path).value;
      Test(py, d, path, "$all", expected) == Yes <==>
        a.Arr? && match expected
        case Arr(items) => forall i | 0 <= i < |items| :: Member(items[i], a.items)
        case Str(s) => forall i | 0 <= i < |s| :: Member(Str([s[i]]), a.items)
        case Obj(m) => forall k | k in m :: Member(Str(k), a.items)
        case _ => false
  {
    var a := GetPath(d, path).value;
    TestCompares(py, d, path, "$all", expected);
    AllCompared(py, a, expected);
    if a.Arr? && Iterate(expected).Some? { AllIterated(expected, a.items); }
    hide Test, Member, Compare, PyEq;
  }

  lemma AllCompared(py: Python, a: Json, expected: Json)
    ensures Compare(py, Some(a), expected, "$all") ==
      if !a.Arr? then Holds(false)
      else if Iterate(expected).None? then Incomparable
      else Holds(forall i | 0 <= i < |Iterate(expected).value| :: Member(Iterate(expected).value[i], a.items))
  {
    hide Iterate, Member;
  }

  lemma AllIterated(expected: Json, xs: seq<Json>)
    requires Iterate(expected).Some?
    ensures (forall i | 0 <= i < |Iterate(expected).value| :: Member(Iterate(expected).value[i], xs)) <==>
      match expected
      case Arr(items) => forall i | 0 <= i < |items| :: Member(items[i], xs)
      case Str(s) => forall i | 0 <= i < |s| :: Member(Str([s[i]]), xs)
      case Obj(m) => forall k | k in m :: Member(Str(k), xs)
      case _ => false
  {
    hide Member;
    match expected
    case Str(s) =>
      var items := Iterate(expected).value;
      assert forall i | 0 <= i < |s| :: items[i] == Str([s[i]]);
      assert (forall i | 0 <= i < |items| :: Member(items[i], xs)) <==>
        forall i | 0 <= i < |s| :: Member(Str([s[i]]), xs);
    case Obj(m) =>
      KeysIterated(m, xs);
    case _ =>
  }

  lemma KeysIterated(m: Document, items: seq<Json>)
    ensures (forall i | 0 <= i < |Iterate(Obj(m)).value| :: Member(Iterate(Obj(m)).value[i], items)) <==>
      forall k | k in m :: Member(Str(k), items)
  {
    hide Member;
    var keys := Iterate(Obj(m)).value;
    assert forall i | 0 <= i < |keys| :: keys[i].Str? && keys[i].s in m;
    if forall i | 0 <= i < |keys| :: Member(keys[i], items) {
      forall k | k in m ensures Member(Str(k), items) {
        KeyIterated(m, k);
      }
    }
  }

  lemma KeyIterated(m: Document, k: string)
    requires k in m
    ensures exists i :: 0 <= i < |Iterate(Obj(m)).value| && Iterate(Obj(m)).value[i] == Str(k)
  {
    var keys := Text.SortedKeys(m.Keys);
    var i :| 0 <= i < |keys| && keys[i] == k;
    assert Iterate(Obj(m)).value[i] == Str(k);
  }

  /** A single operator raises exactly when the field is there and the operator is unknown, or `int` or
      `re.search` raises on its operand. */
  lemma OperatorRaises(py: Python, d: Document, path: string, op: string, expected: Json)
    ensures Test(py, d, path, op, expected) == Raises <==>
      GetPath(d, path).Some? && var a := GetPath(d, path).value;
        op !in {"$exists", "$eq", "$ne", "$gt", "$gte", "$lt", "$lte", "$in", "$nin", "$contains", "$all", "$size",
          "$regex"}
        || (op == "$size" && Size(a).Some? && expected.Str? && py.parseInt(expected.s).None?)
        || (op == "$regex" && a.Str? && py.search(StrOf(py, expected), a.s).None?)
  {
    TestCompares(py, d, path, op, expected);
    hide Test, PyEq, Less, StrOf, In, InList, NotInList, ContainsValue, Iterate, Truthy;
  }

  /** Every value can be what a field holds. */
  lemma SomeDocumentHolds(path: string, v: Json) returns (d: Document)
    ensures GetPath(d, path) == Some(v)
  {
    d := SetPath(map[], path, v);
    GetSet(map[], Split(path), v, []);
    assert Split(path) + [] == Split(path);
  }

  /** One condition is well-formed exactly when testing it raises on no document. */
  lemma WellFormedIffNeverRaises(py: Python, path: string, op: string, expected: Json)
    ensures WellFormed(py, Single(Operators(path, [(op, expected)])))
      <==> forall d: Document :: Test(py, d, path, op, expected) != Raises
  {
    var c := Operators(path, [(op, expected)]);
    var q := Single(c);
    assert WellFormed(py, q) <==> WellFormedClause(py, c) by { assert q.clauses[0] == c; }
    assert WellFormedClause(py, c) <==> GoodOperator(py, op, expected) by { assert c.ops[0] == (op, expected); }
    if WellFormed(py, q) {
      forall d: Document ensures Test(py, d, path, op, expected) != Raises { WellFormedNeverRaises(py, d, q); }
    } else {
      var held: Json := Arr([]);
      if op == "$regex" {
        var s: string :| py.search(StrOf(py, expected), s).None?;
        held := Str(s);
      }
      var d := SomeDocumentHolds(path, held);
      TestCompares(py, d, path, op, expected);
    }
  }
}
