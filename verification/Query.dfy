/** The query evaluator: operators, clauses and their algebra. */
module Query {
  import Text
  import opened Values
  import opened Paths

  /** A query is a dict of clauses in their order. None, {} and every other falsy value have no
      clauses; anything else has no `items`. */
  datatype Query = Query(clauses: seq<Clause>) | NotADict

  datatype Clause =
    | And(items: seq<Query>)
    | Or(items: seq<Query>)
    | NotAList                                        // $and or $or with anything but a list
    | Not(query: Query)
    | Operators(path: string, ops: seq<(string, Json)>) // a condition dict with some key starting with $
    | Equals(path: string, value: Json)

  /** What evaluating gives; Raises stands for any exception `matches` lets through. */
  datatype Verdict = Yes | No | Raises

  function Flip(v: Verdict): Verdict {
    match v case Yes => No case No => Yes case Raises => Raises
  }

  function Decide(b: bool): Verdict {
    if b then Yes else No
  }

  // ---------- operators ----------

  /** What `_compare` gives. Incomparable is a TypeError, which the caller turns into a mismatch; Error is
      any other exception. */
  datatype Check = Holds(b: bool) | Incomparable | Error

  function Checked(r: Option<bool>): Check {
    match r case Some(b) => Holds(b) case None => Incomparable
  }

  function Negated(r: Option<bool>): Option<bool> {
    match r case Some(b) => Some(!b) case None => None
  }

  predicate Hashable(v: Json) {
    Scalar(v)
  }

  /** `v in container`; None stands for a TypeError. */
  function In(v: Json, container: Json): Option<bool> {
    match container
    case Arr(items) => Some(Member(v, items))
    case Str(s) => if v.Str? then Some(Substring(v.s, s)) else None
    case Obj(m) => if Hashable(v) then Some(v.Str? && v.s in m) else None
    case _ => None
  }

  /** `any(item in container for item in items)`. */
  function AnyIn(items: seq<Json>, container: Json): Option<bool> {
    if items == [] then Some(false)
    else match In(items[0], container)
      case None => None
      case Some(true) => Some(true)
      case Some(false) => AnyIn(items[1..], container)
  }

  /** `all(item not in container for item in items)`. */
  function NoneIn(items: seq<Json>, container: Json): Option<bool> {
    if items == [] then Some(true)
    else match In(items[0], container)
      case None => None
      case Some(true) => Some(false)
      case Some(false) => NoneIn(items[1..], container)
  }

  function InList(actual: Json, expected: Json): Option<bool> {
    if actual.Arr? then AnyIn(actual.items, expected) else In(actual, expected)
  }

  function NotInList(actual: Json, expected: Json): Option<bool> {
    if actual.Arr? then NoneIn(actual.items, expected) else Negated(In(actual, expected))
  }

  /** `contains_value`. */
  function ContainsValue(py: Python, actual: Json, expected: Json): Option<bool> {
    match actual
    case Arr(items) => Some(Member(expected, items))
    case Str(s) => Some(Substring(StrOf(py, expected), s))
    case Obj(m) =>
      if Hashable(expected) then
        Some((expected.Str? && expected.s in m) || exists k | k in m :: PyEq(m[k], expected))
      else None
    case _ => Some(false)
  }

  /** `for item in v`. */
  function Iterate(v: Json): Option<seq<Json>> {
    match v
    case Arr(items) => Some(items)
    case Str(s) => Some(seq(|s|, i requires 0 <= i < |s| => Str([s[i]])))
    case Obj(m) =>
      var keys := Text.SortedKeys(m.Keys);
      Some(seq(|keys|, i requires 0 <= i < |keys| => Str(keys[i])))
    case _ => None
  }

  function SizeIs(py: Python, length: nat, expected: Json): Check {
    match IntOf(py, expected)
    case Cast(n) => Holds(length == n)
    case TypeError => Incomparable
    case ValueError => Error
  }

  function Compare(py: Python, actual: Option<Json>, expected: Json, op: string): Check {
    if op == "$exists" then Holds(Truthy(expected) == actual.Some?)
    else if actual.None? then Holds(op == "$ne" || op == "$nin")
    else
      var a := actual.value;
      if op == "$eq" then Holds(PyEq(a, expected))
      else if op == "$ne" then Holds(!PyEq(a, expected))
      else if op == "$gt" then Checked(Less(expected, a))
      else if op == "$gte" then Checked(Negated(Less(a, expected)))
      else if op == "$lt" then Checked(Less(a, expected))
      else if op == "$lte" then Checked(Negated(Less(expected, a)))
      else if op == "$in" then Checked(InList(a, expected))
      else if op == "$nin" then Checked(NotInList(a, expected))
      else if op == "$contains" then Checked(ContainsValue(py, a, expected))
      else if op == "$all" then
        if !a.Arr? then Holds(false)
        else (match Iterate(expected)
              case None => Incomparable
              case Some(items) => Holds(forall i | 0 <= i < |items| :: Member(items[i], a.items)))
      else if op == "$size" then
        (match a
         case Arr(items) => SizeIs(py, |items|, expected)
         case Str(s) => SizeIs(py, |s|, expected)
         case Obj(m) => SizeIs(py, |m|, expected)
         case _ => Holds(false))
      else if op == "$regex" then
        if !a.Str? then Holds(false)
        else (match py.search(StrOf(py, expected), a.s) case Some(b) => Holds(b) case None => Error)
      else Error
  }

  // ---------- evaluation ----------

  function Matches(py: Python, d: Document, q: Query): Verdict
    decreases q, 1
  {
    match q
    case NotADict => Raises
    case Query(clauses) => MatchesClauses(py, d, clauses)
  }

  function MatchesClauses(py: Python, d: Document, clauses: seq<Clause>): Verdict
    decreases clauses, 0
  {
    if clauses == [] then Yes
    else match MatchesClause(py, d, clauses[0])
      case Yes => MatchesClauses(py, d, clauses[1..])
      case v => v
  }

  function MatchesClause(py: Python, d: Document, c: Clause): Verdict
    decreases c, 1
  {
    match c
    case And(items) => MatchesAll(py, d, items)
    case Or(items) => MatchesAny(py, d, items)
    case NotAList => No
    case Not(q) => Flip(Matches(py, d, q))
    case Operators(path, ops) => MatchesOps(py, GetPath(d, path), ops)
    case Equals(path, value) =>
      var actual := GetPath(d, path);
      Decide(actual.Some? && PyEq(actual.value, value))
  }

  function MatchesAll(py: Python, d: Document, items: seq<Query>): Verdict
    decreases items, 0
  {
    if items == [] then Yes
    else match Matches(py, d, items[0])
      case Yes => MatchesAll(py, d, items[1..])
      case v => v
  }

  function MatchesAny(py: Python, d: Document, items: seq<Query>): Verdict
    decreases items, 0
  {
    if items == [] then No
    else match Matches(py, d, items[0])
      case No => MatchesAny(py, d, items[1..])
      case v => v
  }

  function MatchesOps(py: Python, actual: Option<Json>, ops: seq<(string, Json)>): Verdict {
    if ops == [] then Yes
    else match Compare(py, actual, ops[0].1, ops[0].0)
      case Holds(true) => MatchesOps(py, actual, ops[1..])
      case Error => Raises
      case _ => No
  }

  /** `matches` as it runs: loops that return at the first clause, item or operator that decides. */
  method Match(py: Python, document: Document, query: Query) returns (v: Verdict)
    ensures v == Matches(py, document, query)
    decreases query
  {
    if query.NotADict? {
      return Raises;
    }
    var clauses := query.clauses;
    var i := 0;
    while i < |clauses|
      invariant 0 <= i <= |clauses|
      invariant Matches(py, document, query) == MatchesClauses(py, document, clauses[i..])
    {
      assert clauses[i..][1..] == clauses[i + 1..];
      var verdict: Verdict;
      match clauses[i] {
        case And(items) =>
          verdict := Yes;
          var j := 0;
          while j < |items| && verdict == Yes
            invariant 0 <= j <= |items|
            invariant MatchesAll(py, document, items)
                == if verdict == Yes then MatchesAll(py, document, items[j..]) else verdict
            decreases |items| - j
          {
            assert items[j..][1..] == items[j + 1..];
            verdict := Match(py, document, items[j]);
            j := j + 1;
          }
        case Or(items) =>
          verdict := No;
          var j := 0;
          while j < |items| && verdict == No
            invariant 0 <= j <= |items|
            invariant MatchesAny(py, document, items)
                == if verdict == No then MatchesAny(py, document, items[j..]) else verdict
            decreases |items| - j
          {
            assert items[j..][1..] == items[j + 1..];
            verdict := Match(py, document, items[j]);
            j := j + 1;
          }
        case NotAList =>
          verdict := No;
        case Not(inner) =>
          verdict := Match(py, document, inner);
          verdict := Flip(verdict);
        case Operators(path, ops) =>
          verdict := MatchOperators(py, GetPath(document, path), ops);
        case Equals(path, value) =>
          var actual := GetPath(document, path);
          verdict := if actual.None? || !PyEq(actual.value, value) then No else Yes;
      }
      if verdict != Yes {
        return verdict;
      }
      i := i + 1;
    }
    return Yes;
  }

  method MatchOperators(py: Python, actual: Option<Json>, ops: seq<(string, Json)>) returns (v: Verdict)
    ensures v == MatchesOps(py, actual, ops)
  {
    hide Compare;
    var k := 0;
    while k < |ops|
      invariant 0 <= k <= |ops|
      invariant MatchesOps(py, actual, ops) == MatchesOps(py, actual, ops[k..])
    {
      assert ops[k..][1..] == ops[k + 1..];
      var check := Compare(py, actual, ops[k].1, ops[k].0);
      if check == Error {
        return Raises;
      }
      if check != Holds(true) {
        return No;
      }
      k := k + 1;
    }
    return Yes;
  }

  // ---------- well-formed queries ----------

  const SUPPORTED := {"$exists", "$eq", "$ne", "$gt", "$gte", "$lt", "$lte", "$in", "$nin", "$contains", "$all",
    "$size", "$regex"}

  /** A supported operator whose operand does not make `int` or `re.search` raise. */
  ghost predicate GoodOperator(py: Python, op: string, expected: Json) {
    op in SUPPORTED
    && (op == "$size" ==> IntOf(py, expected) != ValueError)
    && (op == "$regex" ==> forall s: string :: py.search(StrOf(py, expected), s).Some?)
  }

  ghost predicate WellFormed(py: Python, q: Query)
    decreases q, 1
  {
    q.Query? && forall i | 0 <= i < |q.clauses| :: WellFormedClause(py, q.clauses[i])
  }

  ghost predicate WellFormedClause(py: Python, c: Clause)
    decreases c, 0
  {
    match c
    case And(items) => forall i | 0 <= i < |items| :: WellFormed(py, items[i])
    case Or(items) => forall i | 0 <= i < |items| :: WellFormed(py, items[i])
    case NotAList => true
    case Not(q) => WellFormed(py, q)
    case Operators(_, ops) => forall i | 0 <= i < |ops| :: GoodOperator(py, ops[i].0, ops[i].1)
    case Equals(_, _) => true
  }

  lemma GoodOperatorNeverRaises(py: Python, actual: Option<Json>, expected: Json, op: string)
    requires GoodOperator(py, op, expected)
    ensures Compare(py, actual, expected, op) != Error
  {}

  lemma {:induction false} GoodOpsNeverRaise(py: Python, actual: Option<Json>, ops: seq<(string, Json)>)
    requires forall i | 0 <= i < |ops| :: GoodOperator(py, ops[i].0, ops[i].1)
    ensures MatchesOps(py, actual, ops) != Raises
  {
    hide Compare, GoodOperator;
    if ops != [] {
      GoodOperatorNeverRaises(py, actual, ops[0].1, ops[0].0);
      GoodOpsNeverRaise(py, actual, ops[1..]);
    }
  }

  /** Evaluating a well-formed query never raises, on any document. */
  lemma {:induction false} WellFormedNeverRaises(py: Python, d: Document, q: Query)
    requires WellFormed(py, q)
    ensures Matches(py, d, q) != Raises
    decreases q, 1
  {
    ClausesNeverRaise(py, d, q.clauses);
  }

  lemma {:induction false} ClausesNeverRaise(py: Python, d: Document, clauses: seq<Clause>)
    requires forall i | 0 <= i < |clauses| :: WellFormedClause(py, clauses[i])
    ensures MatchesClauses(py, d, clauses) != Raises
    decreases clauses, 0
  {
    if clauses != [] {
      ClauseNeverRaises(py, d, clauses[0]);
      ClausesNeverRaise(py, d, clauses[1..]);
    }
  }

  lemma {:induction false} ClauseNeverRaises(py: Python, d: Document, c: Clause)
    requires WellFormedClause(py, c)
    ensures MatchesClause(py, d, c) != Raises
    decreases c, 1
  {
    match c
    case And(items) => ItemsNeverRaise(py, d, items);
    case Or(items) => ItemsNeverRaise(py, d, items);
    case Not(q) => WellFormedNeverRaises(py, d, q);
    case Operators(path, ops) => GoodOpsNeverRaise(py, GetPath(d, path), ops);
    case _ =>
  }

  lemma {:induction false} ItemsNeverRaise(py: Python, d: Document, items: seq<Query>)
    requires forall i | 0 <= i < |items| :: WellFormed(py, items[i])
    ensures MatchesAll(py, d, items) != Raises && MatchesAny(py, d, items) != Raises
    decreases items, 0
  {
    if items != [] {
      WellFormedNeverRaises(py, d, items[0]);
      ItemsNeverRaise(py, d, items[1..]);
    }
  }

  // ---------- a query is the conjunction of its parts ----------

  /** The clause split into clauses of a single operator. */
  function Parts(c: Clause): seq<Clause> {
    match c
    case Operators(path, ops) => seq(|ops|, i requires 0 <= i < |ops| => Operators(path, [ops[i]]))
    case _ => [c]
  }

  predicate Satisfied(py: Python, d: Document, c: Clause) {
    MatchesClause(py, d, c) == Yes
  }

  lemma {:induction false} OpsAreConjunction(py: Python, actual: Option<Json>, ops: seq<(string, Json)>)
    ensures MatchesOps(py, actual, ops) == Yes <==> forall i | 0 <= i < |ops| :: MatchesOps(py, actual, [ops[i]]) == Yes
  {
    hide Compare;
    if ops != [] {
      OpsAreConjunction(py, actual, ops[1..]);
      assert [ops[0]][1..] == [];
      assert forall i | 0 <= i < |ops[1..]| :: ops[1..][i] == ops[i + 1];
      assert forall i | 0 < i < |ops| :: ops[i] == ops[1..][i - 1];
    }
  }

  lemma ClauseIsItsParts(py: Python, d: Document, c: Clause)
    ensures MatchesClause(py, d, c) == Yes <==> forall part | part in Parts(c) :: Satisfied(py, d, part)
  {
    hide MatchesOps;
    if !c.Operators? {
      assert Parts(c) == [c] && c in Parts(c);
      assert Satisfied(py, d, c) <==> MatchesClause(py, d, c) == Yes;
    } else {
      var actual := GetPath(d, c.path);
      OpsAreConjunction(py, actual, c.ops);
      assert forall i | 0 <= i < |c.ops| :: Parts(c)[i] == Operators(c.path, [c.ops[i]]);
      assert forall i | 0 <= i < |c.ops| ::
        Satisfied(py, d, Parts(c)[i]) <==> MatchesOps(py, actual, [c.ops[i]]) == Yes;
      if MatchesClause(py, d, c) != Yes {
        var i :| 0 <= i < |c.ops| && MatchesOps(py, actual, [c.ops[i]]) != Yes;
        assert Parts(c)[i] in Parts(c);
      }
    }
  }

  /** The single-field, single-operator parts of a query. */
  predicate HasPart(q: Query, part: Clause) {
    q.Query? && exists i | 0 <= i < |q.clauses| :: part in Parts(q.clauses[i])
  }

  lemma {:induction false} ClausesAreConjunction(py: Python, d: Document, clauses: seq<Clause>)
    ensures MatchesClauses(py, d, clauses) == Yes
        <==> forall i | 0 <= i < |clauses| :: MatchesClause(py, d, clauses[i]) == Yes
  {
    hide MatchesClause;
    if clauses != [] {
      ClausesAreConjunction(py, d, clauses[1..]);
      assert forall i | 0 <= i < |clauses[1..]| :: clauses[1..][i] == clauses[i + 1];
      assert forall i | 0 < i < |clauses| :: clauses[i] == clauses[1..][i - 1];
    }
  }

  /** A query matches exactly when each of its parts does. */
  lemma QueryIsConjunctionOfParts(py: Python, d: Document, q: Query)
    requires q.Query?
    ensures Matches(py, d, q) == Yes <==> forall part | HasPart(q, part) :: Satisfied(py, d, part)
  {
    hide MatchesClause, Satisfied;
    ClausesAreConjunction(py, d, q.clauses);
    forall i | 0 <= i < |q.clauses|
      ensures MatchesClause(py, d, q.clauses[i]) == Yes
          <==> forall part | part in Parts(q.clauses[i]) :: Satisfied(py, d, part)
    {
      ClauseIsItsParts(py, d, q.clauses[i]);
    }
    assert forall i, part | 0 <= i < |q.clauses| && part in Parts(q.clauses[i]) :: HasPart(q, part);
  }

  /** Hence well-formed queries with the same parts, in any order and any grouping, select the same documents. */
  lemma SamePartsSameVerdict(py: Python, d: Document, q: Query, r: Query)
    requires WellFormed(py, q) && WellFormed(py, r)
    requires forall part :: HasPart(q, part) <==> HasPart(r, part)
    ensures Matches(py, d, q) == Matches(py, d, r)
  {
    hide Matches, HasPart, Satisfied;
    QueryIsConjunctionOfParts(py, d, q);
    QueryIsConjunctionOfParts(py, d, r);
    WellFormedNeverRaises(py, d, q);
    WellFormedNeverRaises(py, d, r);
  }

  /** Some clause fails, or some raises. */
  predicate Has(py: Python, d: Document, clauses: seq<Clause>, v: Verdict) {
    exists i | 0 <= i < |clauses| :: MatchesClause(py, d, clauses[i]) == v
  }

  lemma {:induction false} OneKindOfFailure(py: Python, d: Document, clauses: seq<Clause>)
    requires !(Has(py, d, clauses, No) && Has(py, d, clauses, Raises))
    ensures MatchesClauses(py, d, clauses)
      == if Has(py, d, clauses, No) then No else if Has(py, d, clauses, Raises) then Raises else Yes
  {
    hide MatchesClause;
    if clauses != [] {
      var first, rest := clauses[0], clauses[1..];
      assert forall i | 0 <= i < |rest| :: rest[i] == clauses[i + 1];
      forall v: Verdict ensures Has(py, d, clauses, v) <==> MatchesClause(py, d, first) == v || Has(py, d, rest, v) {
        if i :| 0 <= i < |clauses| && MatchesClause(py, d, clauses[i]) == v && i > 0 {
          assert MatchesClause(py, d, rest[i - 1]) == v;
        }
      }
      hide Has;
      OneKindOfFailure(py, d, rest);
    }
  }

  /** The clauses with one moved to the front. */
  function Front(clauses: seq<Clause>, i: nat): (r: seq<Clause>)
    requires i < |clauses|
    ensures multiset(r) == multiset(clauses) && r != [] && r[0] == clauses[i]
  {
    assert clauses == clauses[..i] + [clauses[i]] + clauses[i + 1..];
    [clauses[i]] + (clauses[..i] + clauses[i + 1..])
  }

  lemma SameHas(py: Python, d: Document, a: seq<Clause>, b: seq<Clause>, v: Verdict)
    requires multiset(a) == multiset(b) && Has(py, d, a, v)
    ensures Has(py, d, b, v)
  {
    hide MatchesClause;
    var i :| 0 <= i < |a| && MatchesClause(py, d, a[i]) == v;
    assert a[i] in multiset(b);
  }

  /** The order of the clauses is irrelevant exactly when it is not the case that one fails and another raises. */
  lemma OrderMattersOnlyForErrors(py: Python, d: Document, clauses: seq<Clause>)
    ensures (forall other: seq<Clause> | multiset(other) == multiset(clauses) ::
              Matches(py, d, Query(other)) == Matches(py, d, Query(clauses)))
      <==> !(Has(py, d, clauses, No) && Has(py, d, clauses, Raises))
  {
    hide MatchesClause;
    if Has(py, d, clauses, No) && Has(py, d, clauses, Raises) {
      var i :| 0 <= i < |clauses| && MatchesClause(py, d, clauses[i]) == No;
      var j :| 0 <= j < |clauses| && MatchesClause(py, d, clauses[j]) == Raises;
      assert Matches(py, d, Query(Front(clauses, i))) == No;
      assert Matches(py, d, Query(Front(clauses, j))) == Raises;
    } else {
      OneKindOfFailure(py, d, clauses);
      forall other: seq<Clause> | multiset(other) == multiset(clauses)
        ensures Matches(py, d, Query(other)) == Matches(py, d, Query(clauses))
      {
        forall v: Verdict ensures Has(py, d, other, v) <==> Has(py, d, clauses, v) {
          if Has(py, d, other, v) { SameHas(py, d, other, clauses, v); }
          if Has(py, d, clauses, v) { SameHas(py, d, clauses, other, v); }
        }
        OneKindOfFailure(py, d, other);
      }
    }
  }

  // ---------- negation ----------

  function Single(c: Clause): Query {
    Query([c])
  }

  lemma SingleClause(py: Python, d: Document, c: Clause)
    ensures Matches(py, d, Single(c)) == MatchesClause(py, d, c)
  {
    hide MatchesClause;
    assert [c][1..] == [] && MatchesClauses(py, d, []) == Yes;
    assert MatchesClauses(py, d, [c]) == MatchesClause(py, d, c);
  }

  function Nots(qs: seq<Query>): (r: seq<Query>)
    ensures |r| == |qs|
  {
    if qs == [] then [] else [Single(Not(qs[0]))] + Nots(qs[1..])
  }

  /** De Morgan, for all lists of queries, the empty ones and those that raise included. */
  lemma {:induction false} DeMorgan(py: Python, d: Document, qs: seq<Query>)
    ensures Flip(MatchesAll(py, d, qs)) == MatchesAny(py, d, Nots(qs))
    ensures Flip(MatchesAny(py, d, qs)) == MatchesAll(py, d, Nots(qs))
    decreases |qs|
  {
    if qs != [] {
      SingleClause(py, d, Not(qs[0]));
      assert Nots(qs)[0] == Single(Not(qs[0])) && Nots(qs)[1..] == Nots(qs[1..]);
      DeMorgan(py, d, qs[1..]);
    }
  }

  /** `$not` is exact complement, and distributes over `$and` and `$or`. */
  lemma NegationLaws(py: Python, d: Document, q: Query, qs: seq<Query>)
    ensures Matches(py, d, Single(Not(q))) == Flip(Matches(py, d, q))
    ensures Matches(py, d, Single(Not(Single(And(qs))))) == Matches(py, d, Single(Or(Nots(qs))))
    ensures Matches(py, d, Single(Not(Single(Or(qs))))) == Matches(py, d, Single(And(Nots(qs))))
  {
    hide Matches;
    SingleClause(py, d, Not(q));
    SingleClause(py, d, And(qs));
    SingleClause(py, d, Or(qs));
    SingleClause(py, d, Not(Single(And(qs))));
    SingleClause(py, d, Not(Single(Or(qs))));
    SingleClause(py, d, And(Nots(qs)));
    SingleClause(py, d, Or(Nots(qs)));
    DeMorgan(py, d, qs);
  }

  lemma {:induction false} NoneInNegatesAnyIn(items: seq<Json>, container: Json)
    ensures NoneIn(items, container) == Negated(AnyIn(items, container))
  {
    if items != [] { NoneInNegatesAnyIn(items[1..], container); }
  }

  function Test(py: Python, d: Document, path: string, op: string, expected: Json): Verdict {
    Matches(py, d, Single(Operators(path, [(op, expected)])))
  }

  lemma TestCompares(py: Python, d: Document, path: string, op: string, expected: Json)
    ensures Test(py, d, path, op, expected) == match Compare(py, GetPath(d, path), expected, op)
      case Holds(b) => Decide(b)
      case Incomparable => No
      case Error => Raises
  {
    hide Compare;
    SingleClause(py, d, Operators(path, [(op, expected)]));
    var actual := GetPath(d, path);
    assert [(op, expected)][1..] == [] && MatchesOps(py, actual, []) == Yes;
    assert MatchesClause(py, d, Operators(path, [(op, expected)])) == MatchesOps(py, actual, [(op, expected)]);
  }

  /** `$ne` is the complement of `$eq` on every document, missing fields included. `$nin` is the complement of
      `$in`, and the ranges of their opposites, exactly when the comparison does not raise a TypeError; for ranges
      the field must also be present. With a list operand `$in` never does. */
  lemma OperatorComplements(py: Python, d: Document, path: string, expected: Json)
    ensures Test(py, d, path, "$ne", expected) == Flip(Test(py, d, path, "$eq", expected))
    ensures var a := GetPath(d, path);
      Test(py, d, path, "$nin", expected) == Flip(Test(py, d, path, "$in", expected))
      <==> a.None? || InList(a.value, expected).Some?
    ensures expected.Arr? ==> Test(py, d, path, "$nin", expected) == Flip(Test(py, d, path, "$in", expected))
    ensures var a := GetPath(d, path);
      Test(py, d, path, "$lte", expected) == Flip(Test(py, d, path, "$gt", expected))
      <==> a.Some? && Less(expected, a.value).Some?
    ensures var a := GetPath(d, path);
      Test(py, d, path, "$gte", expected) == Flip(Test(py, d, path, "$lt", expected))
      <==> a.Some? && Less(a.value, expected).Some?
  {
    hide Less, InList, NotInList, PyEq;
    TestCompares(py, d, path, "$eq", expected);
    TestCompares(py, d, path, "$ne", expected);
    TestCompares(py, d, path, "$in", expected);
    TestCompares(py, d, path, "$nin", expected);
    TestCompares(py, d, path, "$gt", expected);
    TestCompares(py, d, path, "$lte", expected);
    TestCompares(py, d, path, "$lt", expected);
    TestCompares(py, d, path, "$gte", expected);
    if GetPath(d, path).Some? {
      NotInListNegates(GetPath(d, path).value, expected);
    }
  }

  lemma NotInListNegates(actual: Json, expected: Json)
    ensures NotInList(actual, expected) == Negated(InList(actual, expected))
    ensures expected.Arr? ==> InList(actual, expected).Some?
  {
    if actual.Arr? {
      NoneInNegatesAnyIn(actual.items, expected);
      if expected.Arr? { AnyInListDefined(actual.items, expected); }
    }
  }

  lemma {:induction false} AnyInListDefined(items: seq<Json>, container: Json)
    requires container.Arr?
    ensures AnyIn(items, container).Some?
  {
    if items != [] { AnyInListDefined(items[1..], container); }
  }

  // ---------- what the operators mean ----------

  /** Ranges on numbers are the numeric ranges; on strings, the code-point order. */
  lemma RangeOperators(py: Python, d: Document, path: string, expected: Json)
    requires GetPath(d, path).Some?
    ensures var a := GetPath(d, path).value;
      Number(a) && Number(expected) ==>
        && Test(py, d, path, "$gt", expected) == Decide(NumberOf(a) > NumberOf(expected))
        && Test(py, d, path, "$gte", expected) == Decide(NumberOf(a) >= NumberOf(expected))
        && Test(py, d, path, "$lt", expected) == Decide(NumberOf(a) < NumberOf(expected))
        && Test(py, d, path, "$lte", expected) == Decide(NumberOf(a) <= NumberOf(expected))
    ensures var a := GetPath(d, path).value;
      a.Str? && expected.Str? ==>
        && Test(py, d, path, "$gt", expected) == Decide(!Text.LexLeq(a.s, expected.s))
        && Test(py, d, path, "$gte", expected) == Decide(Text.LexLeq(expected.s, a.s))
        && Test(py, d, path, "$lt", expected) == Decide(!Text.LexLeq(expected.s, a.s))
        && Test(py, d, path, "$lte", expected) == Decide(Text.LexLeq(a.s, expected.s))
  {
    TestCompares(py, d, path, "$gt", expected);
    TestCompares(py, d, path, "$gte", expected);
    TestCompares(py, d, path, "$lt", expected);
    TestCompares(py, d, path, "$lte", expected);
    var a := GetPath(d, path).value;
    hide Test, PyEq;
    if a.Str? && expected.Str? {
      Text.LexTotal(a.s, expected.s);
      if Text.LexLeq(a.s, expected.s) && Text.LexLeq(expected.s, a.s) { Text.LexAntisymmetric(a.s, expected.s); }
    }
  }

  /** How many leading items are equal. */
  function Agreement(a: seq<Json>, b: seq<Json>): (n: nat)
    ensures n <= |a| && n <= |b|
    ensures forall i | 0 <= i < n :: PyEq(a[i], b[i])
    ensures n < |a| && n < |b| ==> !PyEq(a[n], b[n])
  {
    if a == [] || b == [] || !PyEq(a[0], b[0]) then 0 else 1 + Agreement(a[1..], b[1..])
  }

  lemma {:induction false} ListsCompare(a: seq<Json>, b: seq<Json>)
    ensures var n := Agreement(a, b);
      LessItems(a, b) == if n < |a| && n < |b| then Less(a[n], b[n]) else Some(|a| < |b|)
  {
    hide PyEq, Less;
    if a != [] && b != [] && PyEq(a[0], b[0]) {
      ListsCompare(a[1..], b[1..]);
    }
  }

  lemma CompareLists(py: Python, a: seq<Json>, b: seq<Json>)
    ensures Compare(py, Some(Arr(a)), Arr(b), "$lt") == Checked(LessItems(a, b))
    ensures Compare(py, Some(Arr(a)), Arr(b), "$gt") == Checked(LessItems(b, a))
  {
    hide LessItems;
  }

  /** Ranges on lists are decided by the first items that differ, and without such by the lengths. */
  lemma ListRanges(py: Python, d: Document, path: string, expected: seq<Json>)
    requires GetPath(d, path).Some? && GetPath(d, path).value.Arr?
    ensures var a, n := GetPath(d, path).value.items, Agreement(GetPath(d, path).value.items, expected);
      if n < |a| && n < |expected| then
        && (Test(py, d, path, "$lt", Arr(expected)) == Yes <==> Less(a[n], expected[n]) == Some(true))
        && (Test(py, d, path, "$gt", Arr(expected)) == Yes <==> Less(expected[n], a[n]) == Some(true))
      else
        && Test(py, d, path, "$lt", Arr(expected)) == Decide(|a| < |expected|)
        && Test(py, d, path, "$gt", Arr(expected)) == Decide(|a| > |expected|)
  {
    hide Test, PyEq, Compare, Less, LessItems;
    var a := GetPath(d, path).value.items;
    TestCompares(py, d, path, "$gt", Arr(expected));
    TestCompares(py, d, path, "$lt", Arr(expected));
    CompareLists(py, a, expected);
    ListsCompare(a, expected);
    ListsCompare(expected, a);
    AgreementBack(a, expected);
  }

  lemma {:induction false} AgreementBack(a: seq<Json>, b: seq<Json>)
    ensures Agreement(a, b) == Agreement(b, a)
  {
    if a != [] && b != [] { AgreementBack(a[1..], b[1..]); }
  }

  lemma {:induction false} AnyInMeans(items: seq<Json>, expected: seq<Json>)
    ensures AnyIn(items, Arr(expected)) == Some(exists i | 0 <= i < |items| :: Member(items[i], expected))
  {
    if items != [] {
      AnyInMeans(items[1..], expected);
      assert forall i | 0 <= i < |items[1..]| :: items[1..][i] == items[i + 1];
      assert forall i | 0 < i < |items| :: items[i] == items[1..][i - 1];
    }
  }

  /** With a list operand, `$in` holds of a present value when it equals a listed one, and of a list when it has an
      element that does; `$all` holds of a list that has every listed value. */
  lemma ListOperators(py: Python, d: Document, path: string, expected: seq<Json>)
    requires GetPath(d, path).Some?
    ensures var a := GetPath(d, path).value;
      Test(py, d, path, "$in", Arr(expected))
        == Decide(if a.Arr? then exists i | 0 <= i < |a.items| :: Member(a.items[i], expected) else Member(a, expected))
    ensures var a := GetPath(d, path).value;
      Test(py, d, path, "$all", Arr(expected))
        == Decide(a.Arr? && forall i | 0 <= i < |expected| :: Member(expected[i], a.items))
    ensures var a := GetPath(d, path).value;
      a.Arr? && |expected| == 1 ==>
        Test(py, d, path, "$all", Arr(expected)) == Test(py, d, path, "$contains", expected[0])
  {
    hide Test, Member, Compare;
    var a := GetPath(d, path).value;
    TestCompares(py, d, path, "$in", Arr(expected));
    TestCompares(py, d, path, "$all", Arr(expected));
    CompareWithList(py, a, expected);
    if |expected| == 1 {
      TestCompares(py, d, path, "$contains", expected[0]);
      CompareContains(py, a, expected[0]);
    }
  }

  lemma CompareWithList(py: Python, a: Json, expected: seq<Json>)
    ensures Compare(py, Some(a), Arr(expected), "$in")
      == Holds(if a.Arr? then exists i | 0 <= i < |a.items| :: Member(a.items[i], expected) else Member(a, expected))
    ensures Compare(py, Some(a), Arr(expected), "$all")
      == Holds(a.Arr? && forall i | 0 <= i < |expected| :: Member(expected[i], a.items))
  {
    hide Member;
    if a.Arr? { AnyInMeans(a.items, expected); }
  }

  lemma CompareContains(py: Python, a: Json, v: Json)
    ensures a.Arr? ==> Compare(py, Some(a), v, "$contains") == Holds(Member(v, a.items))
  {}

  /** On a missing field an operator holds exactly if it is `$ne`, `$nin` or `$exists` of a falsy operand. */
  predicate HoldsOfMissing(op: string, expected: Json) {
    op == "$ne" || op == "$nin" || (op == "$exists" && !Truthy(expected))
  }

  /** A field's operators select a document without the field exactly if each holds of a missing one, and nothing
      raises: not even an unsupported operator or a bad operand is noticed there. */
  lemma {:induction false} MissingFields(py: Python, d: Document, path: string, ops: seq<(string, Json)>)
    requires GetPath(d, path).None?
    ensures Matches(py, d, Single(Operators(path, ops)))
      == Decide(forall i | 0 <= i < |ops| :: HoldsOfMissing(ops[i].0, ops[i].1))
  {
    SingleClause(py, d, Operators(path, ops));
    OpsOfMissing(py, ops);
  }

  lemma {:induction false} OpsOfMissing(py: Python, ops: seq<(string, Json)>)
    ensures MatchesOps(py, None, ops) == Decide(forall i | 0 <= i < |ops| :: HoldsOfMissing(ops[i].0, ops[i].1))
  {
    if ops != [] {
      OpsOfMissing(py, ops[1..]);
      assert forall i | 0 <= i < |ops[1..]| :: ops[1..][i] == ops[i + 1];
      assert forall i | 0 < i < |ops| :: ops[i] == ops[1..][i - 1];
    }
  }

  /** `$exists` tells presence, or absence for a falsy operand: None, False, 0, "", [] and {}. */
  lemma Presence(py: Python, d: Document, path: string, expected: Json)
    ensures Test(py, d, path, "$exists", expected) != Raises
    ensures Test(py, d, path, "$exists", expected) == Yes <==>
      (GetPath(d, path).Some? <==> expected !in {Null, Bool(false), Int(0), Str(""), Arr([]), Obj(map[])})
  {
    TestCompares(py, d, path, "$exists", expected);
    hide Test;
  }

  /** Where a TypeError arises both `$in` and `$nin` fail, and so do opposite ranges: 5 and 3, "a" and 3. */
  lemma NotComplements(py: Python, d: Document, path: string)
    ensures GetPath(d, path) == Some(Int(5)) ==>
      Test(py, d, path, "$in", Int(3)) == No == Test(py, d, path, "$nin", Int(3))
    ensures GetPath(d, path) == Some(Str("a")) ==>
      Test(py, d, path, "$gt", Int(3)) == No == Test(py, d, path, "$lte", Int(3))
  {
    TestCompares(py, d, path, "$in", Int(3));
    TestCompares(py, d, path, "$nin", Int(3));
    TestCompares(py, d, path, "$gt", Int(3));
    TestCompares(py, d, path, "$lte", Int(3));
    hide Test;
  }
}
