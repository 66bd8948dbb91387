/** Reading through an index and reading everything select the same documents. */
module IndexScan {
  import opened Values
  import opened Paths
  import opened Query
  import opened Indexes

  /** The query requires the field to equal the value: `{field: v}` or an `$eq` among the field's operators. */
  predicate Binds(q: Query, field: string, v: Json) {
    HasPart(q, Equals(field, v)) || HasPart(q, Operators(field, [("$eq", v)]))
  }

  /** So does every clause `{field: v}`, and every condition with an `$eq` among its operators. */
  lemma ClauseBinds(q: Query, i: nat, field: string, v: Json)
    requires q.Query? && i < |q.clauses|
    requires q.clauses[i] == Equals(field, v)
      || (q.clauses[i].Operators? && q.clauses[i].path == field && ("$eq", v) in q.clauses[i].ops)
    ensures Binds(q, field, v)
  {
    var c := q.clauses[i];
    if c.Operators? {
      var j :| 0 <= j < |c.ops| && c.ops[j] == ("$eq", v);
      assert Parts(c)[j] == Operators(field, [("$eq", v)]);
      assert Operators(field, [("$eq", v)]) in Parts(c);
    } else {
      assert Parts(c)[0] == Equals(field, v);
    }
  }

  lemma {:induction false} BoundFieldEquals(py: Python, d: Document, q: Query, field: string, v: Json)
    requires Binds(q, field, v) && Matches(py, d, q) == Yes
    ensures GetPath(d, field).Some? && PyEq(GetPath(d, field).value, v)
  {
    QueryIsConjunctionOfParts(py, d, q);
    if HasPart(q, Equals(field, v)) {
      assert Satisfied(py, d, Equals(field, v));
    } else {
      assert Satisfied(py, d, Operators(field, [("$eq", v)]));
      TestCompares(py, d, field, "$eq", v);
      SingleClause(py, d, Operators(field, [("$eq", v)]));
    }
  }

  /** `lookup`, on an index that is the inverse image of the documents. */
  function Lookup(py: Python, spec: Spec, docs: set<Document>, value: Indexed): set<string>
    requires HaveIds(docs)
  {
    Bucket(Inverse(py, spec, docs), KeyOf(py, value))
  }

  lemma LookupFinds(py: Python, spec: Spec, docs: set<Document>, value: Indexed, d: Document)
    requires HaveIds(docs) && DistinctIds(py, docs) && d in docs
    ensures IdOf(py, d) in Lookup(py, spec, docs, value) <==> DocKey(py, spec, d) == Some(KeyOf(py, value))
  {
    hide DocKey, IdOf, KeyOf;
    var key := KeyOf(py, value);
    assert DocKey(py, spec, d) == Some(key) ==> key in Keys(py, spec, docs);
  }

  /** What a full scan selects, and what filtering the documents with the looked-up ids selects. */
  function FullScan(py: Python, docs: set<Document>, q: Query): set<Document> {
    set d | d in docs && Matches(py, d, q) == Yes
  }

  function IndexedScan(py: Python, docs: set<Document>, q: Query, ids: set<string>): set<Document>
    requires HaveIds(docs)
  {
    set d | d in docs && IdOf(py, d) in ids && Matches(py, d, q) == Yes
  }

  /** Equal scalars have equal keys. */
  lemma ScalarKeys(py: Python, a: Json, v: Json)
    requires PyEq(a, v) && Scalar(v)
    ensures Scalar(a) && KeyOf(py, One(a)) == KeyOf(py, One(v))
  {}

  /** For every query that binds the indexed field to a scalar, filtering the index's
      candidates gives the answer of a full scan. */
  lemma SingleFieldScanAgrees(py: Python, docs: set<Document>, q: Query, field: string, v: Json)
    requires HaveIds(docs) && DistinctIds(py, docs) && Binds(q, field, v) && Scalar(v)
    ensures IndexedScan(py, docs, q, Lookup(py, Field(field), docs, One(v))) == FullScan(py, docs, q)
  {
    hide Matches, Lookup, IdOf, Binds;
    forall d | d in docs && Matches(py, d, q) == Yes
      ensures IdOf(py, d) in Lookup(py, Field(field), docs, One(v))
    {
      BoundFieldEquals(py, d, q, field, v);
      ScalarKeys(py, GetPath(d, field).value, v);
      LookupFinds(py, Field(field), docs, One(v), d);
    }
  }

  lemma {:induction false} BoundFieldsEqual(py: Python, d: Document, q: Query, fields: seq<string>, vs: seq<Json>)
    requires |fields| == |vs| && Matches(py, d, q) == Yes
    requires forall i | 0 <= i < |fields| :: Binds(q, fields[i], vs[i])
    ensures FieldValues(d, fields).Some? && |FieldValues(d, fields).value| == |vs|
    ensures forall i | 0 <= i < |vs| :: PyEq(FieldValues(d, fields).value[i], vs[i])
  {
    hide Matches, Binds;
    if fields != [] {
      BoundFieldEquals(py, d, q, fields[0], vs[0]);
      BoundFieldsEqual(py, d, q, fields[1..], vs[1..]);
    }
  }

  lemma TupleKeys(py: Python, a: seq<Json>, vs: seq<Json>)
    requires |a| == |vs| && forall i | 0 <= i < |vs| :: PyEq(a[i], vs[i]) && Scalar(vs[i])
    ensures KeyOf(py, Tuple(a)) == KeyOf(py, Tuple(vs))
  {
    forall i | 0 <= i < |vs| ensures Scalar(a[i]) && Norm(a[i]) == Norm(vs[i]) {
      ScalarKeys(py, a[i], vs[i]);
    }
  }

  /** The same for a composite index all of whose fields the query binds to scalars. */
  lemma CompositeScanAgrees(py: Python, docs: set<Document>, q: Query, fields: seq<string>, vs: seq<Json>)
    requires HaveIds(docs) && DistinctIds(py, docs) && |fields| == |vs|
    requires forall i | 0 <= i < |fields| :: Binds(q, fields[i], vs[i]) && Scalar(vs[i])
    ensures IndexedScan(py, docs, q, Lookup(py, Composite(fields), docs, Tuple(vs))) == FullScan(py, docs, q)
  {
    hide Matches, Lookup, IdOf, Binds;
    forall d | d in docs && Matches(py, d, q) == Yes
      ensures IdOf(py, d) in Lookup(py, Composite(fields), docs, Tuple(vs))
    {
      BoundFieldsEqual(py, d, q, fields, vs);
      TupleKeys(py, FieldValues(d, fields).value, vs);
      LookupFinds(py, Composite(fields), docs, Tuple(vs), d);
    }
  }

  predicate SameKey(py: Python, a: Json, v: Json) {
    if Scalar(v) then PyEq(a, v) || (v.Str? && !Scalar(a) && py.repr(a) == v.s)
    else if Scalar(a) then a == Str(py.repr(v))
    else py.repr(a) == py.repr(v)
  }

  /** What a lookup by one value finds: for null and numbers, exactly the documents whose field equals it; for a
      string also those that hold a container so represented; for a container, those with that representation. */
  lemma LookupExact(py: Python, docs: set<Document>, field: string, v: Json, d: Document)
    requires HaveIds(docs) && DistinctIds(py, docs) && d in docs
    ensures StrOf(py, d["_id"]) in Lookup(py, Field(field), docs, One(v))
      <==> GetPath(d, field).Some? && SameKey(py, GetPath(d, field).value, v)
  {
    assert IdOf(py, d) == StrOf(py, d["_id"]);
    hide Lookup, IdOf, SameKey, DocKey;
    LookupFinds(py, Field(field), docs, One(v), d);
    FieldKey(py, d, field, v);
  }

  lemma FieldKey(py: Python, d: Document, field: string, v: Json)
    ensures DocKey(py, Field(field), d) == Some(KeyOf(py, One(v)))
      <==> GetPath(d, field).Some? && SameKey(py, GetPath(d, field).value, v)
  {
    hide GetPath;
  }

  /** The fields of a composite index are all there, in order. */
  lemma {:induction false} FieldValuesAre(d: Document, fields: seq<string>, vs: seq<Json>)
    ensures FieldValues(d, fields) == Some(vs)
      <==> |vs| == |fields| && forall i | 0 <= i < |vs| :: GetPath(d, fields[i]) == Some(vs[i])
  {
    hide GetPath;
    if fields != [] {
      if vs != [] {
        FieldValuesAre(d, fields[1..], vs[1..]);
        assert vs == [vs[0]] + vs[1..];
        assert forall i | 0 < i < |fields| :: fields[i] == fields[1..][i - 1];
        assert |vs| == |fields| ==> forall i | 0 < i < |vs| :: vs[i] == vs[1..][i - 1];
        assert forall i | 0 <= i < |fields[1..]| :: fields[1..][i] == fields[i + 1];
        assert forall i | 0 <= i < |vs[1..]| :: vs[1..][i] == vs[i + 1];
      }
    }
  }

  /** The tuples a lookup takes for one another: scalars that are equal one by one, or tuples that are not
      all scalars and have the same representation. */
  predicate SameTuple(py: Python, a: seq<Json>, vs: seq<Json>) {
    if AllScalar(vs) then |a| == |vs| && forall i | 0 <= i < |vs| :: PyEq(a[i], vs[i])
    else !AllScalar(a) && py.reprTuple(a) == py.reprTuple(vs)
  }

  lemma TupleKeysAre(py: Python, a: seq<Json>, vs: seq<Json>)
    ensures KeyOf(py, Tuple(a)) == KeyOf(py, Tuple(vs)) <==> SameTuple(py, a, vs)
  {
    hide Norm;
    if AllScalar(a) && AllScalar(vs) {
      var x, y := KeyOf(py, Tuple(a)).vs, KeyOf(py, Tuple(vs)).vs;
      assert forall i | 0 <= i < |x| :: x[i] == Norm(a[i]);
      assert forall i | 0 <= i < |y| :: y[i] == Norm(vs[i]);
      assert x == y <==> |x| == |y| && forall i | 0 <= i < |x| :: x[i] == y[i];
    } else if AllScalar(vs) && SameTuple(py, a, vs) {
      forall i | 0 <= i < |a| ensures Scalar(a[i]) { ScalarKeys(py, a[i], vs[i]); }
    }
  }

  /** What a composite lookup finds: the documents that have every field, with values it takes for those asked for. */
  lemma CompositeLookupExact(py: Python, docs: set<Document>, fields: seq<string>, vs: seq<Json>, d: Document)
    requires HaveIds(docs) && DistinctIds(py, docs) && d in docs
    ensures StrOf(py, d["_id"]) in Lookup(py, Composite(fields), docs, Tuple(vs))
      <==> (exists a :: |a| == |fields| && (forall i | 0 <= i < |a| :: GetPath(d, fields[i]) == Some(a[i]))
                        && SameTuple(py, a, vs))
  {
    assert IdOf(py, d) == StrOf(py, d["_id"]);
    hide Lookup, IdOf, SameTuple, KeyOf, GetPath;
    LookupFinds(py, Composite(fields), docs, Tuple(vs), d);
    var values := FieldValues(d, fields);
    if values.Some? {
      FieldValuesAre(d, fields, values.value);
      TupleKeysAre(py, values.value, vs);
    }
    forall a: seq<Json> | |a| == |fields| && forall i | 0 <= i < |a| :: GetPath(d, fields[i]) == Some(a[i])
      ensures values == Some(a)
    {
      FieldValuesAre(d, fields, a);
    }
  }

  /** Equal values have equal keys exactly when they are scalars or print alike. */
  lemma EqualKeys(py: Python, a: Json, v: Json)
    requires PyEq(a, v)
    ensures KeyOf(py, One(a)) == KeyOf(py, One(v)) <==> Scalar(v) || py.repr(a) == py.repr(v)
  {}

  /** For every query that binds the indexed field to a value, the index gives the answer of a full scan exactly when
      the value is a scalar or every document selected prints it alike. */
  lemma ContainerScan(py: Python, docs: set<Document>, q: Query, field: string, v: Json)
    requires HaveIds(docs) && DistinctIds(py, docs) && Binds(q, field, v)
    ensures forall d | d in FullScan(py, docs, q) :: GetPath(d, field).Some?
    ensures IndexedScan(py, docs, q, Lookup(py, Field(field), docs, One(v))) == FullScan(py, docs, q)
      <==> Scalar(v) || forall d | d in FullScan(py, docs, q) :: py.repr(GetPath(d, field).value) == py.repr(v)
  {
    hide Matches, Lookup, IdOf, Binds, PyEq, KeyOf, Scalar;
    var ids := Lookup(py, Field(field), docs, One(v));
    forall d | d in docs && Matches(py, d, q) == Yes
      ensures GetPath(d, field).Some?
      ensures IdOf(py, d) in ids <==> Scalar(v) || py.repr(GetPath(d, field).value) == py.repr(v)
    {
      BoundFieldEquals(py, d, q, field, v);
      EqualKeys(py, GetPath(d, field).value, v);
      LookupFinds(py, Field(field), docs, One(v), d);
    }
    ScanMisses(py, docs, q, ids);
  }

  lemma ScanMisses(py: Python, docs: set<Document>, q: Query, ids: set<string>)
    requires HaveIds(docs)
    ensures IndexedScan(py, docs, q, ids) == FullScan(py, docs, q)
      <==> forall d | d in FullScan(py, docs, q) :: IdOf(py, d) in ids
  {
    hide Matches, IdOf;
    if forall d | d in FullScan(py, docs, q) :: IdOf(py, d) in ids {
      assert IndexedScan(py, docs, q, ids) == FullScan(py, docs, q);
    } else {
      var d :| d in FullScan(py, docs, q) && IdOf(py, d) !in ids;
      assert d !in IndexedScan(py, docs, q, ids);
    }
  }

  predicate AllScalar(vs: seq<Json>) {
    forall i | 0 <= i < |vs| :: Scalar(vs[i])
  }

  lemma EqualTupleKeys(py: Python, a: seq<Json>, vs: seq<Json>)
    requires |a| == |vs| && forall i | 0 <= i < |vs| :: PyEq(a[i], vs[i])
    ensures KeyOf(py, Tuple(a)) == KeyOf(py, Tuple(vs)) <==> AllScalar(vs) || py.reprTuple(a) == py.reprTuple(vs)
  {
    forall i | 0 <= i < |vs| ensures Scalar(a[i]) <==> Scalar(vs[i]) { assert PyEq(a[i], vs[i]); }
    if AllScalar(vs) {
      TupleKeys(py, a, vs);
    } else {
      var i :| 0 <= i < |vs| && !Scalar(vs[i]);
      assert !Scalar(a[i]);
    }
  }

  /** The same for a composite index all of whose fields the query binds: every value is a scalar, or
      every document selected prints the tuple of its values alike. */
  lemma CompositeContainerScan(py: Python, docs: set<Document>, q: Query, fields: seq<string>, vs: seq<Json>)
    requires HaveIds(docs) && DistinctIds(py, docs) && |fields| == |vs|
    requires forall i | 0 <= i < |fields| :: Binds(q, fields[i], vs[i])
    ensures forall d | d in FullScan(py, docs, q) :: FieldValues(d, fields).Some?
    ensures IndexedScan(py, docs, q, Lookup(py, Composite(fields), docs, Tuple(vs))) == FullScan(py, docs, q)
      <==> (AllScalar(vs)
        || forall d | d in FullScan(py, docs, q) :: py.reprTuple(FieldValues(d, fields).value) == py.reprTuple(vs))
  {
    hide Matches, Lookup, IdOf, Binds, PyEq, KeyOf, AllScalar;
    var ids := Lookup(py, Composite(fields), docs, Tuple(vs));
    forall d | d in docs && Matches(py, d, q) == Yes
      ensures FieldValues(d, fields).Some?
      ensures IdOf(py, d) in ids <==> AllScalar(vs) || py.reprTuple(FieldValues(d, fields).value) == py.reprTuple(vs)
    {
      BoundFieldsEqual(py, d, q, fields, vs);
      EqualTupleKeys(py, FieldValues(d, fields).value, vs);
      LookupFinds(py, Composite(fields), docs, Tuple(vs), d);
    }
    ScanMisses(py, docs, q, ids);
  }

  /** So a document is missed when equal containers print differently: as Python prints them, [True] equals [1]. */
  lemma ContainerMissed(py: Python, docs: set<Document>, field: string, d: Document)
    requires py.repr(Arr([Bool(true)])) == "[True]" && py.repr(Arr([Int(1)])) == "[1]"
    requires HaveIds(docs) && DistinctIds(py, docs) && d in docs && GetPath(d, field) == Some(Arr([Bool(true)]))
    ensures var q := Single(Equals(field, Arr([Int(1)])));
      d in FullScan(py, docs, q) && d !in IndexedScan(py, docs, q, Lookup(py, Field(field), docs, One(Arr([Int(1)]))))
  {
    hide Lookup, Matches;
    var v, w := Arr([Int(1)]), Arr([Bool(true)]);
    assert Norm(w).items == Norm(v).items;
    SingleClause(py, d, Equals(field, v));
    EqualKeys(py, w, v);
    LookupFinds(py, Field(field), docs, One(v), d);
    assert "[True]"[1] == 'T' && "[1]"[1] == '1';
  }
}
