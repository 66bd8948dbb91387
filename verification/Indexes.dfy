/** Hash indexes: buckets of document ids kept up to date in place. */
module Indexes {
  import opened Values
  import opened Paths

  /** A single-field or a composite index. */
  datatype Spec = Field(field: string) | Composite(fields: seq<string>)

  /** What is indexed: one value, or the tuple of a composite index. */
  datatype Indexed = One(v: Json) | Tuple(vs: seq<Json>)

  /** A normalised key. Numbers hash alike whatever their type, and what cannot be hashed is indexed
      by its representation, which is a string like any other. */
  datatype Key = NullKey | NumberKey(n: int) | TextKey(s: string) | TupleKey(vs: seq<Json>)

  function KeyOf(py: Python, value: Indexed): Key {
    match value
    case One(Null) => NullKey
    case One(Bool(b)) => NumberKey(NumberOf(Bool(b)))
    case One(Int(n)) => NumberKey(n)
    case One(Str(s)) => TextKey(s)
    case One(v) => TextKey(py.repr(v))
    case Tuple(vs) =>
      if forall i | 0 <= i < |vs| :: Scalar(vs[i]) then TupleKey(seq(|vs|, i requires 0 <= i < |vs| => Norm(vs[i])))
      else TextKey(py.reprTuple(vs))
  }

  /** The values of all fields, or None when one is missing. */
  function FieldValues(d: Document, fields: seq<string>): Option<seq<Json>> {
    if fields == [] then Some([])
    else match (GetPath(d, fields[0]), FieldValues(d, fields[1..]))
      case (Some(v), Some(vs)) => Some([v] + vs)
      case _ => None
  }

  function ValueOf(spec: Spec, d: Document): Option<Indexed> {
    match spec
    case Field(field) => (match GetPath(d, field) case Some(v) => Some(One(v)) case None => None)
    case Composite(fields) => (match FieldValues(d, fields) case Some(vs) => Some(Tuple(vs)) case None => None)
  }

  /** The key a document is indexed under; None when it is not indexed. */
  function DocKey(py: Python, spec: Spec, d: Document): Option<Key> {
    match ValueOf(spec, d) case Some(v) => Some(KeyOf(py, v)) case None => None
  }

  /** `str(document["_id"])`; stored documents have an `_id`. */
  function IdOf(py: Python, d: Document): string
    requires "_id" in d
  {
    StrOf(py, d["_id"])
  }

  type Buckets = map<Key, set<string>>

  function Bucket(values: Buckets, key: Key): set<string> {
    if key in values then values[key] else {}
  }

  /** A unique index refuses a key that another document has. */
  predicate Refuses(unique: bool, values: Buckets, key: Key, id: string) {
    unique && Bucket(values, key) - {id} != {}
  }

  function Added(values: Buckets, key: Key, id: string): Buckets {
    values[key := Bucket(values, key) + {id}]
  }

  function Removed(values: Buckets, key: Key, id: string): Buckets {
    if key !in values then values
    else if values[key] - {id} == {} then values - {key}
    else values[key := values[key] - {id}]
  }

  class HashIndex {
    const py: Python
    const spec: Spec
    const unique: bool
    var values: Buckets

    constructor (py: Python, spec: Spec, unique: bool)
      ensures this.py == py && this.spec == spec && this.unique == unique && values == map[]
    {
      this.py, this.spec, this.unique := py, spec, unique;
      values := map[];
    }

    /** False stands for a UniqueConstraintError. */
    method AddKey(value: Indexed, id: string) returns (ok: bool)
      modifies this`values
      ensures ok == !Refuses(unique, old(values), KeyOf(py, value), id)
      ensures values == if ok then Added(old(values), KeyOf(py, value), id) else old(values)
    {
      var normalized := KeyOf(py, value);
      // the default dictionary creates an empty bucket for a new key, which is never refused
      if normalized !in values {
        values := values[normalized := {}];
      }
      var existing := values[normalized] - {id};
      if unique && existing != {} {
        return false;
      }
      values := values[normalized := values[normalized] + {id}];
      return true;
    }

    method RemoveKey(value: Indexed, id: string)
      modifies this`values
      ensures values == Removed(old(values), KeyOf(py, value), id)
    {
      var normalized := KeyOf(py, value);
      if normalized !in values {
        return;
      }
      var ids := values[normalized] - {id};
      values := values[normalized := ids];
      if ids == {} {
        values := values - {normalized};
      }
    }

    method Lookup(value: Indexed) returns (ids: set<string>)
      ensures ids == Bucket(values, KeyOf(py, value))
    {
      var normalized := KeyOf(py, value);
      ids := if normalized in values then values[normalized] else {};
    }

    method Add(document: Document) returns (ok: bool)
      requires "_id" in document
      modifies this`values
      ensures ok == CanAdd(py, spec, unique, old(values), document)
      ensures values == if ok then AddDocument(py, spec, old(values), document) else old(values)
    {
      ok := true;
      var value := ValueOf(spec, document);
      if value.Some? {
        ok := AddKey(value.value, IdOf(py, document));
      }
    }

    method Remove(document: Document)
      requires "_id" in document
      modifies this`values
      ensures values == RemoveDocument(py, spec, old(values), document)
    {
      var value := ValueOf(spec, document);
      if value.Some? {
        RemoveKey(value.value, IdOf(py, document));
      }
    }
  }

  predicate CanAdd(py: Python, spec: Spec, unique: bool, values: Buckets, d: Document)
    requires "_id" in d
  {
    var key := DocKey(py, spec, d);
    key.Some? ==> !Refuses(unique, values, key.value, IdOf(py, d))
  }

  function AddDocument(py: Python, spec: Spec, values: Buckets, d: Document): Buckets
    requires "_id" in d
  {
    var key := DocKey(py, spec, d);
    if key.Some? then Added(values, key.value, IdOf(py, d)) else values
  }

  function RemoveDocument(py: Python, spec: Spec, values: Buckets, d: Document): Buckets
    requires "_id" in d
  {
    var key := DocKey(py, spec, d);
    if key.Some? then Removed(values, key.value, IdOf(py, d)) else values
  }

  // ---------- the inverse image ----------

  predicate HaveIds(docs: set<Document>) {
    forall d | d in docs :: "_id" in d
  }

  function Keys(py: Python, spec: Spec, docs: set<Document>): set<Key> {
    set d | d in docs && DocKey(py, spec, d).Some? :: DocKey(py, spec, d).value
  }

  function IdsUnder(py: Python, spec: Spec, docs: set<Document>, key: Key): set<string>
    requires HaveIds(docs)
  {
    set d | d in docs && DocKey(py, spec, d) == Some(key) :: IdOf(py, d)
  }

  /** For each key of the documents, the ids of the documents that have it; no empty bucket. */
  function Inverse(py: Python, spec: Spec, docs: set<Document>): (r: Buckets)
    requires HaveIds(docs)
    ensures forall key | key in r :: r[key] != {}
  {
    var r := map key | key in Keys(py, spec, docs) :: IdsUnder(py, spec, docs, key);
    assert forall key | key in r :: r[key] != {} by {
      forall key | key in r ensures r[key] != {} {
        var d :| d in docs && DocKey(py, spec, d) == Some(key);
        assert IdOf(py, d) in r[key];
      }
    }
    r
  }

  /** Documents are told apart by their ids. */
  predicate DistinctIds(py: Python, docs: set<Document>)
    requires HaveIds(docs)
  {
    forall d, e | d in docs && e in docs && IdOf(py, d) == IdOf(py, e) :: d == e
  }

  /** Adding a document to the inverse image gives the inverse image of one document more. */
  lemma AddToInverse(py: Python, spec: Spec, docs: set<Document>, d: Document)
    requires HaveIds(docs + {d})
    ensures AddDocument(py, spec, Inverse(py, spec, docs), d) == Inverse(py, spec, docs + {d})
  {
    hide DocKey, IdOf, Keys, IdsUnder;
    var before, after := Inverse(py, spec, docs), AddDocument(py, spec, Inverse(py, spec, docs), d);
    var all := Inverse(py, spec, docs + {d});
    forall key ensures key in after <==> key in all {
      AddOneKey(py, spec, docs, d, key);
    }
    forall key | key in all ensures after[key] == all[key] {
      AddOneKey(py, spec, docs, d, key);
    }
  }

  lemma AddOneKey(py: Python, spec: Spec, docs: set<Document>, d: Document, key: Key)
    requires HaveIds(docs + {d})
    ensures IdsUnder(py, spec, docs + {d}, key)
      == if DocKey(py, spec, d) == Some(key) then IdsUnder(py, spec, docs, key) + {IdOf(py, d)}
        else IdsUnder(py, spec, docs, key)
    ensures key in Keys(py, spec, docs) <==> IdsUnder(py, spec, docs, key) != {}
    ensures key in Keys(py, spec, docs + {d}) <==> IdsUnder(py, spec, docs + {d}, key) != {}
  {
    KeyHasIds(py, spec, docs, key);
    KeyHasIds(py, spec, docs + {d}, key);
    hide DocKey, IdOf, Keys;
  }

  lemma KeyHasIds(py: Python, spec: Spec, docs: set<Document>, key: Key)
    requires HaveIds(docs)
    ensures key in Keys(py, spec, docs) <==> IdsUnder(py, spec, docs, key) != {}
  {
    hide DocKey, IdOf;
    if key in Keys(py, spec, docs) {
      var e :| e in docs && DocKey(py, spec, e) == Some(key);
      assert IdOf(py, e) in IdsUnder(py, spec, docs, key);
    }
  }

  /** Removing one gives the inverse image of one document fewer. */
  lemma RemoveFromInverse(py: Python, spec: Spec, docs: set<Document>, d: Document)
    requires HaveIds(docs) && DistinctIds(py, docs) && d in docs
    ensures RemoveDocument(py, spec, Inverse(py, spec, docs), d) == Inverse(py, spec, docs - {d})
  {
    hide DocKey, IdOf, Keys, IdsUnder, DistinctIds;
    var before, after := Inverse(py, spec, docs), RemoveDocument(py, spec, Inverse(py, spec, docs), d);
    var less := Inverse(py, spec, docs - {d});
    forall key ensures key in after <==> key in less {
      RemoveOneKey(py, spec, docs, d, key);
    }
    forall key | key in less ensures after[key] == less[key] {
      RemoveOneKey(py, spec, docs, d, key);
    }
  }

  lemma RemoveOneKey(py: Python, spec: Spec, docs: set<Document>, d: Document, key: Key)
    requires HaveIds(docs) && DistinctIds(py, docs) && d in docs
    ensures IdsUnder(py, spec, docs - {d}, key)
      == if DocKey(py, spec, d) == Some(key) then IdsUnder(py, spec, docs, key) - {IdOf(py, d)}
        else IdsUnder(py, spec, docs, key)
    ensures key in Keys(py, spec, docs) <==> IdsUnder(py, spec, docs, key) != {}
    ensures key in Keys(py, spec, docs - {d}) <==> IdsUnder(py, spec, docs - {d}, key) != {}
  {
    KeyHasIds(py, spec, docs, key);
    KeyHasIds(py, spec, docs - {d}, key);
    hide DocKey, IdOf, Keys;
  }

  // ---------- histories ----------

  /** What happens to a collection: documents come, change and go. */
  datatype Change = Insert(d: Document) | Replace(was: Document, now: Document) | Delete(d: Document)

  datatype Indexing = Indexing(docs: set<Document>, values: Buckets)

  /** A change the collection accepts: new ids are new, and what is replaced or deleted is there. */
  predicate Proper(py: Python, docs: set<Document>, c: Change)
    requires HaveIds(docs)
  {
    match c
    case Insert(d) => "_id" in d && forall e | e in docs :: IdOf(py, e) != IdOf(py, d)
    case Replace(was, now) => was in docs && "_id" in now && IdOf(py, now) == IdOf(py, was)
    case Delete(d) => d in docs
  }

  /** One change and what it does to the index: an add, a remove and an add, or a remove. A change that a
      unique index refuses is rejected before anything is changed. */
  function Apply(py: Python, spec: Spec, unique: bool, s: Indexing, c: Change): Indexing
    requires HaveIds(s.docs) && Proper(py, s.docs, c)
  {
    match c
    case Insert(d) =>
      if CanAdd(py, spec, unique, s.values, d) then Indexing(s.docs + {d}, AddDocument(py, spec, s.values, d)) else s
    case Replace(was, now) =>
      var without := RemoveDocument(py, spec, s.values, was);
      if CanAdd(py, spec, unique, without, now)
      then Indexing(s.docs - {was} + {now}, AddDocument(py, spec, without, now)) else s
    case Delete(d) => Indexing(s.docs - {d}, RemoveDocument(py, spec, s.values, d))
  }

  ghost predicate History(py: Python, spec: Spec, unique: bool, cs: seq<Change>, states: seq<Indexing>) {
    |states| == |cs| + 1 && states[0] == Indexing({}, map[])
    && forall i | 0 <= i < |cs| ::
      HaveIds(states[i].docs) && Proper(py, states[i].docs, cs[i])
      && states[i + 1] == Apply(py, spec, unique, states[i], cs[i])
  }

  predicate OneToAKey(values: Buckets) {
    forall key, a, b | key in values && a in values[key] && b in values[key] :: a == b
  }

  /** The index is the inverse image of the current documents, and a unique one has one document to a key. */
  predicate Current(py: Python, spec: Spec, unique: bool, s: Indexing) {
    HaveIds(s.docs) && DistinctIds(py, s.docs) && s.values == Inverse(py, spec, s.docs)
    && (unique ==> OneToAKey(s.values))
  }

  lemma ApplyKeepsCurrent(py: Python, spec: Spec, unique: bool, s: Indexing, c: Change)
    requires Current(py, spec, unique, s) && Proper(py, s.docs, c)
    ensures Current(py, spec, unique, Apply(py, spec, unique, s, c))
  {
    match c
    case Insert(d) =>
      AddToInverse(py, spec, s.docs, d);
      if CanAdd(py, spec, unique, s.values, d) { AddKeepsUnique(py, spec, unique, s.values, d); }
    case Replace(was, now) =>
      var without := RemoveDocument(py, spec, s.values, was);
      RemoveFromInverse(py, spec, s.docs, was);
      RemoveKeepsUnique(py, spec, unique, s.values, was);
      AddToInverse(py, spec, s.docs - {was}, now);
      if CanAdd(py, spec, unique, without, now) { AddKeepsUnique(py, spec, unique, without, now); }
    case Delete(d) =>
      RemoveFromInverse(py, spec, s.docs, d);
      RemoveKeepsUnique(py, spec, unique, s.values, d);
  }

  lemma AddKeepsUnique(py: Python, spec: Spec, unique: bool, values: Buckets, d: Document)
    requires "_id" in d && CanAdd(py, spec, unique, values, d) && (unique ==> OneToAKey(values))
    ensures unique ==> OneToAKey(AddDocument(py, spec, values, d))
  {
    hide DocKey, IdOf;
    if unique && DocKey(py, spec, d).Some? {
      var key, id := DocKey(py, spec, d).value, IdOf(py, d);
      forall a | a in Bucket(values, key) ensures a == id {
        assert a !in Bucket(values, key) - {id};
      }
    }
  }

  lemma RemoveKeepsUnique(py: Python, spec: Spec, unique: bool, values: Buckets, d: Document)
    requires "_id" in d && (unique ==> OneToAKey(values))
    ensures unique ==> OneToAKey(RemoveDocument(py, spec, values, d))
  {
    hide DocKey, IdOf;
  }

  /** What `remove` and then `add` leave when nothing is checked first. */
  function ReplaceUnchecked(py: Python, spec: Spec, unique: bool, values: Buckets, was: Document, now: Document)
    : Buckets
    requires "_id" in was && "_id" in now
  {
    var without := RemoveDocument(py, spec, values, was);
    if CanAdd(py, spec, unique, without, now) then AddDocument(py, spec, without, now) else without
  }

  /** Without that check a replace whose add is refused has already removed the old entry: the index
      stays the same exactly when the replaced document was not indexed at all. */
  lemma RefusalNeedsPreflight(py: Python, spec: Spec, unique: bool, s: Indexing, was: Document, now: Document)
    requires Current(py, spec, unique, s) && Proper(py, s.docs, Replace(was, now))
    requires !CanAdd(py, spec, unique, RemoveDocument(py, spec, s.values, was), now)
    ensures ReplaceUnchecked(py, spec, unique, s.values, was, now) == s.values <==> DocKey(py, spec, was).None?
    ensures Apply(py, spec, unique, s, Replace(was, now)) == s
  {
    hide DocKey, IdOf, Inverse, DistinctIds, OneToAKey, CanAdd;
    if DocKey(py, spec, was).Some? {
      var key := DocKey(py, spec, was).value;
      InverseHolds(py, spec, s.docs, was, key);
      assert IdOf(py, was) in Bucket(s.values, key);
      assert IdOf(py, was) !in Bucket(RemoveDocument(py, spec, s.values, was), key);
    }
  }

  /** Two documents with unique values x and y; giving the first the value y is refused, and its entry is gone. */
  lemma RefusedReplace(py: Python)
    ensures var values: Buckets := map[TextKey("x") := {"a"}, TextKey("y") := {"b"}];
      var was: Document := map["_id" := Str("a"), "k" := Str("x")];
      ReplaceUnchecked(py, Field("k"), true, values, was, was["k" := Str("y")]) == map[TextKey("y") := {"b"}]
  {
    var was: Document := map["_id" := Str("a"), "k" := Str("x")];
    assert Split("k") == ["k"] by {
      assert "k"[1..] == "" && Split("") == [""] && [""][1..] == [] && ['k'] + "" == "k";
    }
    assert ["k"][1..] == [];
    assert Get(Obj(was["k" := Str("y")]), ["k"]) == Get(Str("y"), []);
    assert GetPath(was, "k") == Some(Str("x")) && GetPath(was["k" := Str("y")], "k") == Some(Str("y"));
    assert {"b"} - {"a"} == {"b"} && {"a"} - {"a"} == {};
  }

  lemma InverseHolds(py: Python, spec: Spec, docs: set<Document>, d: Document, key: Key)
    requires HaveIds(docs) && d in docs && DocKey(py, spec, d) == Some(key)
    ensures IdOf(py, d) in Bucket(Inverse(py, spec, docs), key)
  {
    hide DocKey, IdOf;
    assert key in Keys(py, spec, docs);
  }

  /** After any history of inserts, replaces and deletes the index is exactly the inverse image of the
      current documents, and a unique index never holds two documents under one key. */
  lemma {:induction false} HistoryIsInverse(py: Python, spec: Spec, unique: bool, cs: seq<Change>,
                                            states: seq<Indexing>, i: nat)
    requires History(py, spec, unique, cs, states) && i < |states|
    ensures Current(py, spec, unique, states[i])
  {
    hide Apply, Proper;
    if i == 0 {
      assert Inverse(py, spec, {}) == map[];
    } else {
      HistoryIsInverse(py, spec, unique, cs, states, i - 1);
      ApplyKeepsCurrent(py, spec, unique, states[i - 1], cs[i - 1]);
    }
  }

  /** A history: a document comes, changes its value and goes. */
  lemma SomeHistory(py: Python, spec: Spec, unique: bool, was: Document, now: Document) returns (states: seq<Indexing>)
    requires "_id" in was && "_id" in now && IdOf(py, now) == IdOf(py, was)
    ensures History(py, spec, unique, [Insert(was), Replace(was, now), Delete(now)], states)
    ensures states[1].docs == {was} && states[2].docs == {now} && states[3] == Indexing({}, map[])
  {
    hide DocKey, IdOf;
    var s0 := Indexing({}, map[]);
    assert CanAdd(py, spec, unique, map[], was);
    var s1 := Apply(py, spec, unique, s0, Insert(was));
    assert s1.docs == {was};
    var without := RemoveDocument(py, spec, s1.values, was);
    assert without == map[];
    var s2 := Apply(py, spec, unique, s1, Replace(was, now));
    assert s2.docs == {now};
    var s3 := Apply(py, spec, unique, s2, Delete(now));
    states := [s0, s1, s2, s3];
    var cs := [Insert(was), Replace(was, now), Delete(now)];
    assert cs[0] == Insert(was) && cs[1] == Replace(was, now) && cs[2] == Delete(now);
  }

  /** Another document is indexed under the key of d. */
  predicate Taken(py: Python, spec: Spec, docs: set<Document>, d: Document)
    requires HaveIds(docs) && "_id" in d
  {
    exists e | e in docs ::
      DocKey(py, spec, e).Some? && DocKey(py, spec, e) == DocKey(py, spec, d) && IdOf(py, e) != IdOf(py, d)
  }

  lemma CanAddUnlessTaken(py: Python, spec: Spec, unique: bool, docs: set<Document>, d: Document)
    requires HaveIds(docs) && "_id" in d
    ensures CanAdd(py, spec, unique, Inverse(py, spec, docs), d) <==> !(unique && Taken(py, spec, docs, d))
  {
    hide DocKey, IdOf;
    var values, id := Inverse(py, spec, docs), IdOf(py, d);
    if DocKey(py, spec, d).Some? {
      var key := DocKey(py, spec, d).value;
      if e :| e in docs && DocKey(py, spec, e) == Some(key) && IdOf(py, e) != id {
        InverseHolds(py, spec, docs, e, key);
        assert IdOf(py, e) in Bucket(values, key) - {id};
      } else {
        assert Bucket(values, key) - {id} == {};
      }
    }
  }

  /** A change goes through unless the index is unique and another document has the new key; the documents and the
      index then change together, and a refused change leaves both as they were. */
  lemma ChangeRefusedIffTaken(py: Python, spec: Spec, unique: bool, s: Indexing, c: Change)
    requires Current(py, spec, unique, s) && Proper(py, s.docs, c)
    ensures Apply(py, spec, unique, s, c).docs == (match c
      case Insert(d) => if unique && Taken(py, spec, s.docs, d) then s.docs else s.docs + {d}
      case Replace(was, now) =>
        if unique && Taken(py, spec, s.docs - {was}, now) then s.docs else s.docs - {was} + {now}
      case Delete(d) => s.docs - {d})
    ensures Apply(py, spec, unique, s, c).values == Inverse(py, spec, Apply(py, spec, unique, s, c).docs)
  {
    hide DocKey, IdOf, Inverse, CanAdd, Taken, DistinctIds, OneToAKey;
    ApplyKeepsCurrent(py, spec, unique, s, c);
    match c
    case Insert(d) => CanAddUnlessTaken(py, spec, unique, s.docs, d);
    case Replace(was, now) =>
      RemoveFromInverse(py, spec, s.docs, was);
      CanAddUnlessTaken(py, spec, unique, s.docs - {was}, now);
    case Delete(_) =>
  }

  // ---------- creating an index ----------

  function Elements(documents: seq<Document>): set<Document> {
    set d | d in documents
  }

  /** No two documents with different ids share a key. */
  predicate NoDuplicates(py: Python, spec: Spec, documents: seq<Document>)
    requires HaveIds(Elements(documents))
  {
    forall i, j | 0 <= i < |documents| && 0 <= j < |documents|
        && DocKey(py, spec, documents[i]).Some? && DocKey(py, spec, documents[i]) == DocKey(py, spec, documents[j]) ::
      IdOf(py, documents[i]) == IdOf(py, documents[j])
  }

  datatype Created = Index(index: HashIndex) | NoFields | Duplicate

  /** The loop of `create`: the index is built exactly when the documents allow it, and
      is then the inverse image of them, whatever their order. */
  method Build(py: Python, spec: Spec, unique: bool, documents: seq<Document>) returns (ok: bool, index: HashIndex)
    requires HaveIds(Elements(documents))
    ensures fresh(index) && index.py == py && index.spec == spec && index.unique == unique
    ensures ok <==> (unique ==> NoDuplicates(py, spec, documents))
    ensures ok ==> index.values == Inverse(py, spec, Elements(documents))
  {
    hide DocKey, IdOf;
    index := new HashIndex(py, spec, unique);
    assert Inverse(py, spec, {}) == map[];
    var i := 0;
    while i < |documents|
      invariant 0 <= i <= |documents| && HaveIds(Elements(documents[..i]))
      invariant index.values == Inverse(py, spec, Elements(documents[..i]))
      invariant unique ==> NoDuplicates(py, spec, documents[..i])
    {
      var d := documents[i];
      assert d in Elements(documents);
      assert documents[..i + 1] == documents[..i] + [d];
      assert Elements(documents[..i + 1]) == Elements(documents[..i]) + {d};
      AddToInverse(py, spec, Elements(documents[..i]), d);
      CanAddMeansNoDuplicate(py, spec, unique, documents, i);
      var added := index.Add(d);
      if !added {
        return false, index;
      }
      i := i + 1;
    }
    assert documents[..i] == documents;
    return true, index;
  }

  /** Adding the next document is refused exactly when an earlier one with another id has its key. */
  lemma CanAddMeansNoDuplicate(py: Python, spec: Spec, unique: bool, documents: seq<Document>, i: nat)
    requires HaveIds(Elements(documents)) && i < |documents| && HaveIds(Elements(documents[..i]))
    requires HaveIds(Elements(documents[..i + 1]))
    requires unique ==> NoDuplicates(py, spec, documents[..i])
    ensures var can := CanAdd(py, spec, unique, Inverse(py, spec, Elements(documents[..i])), documents[i]);
      (unique && !can ==> !NoDuplicates(py, spec, documents))
      && (unique && can ==> NoDuplicates(py, spec, documents[..i + 1]))
  {
    hide DocKey, IdOf;
    var d, docs := documents[i], Elements(documents[..i]);
    var values := Inverse(py, spec, docs);
    if unique && DocKey(py, spec, d).Some? {
      var key, id := DocKey(py, spec, d).value, IdOf(py, d);
      if Refuses(unique, values, key, id) {
        var other :| other in Bucket(values, key) - {id};
        var e :| e in docs && DocKey(py, spec, e) == Some(key) && IdOf(py, e) == other;
        var j :| 0 <= j < i && documents[j] == e;
        assert DocKey(py, spec, documents[i]) == DocKey(py, spec, documents[j]);
      } else {
        forall j | 0 <= j < i && DocKey(py, spec, documents[j]) == Some(key) ensures IdOf(py, documents[j]) == id {
          assert documents[..i][j] in docs;
          assert key in values && IdOf(py, documents[j]) in values[key];
          assert IdOf(py, documents[j]) !in Bucket(values, key) - {id};
        }
        ExtendNoDuplicates(py, spec, documents, i);
      }
    } else if unique {
      ExtendNoDuplicates(py, spec, documents, i);
    }
  }

  lemma ExtendNoDuplicates(py: Python, spec: Spec, documents: seq<Document>, i: nat)
    requires HaveIds(Elements(documents)) && i < |documents| && HaveIds(Elements(documents[..i]))
    requires HaveIds(Elements(documents[..i + 1])) && NoDuplicates(py, spec, documents[..i])
    requires forall j | 0 <= j < i && DocKey(py, spec, documents[i]).Some?
        && DocKey(py, spec, documents[j]) == DocKey(py, spec, documents[i]) ::
            IdOf(py, documents[j]) == IdOf(py, documents[i])
    ensures NoDuplicates(py, spec, documents[..i + 1])
  {
    hide DocKey, IdOf;
    var now, before := documents[..i + 1], documents[..i];
    assert forall j | 0 <= j < i :: now[j] == before[j];
  }

  /** `IndexManager`: declared indexes by what they index. */
  class IndexManager {
    const py: Python
    var indexes: map<Spec, HashIndex>

    constructor (py: Python)
      ensures this.py == py && indexes == map[]
    {
      this.py := py;
      indexes := map[];
    }

    /** `create` and `create_composite`: an index that exists is returned as it is; otherwise creation succeeds
        exactly when the documents allow it, and on failure no index is added, dropped or replaced. */
    method Create(spec: Spec, unique: bool, documents: seq<Document>) returns (r: Created)
      requires HaveIds(Elements(documents))
      modifies this`indexes
      ensures spec in old(indexes) ==> r == Index(old(indexes)[spec]) && indexes == old(indexes)
      ensures spec !in old(indexes) ==>
          if spec == Composite([]) then r == NoFields
          else if unique && !NoDuplicates(py, spec, documents) then r == Duplicate
          else r.Index? && fresh(r.index) && r.index.spec == spec && r.index.unique == unique
               && r.index.values == Inverse(py, spec, Elements(documents))
      ensures indexes == if r.Index? then old(indexes)[spec := r.index] else old(indexes)
    {
      if spec in indexes {
        return Index(indexes[spec]);
      }
      if spec == Composite([]) {
        return NoFields;
      }
      var ok, index := Build(py, spec, unique, documents);
      if !ok {
        return Duplicate;
      }
      indexes := indexes[spec := index];
      return Index(index);
    }

    method Drop(spec: Spec) returns (dropped: bool)
      modifies this`indexes
      ensures dropped == (spec in old(indexes)) && indexes == old(indexes) - {spec}
    {
      dropped := spec in indexes;
      indexes := indexes - {spec};
    }
  }
}
