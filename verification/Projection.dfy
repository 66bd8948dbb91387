/** Projection: the least sub-document that reads like the original on the requested paths. */
module Projection {
  import opened Values
  import opened Paths

  // ---------- sub-documents ----------

  /** a keeps some of the fields of b, at any depth; anything but a dict is kept whole. */
  predicate Sub(a: Json, b: Json) {
    if a.Obj? && b.Obj? then forall k | k in a.fields :: k in b.fields && Sub(a.fields[k], b.fields[k])
    else a == b
  }

  lemma {:induction false} SubReflexive(a: Json)
    ensures Sub(a, a)
  {
    if a.Obj? {
      forall k | k in a.fields ensures Sub(a.fields[k], a.fields[k]) { SubReflexive(a.fields[k]); }
    }
  }

  lemma {:induction false} SubAntisymmetric(a: Json, b: Json)
    requires Sub(a, b) && Sub(b, a)
    ensures a == b
  {
    if a.Obj? && b.Obj? {
      forall k | k in a.fields ensures k in b.fields && a.fields[k] == b.fields[k] {
        SubAntisymmetric(a.fields[k], b.fields[k]);
      }
      assert a.fields.Keys == b.fields.Keys;
      assert a.fields == b.fields;
    }
  }

  /** What a sub-document reads, the document reads too, as a sub-document of it. */
  lemma {:induction false} SubGet(a: Json, b: Json, parts: seq<string>)
    requires Sub(a, b) && Get(a, parts).Some?
    ensures Get(b, parts).Some? && Sub(Get(a, parts).value, Get(b, parts).value)
    decreases |parts|
  {
    if parts != [] { SubGet(a.fields[parts[0]], b.fields[parts[0]], parts[1..]); }
  }

  /** Copying one path's value into a sub-document keeps it one. */
  lemma {:induction false} SubSet(r: Document, d: Document, parts: Path, v: Json)
    requires Sub(Obj(r), Obj(d)) && Get(Obj(d), parts) == Some(v)
    ensures Sub(Obj(Set(r, parts, v)), Obj(d))
    decreases |parts|
  {
    if |parts| == 1 {
      SubReflexive(v);
    } else {
      var part := parts[0];
      assert part in d && d[part].Obj?;
      assert Sub(Obj(Child(r, part)), d[part]) by {
        if part in r { assert Sub(r[part], d[part]); }
      }
      SubSet(Child(r, part), d[part].fields, parts[1..], v);
    }
  }

  /** ... and loses nothing. */
  lemma {:induction false} SetGrows(r: Document, d: Document, parts: Path, v: Json)
    requires Sub(Obj(r), Obj(d)) && Get(Obj(d), parts) == Some(v)
    ensures Sub(Obj(r), Obj(Set(r, parts, v)))
    decreases |parts|
  {
    var part := parts[0];
    forall k | k in r ensures Sub(r[k], Set(r, parts, v)[k]) {
      if k != part {
        SubReflexive(r[k]);
      } else {
        assert Sub(r[part], d[part]);
        if |parts| > 1 {
          SetGrows(Child(r, part), d[part].fields, parts[1..], v);
        }
      }
    }
  }

  // ---------- projection ----------

  /** The loop of `project`: each requested path that the document has is copied. */
  function Copy(d: Document, fields: seq<string>): Document {
    if fields == [] then map[] else
    var before := Copy(d, fields[..|fields| - 1]);
    var field := fields[|fields| - 1];
    match GetPath(d, field)
    case None => before
    case Some(v) => SetPath(before, field, v)
  }

  function WithId(d: Document, r: Document): Document {
    if "_id" in d && "_id" !in r then r["_id" := d["_id"]] else r
  }

  /** No or no fields requested: the whole document. */
  function Projected(d: Document, fields: seq<string>): Document {
    if fields == [] then d else WithId(d, Copy(d, fields))
  }

  method Project(document: Document, fields: seq<string>) returns (result: Document)
    ensures result == Projected(document, fields)
    ensures fields == [] ==> result == document
  {
    if fields == [] {
      return document;
    }
    result := map[];
    for i := 0 to |fields|
      invariant result == Copy(document, fields[..i])
    {
      assert fields[..i + 1][..i] == fields[..i];
      var value := GetPath(document, fields[i]);
      if value.Some? {
        result := SetPath(result, fields[i], value.value);
      }
    }
    assert fields[..|fields|] == fields;
    if "_id" in document && "_id" !in result {
      result := result["_id" := document["_id"]];
    }
  }

  // ---------- least sub-document ----------

  /** x reads like d on the path. */
  predicate Reads(x: Document, d: Document, parts: seq<string>) {
    Get(Obj(x), parts) == Get(Obj(d), parts)
  }

  predicate ReadsAll(x: Document, d: Document, fields: seq<string>) {
    forall i | 0 <= i < |fields| :: Reads(x, d, Split(fields[i]))
  }

  /** Reading like the document is kept by growing inside it. */
  lemma ReadsGrows(x: Document, y: Document, d: Document, parts: seq<string>)
    requires Sub(Obj(x), Obj(y)) && Sub(Obj(y), Obj(d)) && Reads(x, d, parts)
    ensures Reads(y, d, parts)
  {
    if Get(Obj(d), parts).Some? {
      SubGet(Obj(x), Obj(y), parts);
      SubGet(Obj(y), Obj(d), parts);
      SubAntisymmetric(Get(Obj(y), parts).value, Get(Obj(d), parts).value);
    } else if Get(Obj(y), parts).Some? {
      SubGet(Obj(y), Obj(d), parts);
    }
  }

  lemma {:induction false} CopySound(d: Document, fields: seq<string>)
    ensures Sub(Obj(Copy(d, fields)), Obj(d)) && ReadsAll(Copy(d, fields), d, fields)
  {
    if fields != [] {
      var n := |fields| - 1;
      var before, after, parts := Copy(d, fields[..n]), Copy(d, fields), Split(fields[n]);
      CopySound(d, fields[..n]);
      var v := Get(Obj(d), parts);
      if v.Some? {
        SubSet(before, d, parts, v.value);
        SetGrows(before, d, parts, v.value);
        GetSet(before, parts, v.value, []);
        assert parts + [] == parts;
      } else {
        SubReflexive(Obj(before));
        if Get(Obj(after), parts).Some? { SubGet(Obj(after), Obj(d), parts); }
      }
      forall i | 0 <= i < n ensures Reads(after, d, Split(fields[i])) {
        assert Reads(before, d, Split(fields[..n][i]));
        ReadsGrows(before, after, d, Split(fields[i]));
      }
    }
  }

  lemma {:induction false} CopyLeast(d: Document, fields: seq<string>, x: Document)
    requires Sub(Obj(x), Obj(d)) && ReadsAll(x, d, fields)
    ensures Sub(Obj(Copy(d, fields)), Obj(x))
  {
    if fields != [] {
      var n := |fields| - 1;
      assert ReadsAll(x, d, fields[..n]) by {
        forall i | 0 <= i < n ensures Reads(x, d, Split(fields[..n][i])) { assert Reads(x, d, Split(fields[i])); }
      }
      CopyLeast(d, fields[..n], x);
      assert Reads(x, d, Split(fields[n]));
      if GetPath(d, fields[n]).Some? {
        SubSet(Copy(d, fields[..n]), x, Split(fields[n]), GetPath(d, fields[n]).value);
      }
    }
  }

  /** No requested path that the document has starts at `_id`. */
  predicate IdAlone(d: Document, fields: seq<string>) {
    forall f | f in fields && GetPath(d, f).Some? :: Split(f)[0] != "_id"
  }

  /** The requested paths reach all of the value v at the prefix: one leads to it, or v is a
      dict with fields and they reach all of each. */
  predicate CoversAll(prefix: seq<string>, v: Json, fields: seq<string>)
    decreases v
  {
    (exists i | 0 <= i < |fields| :: Split(fields[i]) == prefix)
    || (v.Obj? && v.fields != map[] && forall k | k in v.fields :: CoversAll(prefix + [k], v.fields[k], fields))
  }

  /** The requested paths leave `_id` alone or reach all of it. */
  predicate IdKept(d: Document, fields: seq<string>) {
    IdAlone(d, fields) || ("_id" in d && CoversAll(["_id"], d["_id"], fields))
  }

  lemma {:induction false} SplitPlain(path: string)
    requires '.' !in path
    ensures Split(path) == [path]
  {
    if path != "" {
      SplitPlain(path[1..]);
      assert path[0] in path;
      assert path == [path[0]] + path[1..];
    }
  }

  /** A scalar `_id` is always kept, and a dict when it is requested. */
  lemma ScalarIdKept(d: Document, fields: seq<string>)
    requires "_id" in d && d["_id"].Obj? ==> "_id" in fields
    ensures IdKept(d, fields)
  {
    if f :| f in fields && GetPath(d, f).Some? && Split(f)[0] == "_id" {
      var parts := Split(f);
      assert parts == ["_id"] + parts[1..];
      assert Get(Obj(d), parts) == if "_id" in d then Get(d["_id"], parts[1..]) else None;
      SplitPlain("_id");
      var g := if d["_id"].Obj? then "_id" else f;
      assert d["_id"].Obj? || parts[1..] == [];
      var i :| 0 <= i < |fields| && fields[i] == g;
      assert Split(fields[i]) == ["_id"];
    }
  }

  /** Reading a top-level field. */
  lemma ReadsKey(x: Document, d: Document, k: string)
    ensures Reads(x, d, [k]) <==> (k in x <==> k in d) && (k in d ==> k in x && x[k] == d[k])
  {
    assert [k][1..] == [];
    assert Get(Obj(x), [k]) == if k in x then Some(x[k]) else None;
    assert Get(Obj(d), [k]) == if k in d then Some(d[k]) else None;
  }

  /** A copy has an `_id` only if a requested path starts there. */
  lemma {:induction false} CopiedId(d: Document, fields: seq<string>)
    requires "_id" in Copy(d, fields)
    ensures exists f :: f in fields && GetPath(d, f).Some? && Split(f)[0] == "_id"
  {
    var n := |fields| - 1;
    if "_id" in Copy(d, fields[..n]) {
      CopiedId(d, fields[..n]);
      var f :| f in fields[..n] && GetPath(d, f).Some? && Split(f)[0] == "_id";
      assert f in fields;
    } else {
      assert fields[n] in fields;
    }
  }

  /** A sub-document that reads the requested paths like the document does so on every value they reach all of. */
  lemma {:induction false} CoveredReads(x: Document, d: Document, fields: seq<string>, prefix: seq<string>, v: Json)
    requires Sub(Obj(x), Obj(d)) && ReadsAll(x, d, fields)
    requires Get(Obj(d), prefix) == Some(v) && CoversAll(prefix, v, fields)
    ensures Get(Obj(x), prefix) == Some(v)
    decreases v
  {
    if i :| 0 <= i < |fields| && Split(fields[i]) == prefix {
      assert Reads(x, d, Split(fields[i]));
    } else {
      var k0 :| k0 in v.fields;
      forall k | k in v.fields
        ensures Get(Obj(x), prefix).Some? && Get(Get(Obj(x), prefix).value, [k]) == Some(v.fields[k])
      {
        StepRead(Obj(d), prefix, v, k);
        CoveredReads(x, d, fields, prefix + [k], v.fields[k]);
        GetThrough(Obj(x), prefix, [k]);
      }
      var w := Get(Obj(x), prefix).value;
      SubGet(Obj(x), Obj(d), prefix);
      forall k | k in v.fields ensures w.Obj? && k in w.fields && w.fields[k] == v.fields[k] { ReadOne(w, k); }
      assert w.Obj? by { ReadOne(w, k0); }
      assert w.fields == v.fields;
    }
  }

  lemma ReadOne(w: Json, k: string)
    ensures Get(w, [k]) == if w.Obj? && k in w.fields then Some(w.fields[k]) else None
  {
    assert [k][1..] == [];
  }

  lemma StepRead(d: Json, prefix: seq<string>, v: Json, k: string)
    requires Get(d, prefix) == Some(v)
    ensures Get(d, prefix + [k]) == if v.Obj? && k in v.fields then Some(v.fields[k]) else None
  {
    GetThrough(d, prefix, [k]);
    ReadOne(v, k);
  }

  /** Where the requested paths do not reach all of a value, an end of it lies on none of them. */
  lemma {:induction false} UncoveredEnd(d: Document, fields: seq<string>, prefix: Path, v: Json) returns (q: Path)
    requires Get(Obj(d), prefix) == Some(v) && !CoversAll(prefix, v, fields)
    requires forall i | 0 <= i < |fields| :: !(Split(fields[i]) < prefix)
    ensures prefix <= q && Get(Obj(d), q).Some?
    ensures forall below | below != [] :: Get(Get(Obj(d), q).value, below) == None
    ensures forall i | 0 <= i < |fields| :: !(Split(fields[i]) <= q)
    decreases v
  {
    if v.Obj? && v.fields != map[] {
      var k :| k in v.fields && !CoversAll(prefix + [k], v.fields[k], fields);
      StepRead(Obj(d), prefix, v, k);
      forall i | 0 <= i < |fields| ensures !(Split(fields[i]) < prefix + [k]) {
        NotAbove(Split(fields[i]), prefix, k);
      }
      q := UncoveredEnd(d, fields, prefix + [k], v.fields[k]);
      assert prefix <= prefix + [k];
    } else {
      q := prefix;
    }
  }

  lemma NotAbove(p: seq<string>, prefix: seq<string>, k: string)
    requires !(p < prefix) && p != prefix
    ensures !(p < prefix + [k])
  {}

  lemma {:induction false} DeleteSub(d: Document, parts: Path)
    ensures Sub(Obj(Delete(d, parts).0), Obj(d))
    decreases |parts|
  {
    SubReflexive(Obj(d));
    forall k | k in d ensures Sub(d[k], d[k]) { SubReflexive(d[k]); }
    if |parts| > 1 && parts[0] in d && d[parts[0]].Obj? { DeleteSub(d[parts[0]].fields, parts[1..]); }
  }

  /** Taking away an end that lies on no requested path is not noticed on them. */
  lemma DeletedReads(d: Document, fields: seq<string>, q: Path)
    requires Get(Obj(d), q).Some? && forall below | below != [] :: Get(Get(Obj(d), q).value, below) == None
    requires forall i | 0 <= i < |fields| :: !(Split(fields[i]) <= q)
    ensures ReadsAll(Delete(d, q).0, d, fields)
  {
    forall i | 0 <= i < |fields| ensures Reads(Delete(d, q).0, d, Split(fields[i])) {
      var p := Split(fields[i]);
      if q <= p {
        assert p == q + p[|q|..];
        DeleteRemoves(d, q, p[|q|..]);
        GetThrough(Obj(d), q, p[|q|..]);
      } else {
        DeleteUnrelated(d, q, p);
      }
    }
  }

  /** Hence the copied paths miss a part of the value. */
  lemma UncoveredIsLost(d: Document, fields: seq<string>)
    requires "_id" in d && !CoversAll(["_id"], d["_id"], fields)
    ensures !Reads(Copy(d, fields), d, ["_id"])
  {
    StepRead(Obj(d), [], Obj(d), "_id");
    assert [] + ["_id"] == ["_id"];
    var q := UncoveredEnd(d, fields, ["_id"], d["_id"]);
    var x, c := Delete(d, q).0, Copy(d, fields);
    DeleteSub(d, q);
    DeletedReads(d, fields, q);
    CopyLeast(d, fields, x);
    DeleteRemoves(d, q, []);
    assert q + [] == q && ["_id"] + q[1..] == q;
    if Reads(c, d, ["_id"]) {
      GetThrough(Obj(c), ["_id"], q[1..]);
      GetThrough(Obj(d), ["_id"], q[1..]);
      SubGet(Obj(c), Obj(x), q);
    }
  }

  /** The projection reads `_id` as the document does exactly when the requested paths leave it alone or
      reach all of it. */
  lemma ProjectedId(d: Document, fields: seq<string>)
    requires fields != []
    ensures Reads(Projected(d, fields), d, ["_id"]) <==> IdKept(d, fields)
  {
    var c, r := Copy(d, fields), Projected(d, fields);
    CopySound(d, fields);
    ReadsKey(r, d, "_id");
    ReadsKey(c, d, "_id");
    if "_id" in c {
      CopiedId(d, fields);
      if CoversAll(["_id"], d["_id"], fields) {
        ReadOne(Obj(d), "_id");
        CoveredReads(c, d, fields, ["_id"], d["_id"]);
      } else {
        UncoveredIsLost(d, fields);
      }
    } else {
      CopiedIdBack(d, fields);
    }
  }

  lemma CopiedIdBack(d: Document, fields: seq<string>)
    requires "_id" !in Copy(d, fields)
    ensures IdAlone(d, fields)
  {
    CopySound(d, fields);
    forall f | f in fields && GetPath(d, f).Some? ensures Split(f)[0] != "_id" {
      var i :| 0 <= i < |fields| && fields[i] == f;
      assert Reads(Copy(d, fields), d, Split(fields[i]));
    }
  }

  /** The copied paths and the projection with its `_id` are sub-documents, one of the other. */
  lemma ProjectedSound(d: Document, fields: seq<string>)
    requires fields != []
    ensures Sub(Obj(Copy(d, fields)), Obj(Projected(d, fields))) && Sub(Obj(Projected(d, fields)), Obj(d))
    ensures ReadsAll(Projected(d, fields), d, fields)
  {
    var copy, r := Copy(d, fields), Projected(d, fields);
    CopySound(d, fields);
    if "_id" in d { SubReflexive(d["_id"]); }
    assert Sub(Obj(copy), Obj(r)) by {
      forall k | k in copy ensures Sub(copy[k], r[k]) { SubReflexive(copy[k]); }
    }
    forall i | 0 <= i < |fields| ensures Reads(r, d, Split(fields[i])) {
      ReadsGrows(copy, r, d, Split(fields[i]));
    }
  }

  /** Without a request the whole document is given. Otherwise the projection is a sub-document that reads the same on
      every requested path; it reads `_id` the same exactly when that is kept; and it is contained in every
      sub-document that reads the same on all of them. */
  lemma ProjectionLeast(d: Document, fields: seq<string>)
    ensures fields == [] ==> Projected(d, fields) == d
    ensures Sub(Obj(Projected(d, fields)), Obj(d)) && ReadsAll(Projected(d, fields), d, fields)
    ensures fields != [] ==> (Reads(Projected(d, fields), d, ["_id"]) <==> IdKept(d, fields))
    ensures fields != [] ==> forall x: Document ::
        Sub(Obj(x), Obj(d)) && ReadsAll(x, d, fields) && Reads(x, d, ["_id"]) ==> Sub(Obj(Projected(d, fields)), Obj(x))
  {
    var r := Projected(d, fields);
    if fields == [] {
      SubReflexive(Obj(d));
    } else {
      ProjectedSound(d, fields);
      ProjectedId(d, fields);
      forall x: Document | Sub(Obj(x), Obj(d)) && ReadsAll(x, d, fields) && Reads(x, d, ["_id"])
        ensures Sub(Obj(r), Obj(x))
      {
        CopyLeast(d, fields, x);
        ReadsKey(x, d, "_id");
        if "_id" in d { SubReflexive(d["_id"]); }
      }
    }
  }

  /** Order, repetition and overlap of the fields do not matter: two requests that
      cover each other's paths by prefixes project alike. */
  lemma ProjectionOrderFree(d: Document, f: seq<string>, g: seq<string>)
    requires forall i | 0 <= i < |g| :: Covered(f, g[i])
    requires forall i | 0 <= i < |f| :: Covered(g, f[i])
    ensures Projected(d, f) == Projected(d, g)
  {
    if f == [] || g == [] {
      assert g != [] ==> Covered(f, g[0]);
      assert f != [] ==> Covered(g, f[0]);
    } else {
      CopySound(d, f);
      CopySound(d, g);
      ReadsCovered(Copy(d, f), d, f, g);
      ReadsCovered(Copy(d, g), d, g, f);
      CopyLeast(d, f, Copy(d, g));
      CopyLeast(d, g, Copy(d, f));
      SubAntisymmetric(Obj(Copy(d, f)), Obj(Copy(d, g)));
    }
  }

  /** Some requested path leads to the given one. */
  predicate Covered(fields: seq<string>, field: string) {
    exists i | 0 <= i < |fields| :: Split(fields[i]) <= Split(field)
  }

  lemma ReadsCovered(x: Document, d: Document, f: seq<string>, g: seq<string>)
    requires ReadsAll(x, d, f) && forall i | 0 <= i < |g| :: Covered(f, g[i])
    ensures ReadsAll(x, d, g)
  {
    forall i | 0 <= i < |g| ensures Reads(x, d, Split(g[i])) {
      assert Covered(f, g[i]);
      var j :| 0 <= j < |f| && Split(f[j]) <= Split(g[i]);
      assert Reads(x, d, Split(f[j]));
      var p, q := Split(f[j]), Split(g[i]);
      GetThrough(Obj(x), p, q[|p|..]);
      GetThrough(Obj(d), p, q[|p|..]);
      assert p + q[|p|..] == q;
    }
  }

  lemma {:induction false} GetThrough(v: Json, p: seq<string>, q: seq<string>)
    ensures Get(v, p + q) == match Get(v, p) case None => None case Some(w) => Get(w, q)
    decreases |p|
  {
    if p == [] {
      assert p + q == q;
    } else if v.Obj? && p[0] in v.fields {
      assert (p + q)[1..] == p[1..] + q;
      GetThrough(v.fields[p[0]], p[1..], q);
    }
  }

  /** Projecting twice is projecting once. */
  lemma ProjectionIdempotent(d: Document, fields: seq<string>)
    ensures Projected(Projected(d, fields), fields) == Projected(d, fields)
  {
    if fields != [] {
      var r, c := Projected(d, fields), Copy(d, fields);
      var cc := Copy(r, fields);
      ProjectedSound(d, fields);
      CopySound(d, fields);
      CopySound(r, fields);
      SubTransitive(Obj(cc), Obj(r), Obj(d));
      forall i | 0 <= i < |fields| ensures Reads(cc, d, Split(fields[i])) && Reads(c, r, Split(fields[i])) {
        assert Reads(cc, r, Split(fields[i])) && Reads(r, d, Split(fields[i])) && Reads(c, d, Split(fields[i]));
      }
      CopyLeast(d, fields, cc);
      CopyLeast(r, fields, c);
      SubAntisymmetric(Obj(c), Obj(cc));
    }
  }

  lemma {:induction false} SubTransitive(a: Json, b: Json, c: Json)
    requires Sub(a, b) && Sub(b, c)
    ensures Sub(a, c)
  {
    if a.Obj? && b.Obj? && c.Obj? {
      forall k | k in a.fields ensures k in c.fields && Sub(a.fields[k], c.fields[k]) {
        SubTransitive(a.fields[k], b.fields[k], c.fields[k]);
      }
    }
  }

  /** A request for one path below a dict `_id` loses the rest of it. */
  lemma CutId(d: Document, field: string, a: string, b: string, v: Json, w: Json)
    requires d == map["_id" := Obj(map[a := v, b := w])] && a != b && Split(field) == ["_id", a]
    ensures !IdKept(d, [field]) && Projected(d, [field]) == map["_id" := Obj(map[a := v])]
  {
    var parts := ["_id", a];
    assert parts[1..] == [a] && [a][1..] == [];
    assert Get(Obj(d), parts) == Get(d["_id"], [a]) == Some(v);
    assert field in [field] && [field][..0] == [];
    assert Set(map[], [a], v) == map[a := v];
    assert Set(map[], parts, v) == map["_id" := Obj(map[a := v])];
    assert Copy(d, [field]) == Set(map[], parts, v);
    ReadsKey(Projected(d, [field]), d, "_id");
    assert b in d["_id"].fields;
    ProjectedId(d, [field]);
  }
}
