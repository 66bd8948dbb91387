/** Dotted paths into nested documents: reading, writing and deleting, as functions on values.
    HeapPaths shows that the in-place updates do the same. */
module Paths {
  import opened Values

  type Path = p: seq<string> | p != [] witness [""]

  /** `path.split(".")`. */
  function Split(path: string): Path {
    if path == "" then [""]
    else
      var rest := Split(path[1..]);
      if path[0] == '.' then [""] + rest else [[path[0]] + rest[0]] + rest[1..]
  }

  /** The value at the end of the path; None when it is missing. */
  function Get(v: Json, parts: seq<string>): Option<Json> {
    if parts == [] then Some(v)
    else if v.Obj? && parts[0] in v.fields then Get(v.fields[parts[0]], parts[1..])
    else None
  }

  function Child(m: Document, part: string): Document {
    if part in m && m[part].Obj? then m[part].fields else map[]
  }

  /** A missing or non-dict intermediate is replaced by an empty dict. */
  function Set(m: Document, parts: Path, value: Json): Document
    decreases |parts|
  {
    if |parts| == 1 then m[parts[0] := value]
    else m[parts[0] := Obj(Set(Child(m, parts[0]), parts[1..], value))]
  }

  /** The document without the path, and whether the path was there. */
  function Delete(m: Document, parts: Path): (Document, bool)
    decreases |parts|
  {
    if |parts| == 1 then (m - {parts[0]}, parts[0] in m)
    else if parts[0] in m && m[parts[0]].Obj? then
      var (inner, deleted) := Delete(m[parts[0]].fields, parts[1..]);
      (m[parts[0] := Obj(inner)], deleted)
    else (m, false)
  }

  function GetPath(document: Document, path: string): Option<Json> {
    Get(Obj(document), Split(path))
  }

  function SetPath(document: Document, path: string, value: Json): Document {
    Set(document, Split(path), value)
  }

  predicate Related(p: seq<string>, q: seq<string>) {
    p <= q || q <= p
  }

  // ---------- splitting ----------

  function Joined(parts: Path): string
    decreases |parts|
  {
    if |parts| == 1 then parts[0] else parts[0] + "." + Joined(parts[1..])
  }

  /** No part contains a dot, and joining the parts gives the path back. */
  lemma {:induction false} SplitJoined(path: string)
    ensures Joined(Split(path)) == path && forall i | 0 <= i < |Split(path)| :: '.' !in Split(path)[i]
  {
    if path != "" {
      SplitJoined(path[1..]);
      var rest := Split(path[1..]);
      if path[0] == '.' {
        assert Split(path)[1..] == rest;
      } else {
        assert Split(path)[1..] == rest[1..];
      }
    }
  }

  // ---------- laws of writing ----------

  /** Reading the path that was set, or a path below it, reads the value set. */
  lemma {:induction false} GetSet(m: Document, parts: Path, value: Json, below: seq<string>)
    ensures Get(Obj(Set(m, parts, value)), parts + below) == Get(value, below)
    decreases |parts|
  {
    assert (parts + below)[1..] == parts[1..] + below;
    if |parts| == 1 {
      assert parts[1..] + below == below;
    } else {
      GetSet(Child(m, parts[0]), parts[1..], value, below);
    }
  }

  /** Every path that neither leads to the one set nor goes on from it reads as before, even
      when an intermediate that was no dict was replaced. */
  lemma {:induction false} GetSetUnrelated(m: Document, parts: Path, value: Json, q: seq<string>)
    requires !Related(parts, q)
    ensures Get(Obj(Set(m, parts, value)), q) == Get(Obj(m), q)
    decreases |parts|
  {
    if parts[0] == q[0] {
      UnrelatedTail(parts, q);
      GetSetUnrelated(Child(m, parts[0]), parts[1..], value, q[1..]);
      assert q[1..] != [];
    }
  }

  lemma UnrelatedTail(p: seq<string>, q: seq<string>)
    requires !Related(p, q) && p != [] && q != [] && p[0] == q[0]
    ensures p[1..] != [] && q[1..] != [] && !Related(p[1..], q[1..])
  {
    assert p == [p[0]] + p[1..] && q == [q[0]] + q[1..];
  }

  /** The second write to a path wins. */
  lemma {:induction false} SetSet(m: Document, parts: Path, v: Json, w: Json)
    ensures Set(Set(m, parts, v), parts, w) == Set(m, parts, w)
    decreases |parts|
  {
    if |parts| > 1 { SetSet(Child(m, parts[0]), parts[1..], v, w); }
  }

  /** Writing what is there changes nothing. */
  lemma {:induction false} SetGet(m: Document, parts: Path, v: Json)
    requires Get(Obj(m), parts) == Some(v)
    ensures Set(m, parts, v) == m
    decreases |parts|
  {
    if |parts| > 1 {
      assert m[parts[0]].Obj?;
      SetGet(Child(m, parts[0]), parts[1..], v);
    }
  }

  function FieldsOf(v: Option<Json>): Document {
    if v.Some? && v.value.Obj? then v.value.fields else map[]
  }

  /** The dict that the path's last part was set in has that one field changed; it is new where there was no dict. */
  lemma {:induction false} SetInParent(m: Document, above: seq<string>, last: string, value: Json)
    ensures Get(Obj(Set(m, above + [last], value)), above) == Some(Obj(FieldsOf(Get(Obj(m), above))[last := value]))
    decreases |above|
  {
    if above != [] {
      assert (above + [last])[1..] == above[1..] + [last];
      SetInParent(Child(m, above[0]), above[1..], last, value);
      if above[0] !in m || !m[above[0]].Obj? { NothingBelow(above[1..]); }
    }
  }

  lemma NothingBelow(parts: seq<string>)
    ensures FieldsOf(Get(Obj(map[]), parts)) == map[]
  {}

  // ---------- laws of deleting ----------

  /** Deletion reports whether the path was there; the path and everything below
      it are then missing, and deleting a missing path changes nothing. */
  lemma {:induction false} DeleteRemoves(m: Document, parts: Path, below: seq<string>)
    ensures Delete(m, parts).1 <==> Get(Obj(m), parts).Some?
    ensures Get(Obj(Delete(m, parts).0), parts + below) == None
    ensures !Delete(m, parts).1 ==> Delete(m, parts).0 == m
    decreases |parts|
  {
    assert (parts + below)[1..] == parts[1..] + below;
    if |parts| > 1 && parts[0] in m && m[parts[0]].Obj? {
      DeleteRemoves(m[parts[0]].fields, parts[1..], below);
    }
  }

  /** Deletion leaves every path that does not go through the deleted one, nor lead to it, as it was. */
  lemma {:induction false} DeleteUnrelated(m: Document, parts: Path, q: seq<string>)
    requires !Related(parts, q)
    ensures Get(Obj(Delete(m, parts).0), q) == Get(Obj(m), q)
    decreases |parts|
  {
    if |parts| > 1 && parts[0] in m && m[parts[0]].Obj? && parts[0] == q[0] {
      UnrelatedTail(parts, q);
      DeleteUnrelated(m[parts[0]].fields, parts[1..], q[1..]);
    }
  }

  /** The dict that held the path's last part loses that one field and stays where it was, even empty. */
  lemma {:induction false} DeleteInParent(m: Document, above: seq<string>, last: string)
    ensures Get(Obj(Delete(m, above + [last]).0), above) == match Get(Obj(m), above)
      case Some(Obj(fields)) => Some(Obj(fields - {last}))
      case other => other
    decreases |above|
  {
    if above != [] {
      assert (above + [last])[1..] == above[1..] + [last];
      if above[0] in m && m[above[0]].Obj? { DeleteInParent(m[above[0]].fields, above[1..], last); }
    }
  }
}
