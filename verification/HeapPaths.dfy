/** `set_path` and `del_path` as they run: updates in place on dicts that refer to other dicts. On an unshared
    document the updates are exactly those of Paths on its value, and nothing outside the document changes. */
module HeapPaths {
  import opened Values
  import opened Paths

  type Ref = nat

  /** What a dict field holds: a reference to a dict, or any other value (a list counts as one value). */
  datatype Cell = Leaf(v: Json) | Node(r: Ref)

  type Store = map<Ref, map<string, Cell>>

  /** No dangling references, and nothing allocated at or above `next`. */
  predicate Closed(s: Store, next: Ref) {
    forall r | r in s :: r < next
      && forall k | k in s[r] && s[r][k].Node? :: s[r][k].r in s
  }

  class Heap {
    var cells: Store
    var next: Ref

    constructor ()
      ensures cells == map[] && next == 0
    {
      cells, next := map[], 0;
    }

    /** `{}` */
    method NewDict() returns (r: Ref)
      modifies this
      ensures r == old(next) && next == r + 1 && cells == old(cells)[r := map[]]
    {
      r := next;
      cells := cells[r := map[]];
      next := next + 1;
    }

    /** None when the path is missing. */
    method GetPath(document: Cell, parts: Path) returns (value: Option<Cell>)
      requires Closed(cells, next) && (document.Node? ==> document.r in cells)
      ensures value == Walk(cells, document, parts)
    {
      var current := document;
      var i := 0;
      while i < |parts|
        invariant 0 <= i <= |parts| && (current.Node? ==> current.r in cells)
        invariant Walk(cells, document, parts) == Walk(cells, current, parts[i..])
      {
        assert parts[i..][1..] == parts[i + 1..];
        if current.Node? && parts[i] in cells[current.r] {
          current := cells[current.r][parts[i]];
        } else {
          return None;
        }
        i := i + 1;
      }
      return Some(current);
    }

    method SetPath(document: Ref, parts: Path, value: Cell)
      requires Closed(cells, next) && document in cells
      modifies this
      ensures (cells, next) == SetCells(old(cells), old(next), document, parts, value)
      ensures (value.Node? ==> value.r in old(cells)) ==> Closed(cells, next)
    {
      var current := document;
      var i := 0;
      while i < |parts| - 1
        invariant 0 <= i < |parts| && Closed(cells, next) && current in cells
        invariant SetCells(old(cells), old(next), document, parts, value)
          == SetCells(cells, next, current, parts[i..], value)
      {
        var part := parts[i];
        assert parts[i..][1..] == parts[i + 1..];
        var child: Ref;
        if part in cells[current] && cells[current][part].Node? {
          child := cells[current][part].r;
        } else {
          child := NewDict();
          cells := cells[current := cells[current][part := Node(child)]];
        }
        current := child;
        i := i + 1;
      }
      var last := parts[|parts| - 1];
      cells := cells[current := cells[current][last := value]];
      if value.Node? ==> value.r in old(cells) {
        SetKeepsClosed(old(cells), old(next), document, parts, value);
      }
    }

    method DeletePath(document: Ref, parts: Path) returns (deleted: bool)
      requires Closed(cells, next) && document in cells
      modifies this`cells
      ensures (cells, deleted) == DeleteCells(old(cells), document, parts)
    {
      var current := document;
      var i := 0;
      while i < |parts| - 1
        invariant 0 <= i < |parts| && current in cells && cells == old(cells)
        invariant DeleteCells(old(cells), document, parts) == DeleteCells(cells, current, parts[i..])
      {
        var part := parts[i];
        assert parts[i..][1..] == parts[i + 1..];
        if part !in cells[current] || cells[current][part].Leaf? {
          return false;
        }
        current := cells[current][part].r;
        i := i + 1;
      }
      var last := parts[|parts| - 1];
      deleted := last in cells[current];
      cells := cells[current := cells[current] - {last}];
    }
  }

  function Walk(s: Store, c: Cell, parts: seq<string>): Option<Cell>
    decreases |parts|
  {
    if parts == [] then Some(c)
    else if c.Node? && c.r in s && parts[0] in s[c.r] then Walk(s, s[c.r][parts[0]], parts[1..])
    else None
  }

  lemma {:induction false} SetKeepsClosed(s: Store, next: Ref, r: Ref, parts: Path, value: Cell)
    requires Closed(s, next) && r in s && (value.Node? ==> value.r in s)
    ensures var (t, next') := SetCells(s, next, r, parts, value); Closed(t, next')
    decreases |parts|
  {
    if |parts| > 1 {
      if parts[0] in s[r] && s[r][parts[0]].Node? {
        SetKeepsClosed(s, next, s[r][parts[0]].r, parts[1..], value);
      } else {
        NewClosed(s, next, r, parts[0]);
        SetKeepsClosed(s[next := map[]][r := s[r][parts[0] := Node(next)]], next + 1, next, parts[1..], value);
      }
    }
  }

  function SetCells(s: Store, next: Ref, r: Ref, parts: Path, value: Cell): (Store, Ref)
    requires Closed(s, next) && r in s
    decreases |parts|
  {
    var part := parts[0];
    if |parts| == 1 then (s[r := s[r][part := value]], next)
    else if part in s[r] && s[r][part].Node? then SetCells(s, next, s[r][part].r, parts[1..], value)
    else SetCells(s[next := map[]][r := s[r][part := Node(next)]], next + 1, next, parts[1..], value)
  }

  function DeleteCells(s: Store, r: Ref, parts: Path): (Store, bool)
    requires r in s && forall q, k | q in s && k in s[q] && s[q][k].Node? :: s[q][k].r in s
    decreases |parts|
  {
    var part := parts[0];
    if |parts| == 1 then (s[r := s[r] - {part}], part in s[r])
    else if part in s[r] && s[r][part].Node? then DeleteCells(s, s[r][part].r, parts[1..])
    else (s, false)
  }

  // ---------- what a store holds ----------

  /** The cell holds the value: a dict whose fields hold the value's fields, or the value itself. */
  predicate Holds(s: Store, c: Cell, j: Json)
    decreases j
  {
    match c
    case Leaf(v) => v == j && !j.Obj?
    case Node(r) =>
      j.Obj? && r in s && s[r].Keys == j.fields.Keys
      && forall k | k in j.fields :: Holds(s, s[r][k], j.fields[k])
  }

  /** The dicts the value is made of. */
  function Refs(s: Store, c: Cell, j: Json): set<Ref>
    requires Holds(s, c, j)
    decreases j
  {
    match c
    case Leaf(_) => {}
    case Node(r) => {r} + set k, x | k in j.fields && x in Refs(s, s[r][k], j.fields[k]) :: x
  }

  /** No dict is reached along two paths. */
  predicate Unshared(s: Store, c: Cell, j: Json)
    requires Holds(s, c, j)
    decreases j
  {
    c.Leaf? || (
      && (forall k | k in j.fields :: Unshared(s, s[c.r][k], j.fields[k]) && c.r !in Refs(s, s[c.r][k], j.fields[k]))
      && (forall k, l | k in j.fields && l in j.fields && k != l ::
            Refs(s, s[c.r][k], j.fields[k]) !! Refs(s, s[c.r][l], j.fields[l])))
  }

  /** The cell holds the value, unshared, in dicts outside `others`. */
  predicate Owns(s: Store, c: Cell, j: Json, others: set<Ref>) {
    Holds(s, c, j) && Unshared(s, c, j) && Refs(s, c, j) !! others
  }

  /** A dict with a dict in it is unshared; with the same dict in two fields it is not. */
  lemma SharingExamples(v: Json)
    requires !v.Obj?
    ensures var inner: Document := map["k" := v];
      var s: Store := map[0 := map["a" := Node(1)], 1 := map["k" := Leaf(v)]];
      Closed(s, 2) && Owns(s, Node(0), Obj(map["a" := Obj(inner)]), {})
      && var t := s[0 := map["a" := Node(1), "b" := Node(1)]];
        Closed(t, 2) && Holds(t, Node(0), Obj(map["a" := Obj(inner), "b" := Obj(inner)]))
        && !Unshared(t, Node(0), Obj(map["a" := Obj(inner), "b" := Obj(inner)]))
  {
    var inner: Document := map["k" := v];
    var s: Store := map[0 := map["a" := Node(1)], 1 := map["k" := Leaf(v)]];
    var t := s[0 := map["a" := Node(1), "b" := Node(1)]];
    assert Holds(s, Node(1), Obj(inner)) && Holds(t, Node(1), Obj(inner));
    assert 1 in Refs(t, Node(1), Obj(inner));
    assert Refs(s, Node(1), Obj(inner)) == {1} by {
      assert Refs(s, s[1]["k"], v) == {};
      assert forall k | k in inner :: k == "k";
    }
    assert 1 in Refs(t, t[0]["a"], Obj(inner)) * Refs(t, t[0]["b"], Obj(inner));
  }

  /** Reading along references is reading the value. */
  lemma {:induction false} ReadInPlace(s: Store, c: Cell, j: Json, parts: seq<string>)
    requires Holds(s, c, j)
    ensures Walk(s, c, parts).Some? <==> Get(j, parts).Some?
    ensures Get(j, parts).Some? ==> Holds(s, Walk(s, c, parts).value, Get(j, parts).value)
    decreases |parts|
  {
    if parts != [] && c.Node? && parts[0] in s[c.r] {
      ReadInPlace(s, s[c.r][parts[0]], j.fields[parts[0]], parts[1..]);
    }
  }

  // ---------- frames ----------

  predicate Agree(s: Store, t: Store, refs: set<Ref>) {
    forall r | r in refs :: r in s && r in t && s[r] == t[r]
  }

  /** A value does not notice updates of other dicts. */
  lemma {:induction false} Frame(s: Store, t: Store, c: Cell, j: Json)
    requires Holds(s, c, j) && Agree(s, t, Refs(s, c, j))
    ensures Holds(t, c, j) && Refs(t, c, j) == Refs(s, c, j)
    ensures Unshared(s, c, j) ==> Unshared(t, c, j)
    decreases j
  {
    if c.Node? {
      assert c.r in Refs(s, c, j);
      forall k | k in j.fields
        ensures Holds(t, t[c.r][k], j.fields[k]) && Refs(t, t[c.r][k], j.fields[k]) == Refs(s, s[c.r][k], j.fields[k])
        ensures Unshared(s, s[c.r][k], j.fields[k]) ==> Unshared(t, t[c.r][k], j.fields[k])
      {
        ChildRefs(s, c, j, k);
        Frame(s, t, s[c.r][k], j.fields[k]);
      }
    }
  }

  lemma ChildRefs(s: Store, c: Cell, j: Json, k: string)
    requires c.Node? && Holds(s, c, j) && k in j.fields
    ensures Refs(s, s[c.r][k], j.fields[k]) <= Refs(s, c, j)
  {}

  lemma {:induction false} RefsAllocated(s: Store, next: Ref, c: Cell, j: Json)
    requires Holds(s, c, j) && Closed(s, next)
    ensures forall r | r in Refs(s, c, j) :: r in s && r < next
    decreases j
  {
    if c.Node? {
      forall k | k in j.fields ensures forall r | r in Refs(s, s[c.r][k], j.fields[k]) :: r in s {
        RefsAllocated(s, next, s[c.r][k], j.fields[k]);
      }
    }
  }

  /** A dict whose field `part` now holds a new unshared value, its other fields being as before. */
  lemma Reassemble(s: Store, t: Store, r: Ref, m: Document, part: string, c: Cell, j: Json)
    requires Holds(s, Node(r), Obj(m)) && Unshared(s, Node(r), Obj(m))
    requires r in t && t[r] == s[r][part := c]
    requires forall k | k in m && k != part :: Agree(s, t, Refs(s, s[r][k], m[k]))
    requires Owns(t, c, j, {r})
    requires forall k | k in m && k != part :: Refs(t, c, j) !! Refs(s, s[r][k], m[k])
    ensures Holds(t, Node(r), Obj(m[part := j])) && Unshared(t, Node(r), Obj(m[part := j]))
    ensures Refs(t, Node(r), Obj(m[part := j])) <= Refs(s, Node(r), Obj(m)) + Refs(t, c, j)
  {
    OtherFields(s, t, r, m, part, c);
    hide Unshared, Refs;
    ReassembleHolds(s, t, r, m, part, c, j);
    hide Holds;
    ReassembleUnshared(s, t, r, m, part, c, j);
    ReassembleRefs(s, t, r, m, part, c, j);
  }

  lemma OtherFields(s: Store, t: Store, r: Ref, m: Document, part: string, c: Cell)
    requires Holds(s, Node(r), Obj(m)) && Unshared(s, Node(r), Obj(m))
    requires r in t && t[r] == s[r][part := c]
    requires forall k | k in m && k != part :: Agree(s, t, Refs(s, s[r][k], m[k]))
    ensures forall k | k in m && k != part :: Holds(t, t[r][k], m[k]) && Unshared(t, t[r][k], m[k])
    ensures forall k | k in m && k != part ::
        Refs(t, t[r][k], m[k]) == Refs(s, s[r][k], m[k]) <= Refs(s, Node(r), Obj(m))
    ensures r in Refs(s, Node(r), Obj(m))
  {
    forall k | k in m && k != part
      ensures Holds(t, t[r][k], m[k]) && Unshared(t, t[r][k], m[k])
      ensures Refs(t, t[r][k], m[k]) == Refs(s, s[r][k], m[k]) <= Refs(s, Node(r), Obj(m))
    {
      Frame(s, t, s[r][k], m[k]);
      ChildRefs(s, Node(r), Obj(m), k);
    }
  }

  lemma ReassembleHolds(s: Store, t: Store, r: Ref, m: Document, part: string, c: Cell, j: Json)
    requires Holds(s, Node(r), Obj(m)) && r in t && t[r] == s[r][part := c] && Holds(t, c, j)
    requires forall k | k in m && k != part :: Holds(t, t[r][k], m[k])
    ensures Holds(t, Node(r), Obj(m[part := j]))
  {
    var m' := m[part := j];
    assert forall k | k in m' :: m'[k] == (if k == part then j else m[k]);
  }

  lemma ReassembleRefs(s: Store, t: Store, r: Ref, m: Document, part: string, c: Cell, j: Json)
    requires Holds(s, Node(r), Obj(m)) && Holds(t, Node(r), Obj(m[part := j])) && t[r] == s[r][part := c]
    requires Holds(t, c, j) && forall k | k in m && k != part :: Holds(t, t[r][k], m[k])
    requires forall k | k in m && k != part :: Refs(t, t[r][k], m[k]) <= Refs(s, Node(r), Obj(m))
    ensures Refs(t, Node(r), Obj(m[part := j])) <= Refs(s, Node(r), Obj(m)) + Refs(t, c, j)
  {
    hide Holds;
    var m' := m[part := j];
    assert forall k | k in m' :: m'[k] == (if k == part then j else m[k]);
  }

  lemma ReassembleUnshared(s: Store, t: Store, r: Ref, m: Document, part: string, c: Cell, j: Json)
    requires Holds(s, Node(r), Obj(m)) && Unshared(s, Node(r), Obj(m))
    requires Holds(t, Node(r), Obj(m[part := j])) && t[r] == s[r][part := c]
    requires Owns(t, c, j, {r})
    requires forall k | k in m && k != part :: Holds(t, t[r][k], m[k]) && Unshared(t, t[r][k], m[k])
    requires forall k | k in m && k != part :: Refs(t, t[r][k], m[k]) == Refs(s, s[r][k], m[k])
    requires forall k | k in m && k != part :: Refs(t, c, j) !! Refs(s, s[r][k], m[k])
    ensures Unshared(t, Node(r), Obj(m[part := j]))
  {
    hide Holds, Refs;
    var m' := m[part := j];
    assert forall k | k in m' :: m'[k] == (if k == part then j else m[k]);
  }

  /** What an update of a document may do: change its own dicts, and allocate. */
  predicate Updates(s: Store, next: Ref, t: Store, next': Ref, touched: set<Ref>) {
    next <= next' && forall x | x in s && x !in touched :: x in t && t[x] == s[x]
  }

  /** The dicts of an updated value are its old ones, those of the value put in, or new. */
  predicate MadeOf(after: set<Ref>, before: set<Ref>, added: set<Ref>, next: Ref, next': Ref) {
    forall x | x in after :: x in before || x in added || next <= x < next'
  }

  lemma SetLeafField(s: Store, next: Ref, r: Ref, m: Document, part: string, value: Cell, j: Json)
    requires Closed(s, next) && Owns(s, Node(r), Obj(m), {})
    requires Owns(s, value, j, Refs(s, Node(r), Obj(m)))
    ensures var t := s[r := s[r][part := value]];
      Owns(t, Node(r), Obj(m[part := j]), {})
      && Updates(s, next, t, next, Refs(s, Node(r), Obj(m)))
      && MadeOf(Refs(t, Node(r), Obj(m[part := j])), Refs(s, Node(r), Obj(m)), Refs(s, value, j), next, next)
  {
    var t := s[r := s[r][part := value]];
    RefsAllocated(s, next, Node(r), Obj(m));
    RefsAllocated(s, next, value, j);
    Frame(s, t, value, j);
    forall k | k in m && k != part
      ensures Agree(s, t, Refs(s, s[r][k], m[k])) && Refs(t, value, j) !! Refs(s, s[r][k], m[k])
    {
      ChildRefs(s, Node(r), Obj(m), k);
    }
    Reassemble(s, t, r, m, part, value, j);
  }

  /** The step from a child's update to its parent's. The child's update runs from store s' to store t; s'
      is s but for the field `part` of r, which refers to the child. */
  lemma Lift(s: Store, s': Store, t: Store, next: Ref, first: Ref, next': Ref, r: Ref, m: Document, part: string,
             child: Ref, inner: Document, childRefs: set<Ref>, added: set<Ref>)
    requires Closed(s, next) && next <= first && Owns(s, Node(r), Obj(m), {})
    requires r in s' && s'[r] == s[r][part := Node(child)] && Agree(s, s', s.Keys - {r})
    requires r !in childRefs && forall k | k in m && k != part :: childRefs !! Refs(s, s[r][k], m[k])
    requires MadeOf(childRefs, Refs(s, Node(r), Obj(m)), {}, next, next')
    requires added !! Refs(s, Node(r), Obj(m)) && forall x | x in added :: x < next
    requires Updates(s', first, t, next', childRefs) && Owns(t, Node(child), Obj(inner), {})
    requires MadeOf(Refs(t, Node(child), Obj(inner)), childRefs, added, first, next')
    ensures Owns(t, Node(r), Obj(m[part := Obj(inner)]), {})
    ensures Updates(s, next, t, next', Refs(s, Node(r), Obj(m)))
    ensures MadeOf(Refs(t, Node(r), Obj(m[part := Obj(inner)])), Refs(s, Node(r), Obj(m)), added, next, next')
  {
    hide Holds, Unshared, Closed;
    var refs := Refs(t, Node(child), Obj(inner));
    LiftAllocated(s, next, r, m);
    forall k | k in m && k != part
      ensures Agree(s, t, Refs(s, s[r][k], m[k])) && refs !! Refs(s, s[r][k], m[k])
    {
      LiftOthers(s, s', t, next, r, m, part, k, childRefs);
      ChildRefs(s, Node(r), Obj(m), k);
    }
    Reassemble(s, t, r, m, part, Node(child), Obj(inner));
  }

  lemma LiftAllocated(s: Store, next: Ref, r: Ref, m: Document)
    requires Closed(s, next) && Holds(s, Node(r), Obj(m))
    ensures r in Refs(s, Node(r), Obj(m)) && s[r].Keys == m.Keys && forall x | x in s :: x < next
    ensures forall x | x in Refs(s, Node(r), Obj(m)) :: x in s && x < next
    ensures forall k | k in m :: Holds(s, s[r][k], m[k])
  {
    RefsAllocated(s, next, Node(r), Obj(m));
  }

  lemma LiftOthers(s: Store, s': Store, t: Store, next: Ref, r: Ref, m: Document, part: string, k: string,
                   childRefs: set<Ref>)
    requires Closed(s, next) && Owns(s, Node(r), Obj(m), {}) && k in m && k != part
    requires Agree(s, s', s.Keys - {r}) && childRefs !! Refs(s, s[r][k], m[k])
    requires forall x | x in s' && x !in childRefs :: x in t && t[x] == s'[x]
    ensures Agree(s, t, Refs(s, s[r][k], m[k]))
  {
    RefsAllocated(s, next, s[r][k], m[k]);
  }

  /** In-place set is set on values: on an unshared document, given a value that shares nothing with it, the
      document afterwards holds exactly what Paths.Set gives, is still unshared, and no other dict changed. */
  lemma {:induction false} SetInPlace(s: Store, next: Ref, r: Ref, m: Document, parts: Path, value: Cell, j: Json)
    requires Closed(s, next) && Owns(s, Node(r), Obj(m), {})
    requires Owns(s, value, j, Refs(s, Node(r), Obj(m)))
    ensures var (t, next') := SetCells(s, next, r, parts, value);
      Owns(t, Node(r), Obj(Set(m, parts, j)), {})
      && Updates(s, next, t, next', Refs(s, Node(r), Obj(m)))
      && MadeOf(Refs(t, Node(r), Obj(Set(m, parts, j))), Refs(s, Node(r), Obj(m)), Refs(s, value, j), next, next')
    decreases |parts|, 1
  {
    var part := parts[0];
    if |parts| == 1 {
      SetLeafField(s, next, r, m, part, value, j);
    } else if part in s[r] && s[r][part].Node? {
      SetInOldChild(s, next, r, m, parts, value, j);
    } else {
      SetInNewChild(s, next, r, m, parts, value, j);
    }
  }

  lemma {:induction false} SetInOldChild(s: Store, next: Ref, r: Ref, m: Document, parts: Path, value: Cell, j: Json)
    requires Closed(s, next) && Owns(s, Node(r), Obj(m), {})
    requires Owns(s, value, j, Refs(s, Node(r), Obj(m)))
    requires |parts| > 1 && parts[0] in s[r] && s[r][parts[0]].Node?
    ensures var (t, next') := SetCells(s, next, r, parts, value);
      Owns(t, Node(r), Obj(Set(m, parts, j)), {})
      && Updates(s, next, t, next', Refs(s, Node(r), Obj(m)))
      && MadeOf(Refs(t, Node(r), Obj(Set(m, parts, j))), Refs(s, Node(r), Obj(m)), Refs(s, value, j), next, next')
    decreases |parts|, 0
  {
    var part := parts[0];
    var (t, next') := SetCells(s, next, r, parts, value);
    OldChild(s, next, r, m, part);
    var child, inner := s[r][part].r, Child(m, part);
    RefsAllocated(s, next, value, j);
    hide Unshared, Refs, Updates, MadeOf, Closed;
    SetInPlace(s, next, child, inner, parts[1..], value, j);
    assert s[r] == s[r][part := Node(child)];
    Lift(s, s, t, next, next, next', r, m, part, child, Set(inner, parts[1..], j),
         Refs(s, Node(child), Obj(inner)), Refs(s, value, j));
  }

  lemma OldChild(s: Store, next: Ref, r: Ref, m: Document, part: string)
    requires Closed(s, next) && Owns(s, Node(r), Obj(m), {}) && part in s[r] && s[r][part].Node?
    ensures part in m && m[part].Obj? && Owns(s, s[r][part], Obj(Child(m, part)), {r})
    ensures var refs := Refs(s, s[r][part], Obj(Child(m, part)));
      refs <= Refs(s, Node(r), Obj(m)) && MadeOf(refs, Refs(s, Node(r), Obj(m)), {}, next, next)
    ensures forall k | k in m && k != part :: Refs(s, s[r][part], Obj(Child(m, part))) !! Refs(s, s[r][k], m[k])
  {
    assert Holds(s, s[r][part], m[part]);
    ChildRefs(s, Node(r), Obj(m), part);
  }

  lemma {:induction false} SetInNewChild(s: Store, next: Ref, r: Ref, m: Document, parts: Path, value: Cell, j: Json)
    requires Closed(s, next) && Owns(s, Node(r), Obj(m), {})
    requires Owns(s, value, j, Refs(s, Node(r), Obj(m)))
    requires |parts| > 1 && !(parts[0] in s[r] && s[r][parts[0]].Node?)
    ensures var (t, next') := SetCells(s, next, r, parts, value);
      Owns(t, Node(r), Obj(Set(m, parts, j)), {})
      && Updates(s, next, t, next', Refs(s, Node(r), Obj(m)))
      && MadeOf(Refs(t, Node(r), Obj(Set(m, parts, j))), Refs(s, Node(r), Obj(m)), Refs(s, value, j), next, next')
    decreases |parts|, 0
  {
    hide Unshared, Refs, Updates, Closed, SetCells;
    var part := parts[0];
    var s' := s[next := map[]][r := s[r][part := Node(next)]];
    NewChildFirst(s, next, r, m, parts, value);
    var (t, next') := SetCells(s', next + 1, next, parts[1..], value);
    RefsAllocated(s, next, value, j);
    NewChild(s, s', next, r, m, part, value, j);
    NewRefs(s, next, r, m);
    SetInPlace(s', next + 1, next, map[], parts[1..], value, j);
    Lift(s, s', t, next, next + 1, next', r, m, part, next, Set(map[], parts[1..], j), {next}, Refs(s, value, j));
  }

  lemma NewChildFirst(s: Store, next: Ref, r: Ref, m: Document, parts: Path, value: Cell)
    requires Closed(s, next) && Holds(s, Node(r), Obj(m))
    requires |parts| > 1 && !(parts[0] in s[r] && s[r][parts[0]].Node?)
    ensures Child(m, parts[0]) == map[]
    ensures var s' := s[next := map[]][r := s[r][parts[0] := Node(next)]];
      Closed(s', next + 1)
      && SetCells(s, next, r, parts, value) == SetCells(s', next + 1, next, parts[1..], value)
      && SetCells(s', next + 1, next, parts[1..], value).1 > next
  {
    NewClosed(s, next, r, parts[0]);
    if parts[0] in m { assert Holds(s, s[r][parts[0]], m[parts[0]]); }
    NextGrows(s[next := map[]][r := s[r][parts[0] := Node(next)]], next + 1, next, parts[1..], value);
  }

  lemma NewRefs(s: Store, next: Ref, r: Ref, m: Document)
    requires Closed(s, next) && Holds(s, Node(r), Obj(m))
    ensures r != next && forall k | k in m :: next !in Refs(s, s[r][k], m[k])
  {
    RefsAllocated(s, next, Node(r), Obj(m));
    forall k | k in m ensures next !in Refs(s, s[r][k], m[k]) {
      ChildRefs(s, Node(r), Obj(m), k);
    }
  }

  lemma NewClosed(s: Store, next: Ref, r: Ref, part: string)
    requires Closed(s, next) && r in s
    ensures Closed(s[next := map[]][r := s[r][part := Node(next)]], next + 1)
  {}

  lemma {:induction false} NextGrows(s: Store, next: Ref, r: Ref, parts: Path, value: Cell)
    requires Closed(s, next) && r in s
    ensures SetCells(s, next, r, parts, value).1 >= next
    decreases |parts|
  {
    if |parts| > 1 {
      if parts[0] in s[r] && s[r][parts[0]].Node? {
        NextGrows(s, next, s[r][parts[0]].r, parts[1..], value);
      } else {
        NewClosed(s, next, r, parts[0]);
        NextGrows(s[next := map[]][r := s[r][parts[0] := Node(next)]], next + 1, next, parts[1..], value);
      }
    }
  }

  /** An empty dict allocated for a missing or non-dict intermediate. */
  lemma NewChild(s: Store, s': Store, next: Ref, r: Ref, m: Document, part: string, value: Cell, j: Json)
    requires Closed(s, next) && Owns(s, Node(r), Obj(m), {})
    requires Owns(s, value, j, Refs(s, Node(r), Obj(m)))
    requires s' == s[next := map[]][r := s[r][part := Node(next)]]
    ensures next !in s && r != next
    ensures Owns(s', Node(next), Obj(map[]), {}) && Refs(s', Node(next), Obj(map[])) == {next}
    ensures Owns(s', value, j, {next}) && Refs(s', value, j) == Refs(s, value, j)
  {
    assert r in Refs(s, Node(r), Obj(m));
    RefsAllocated(s, next, value, j);
    Frame(s, s', value, j);
    EmptyDict(s', next);
    hide Holds, Unshared, Refs;
  }

  lemma EmptyDict(s: Store, r: Ref)
    requires r in s && s[r] == map[]
    ensures Owns(s, Node(r), Obj(map[]), {}) && Refs(s, Node(r), Obj(map[])) == {r}
  {}

  /** In-place deletion is deletion on values. */
  lemma {:induction false} DeleteInPlace(s: Store, next: Ref, r: Ref, m: Document, parts: Path)
    requires Closed(s, next) && Owns(s, Node(r), Obj(m), {})
    ensures var (t, deleted) := DeleteCells(s, r, parts);
      Owns(t, Node(r), Obj(Delete(m, parts).0), {}) && deleted == Delete(m, parts).1
      && Updates(s, next, t, next, Refs(s, Node(r), Obj(m)))
      && Refs(t, Node(r), Obj(Delete(m, parts).0)) <= Refs(s, Node(r), Obj(m))
    decreases |parts|
  {
    var part := parts[0];
    if |parts| == 1 {
      RemoveField(s, r, m, part);
      assert r in Refs(s, Node(r), Obj(m));
    } else if part in s[r] && s[r][part].Node? {
      OldChild(s, next, r, m, part);
      var child, inner := s[r][part].r, Child(m, part);
      hide Unshared, Refs, Closed;
      DeleteInPlace(s, next, child, inner, parts[1..]);
      var (t, _) := DeleteCells(s, r, parts);
      assert s[r] == s[r][part := Node(child)];
      var refs := Refs(s, Node(child), Obj(inner));
      Lift(s, s, t, next, next, next, r, m, part, child, Delete(inner, parts[1..]).0, refs, {});
    } else if part in m {
      assert Holds(s, s[r][part], m[part]);
    }
  }

  lemma RemoveField(s: Store, r: Ref, m: Document, part: string)
    requires Owns(s, Node(r), Obj(m), {})
    ensures var t := s[r := s[r] - {part}];
      Owns(t, Node(r), Obj(m - {part}), {}) && Refs(t, Node(r), Obj(m - {part})) <= Refs(s, Node(r), Obj(m))
  {
    var t := s[r := s[r] - {part}];
    forall k | k in m && k != part
      ensures Holds(t, t[r][k], m[k]) && Unshared(t, t[r][k], m[k])
      ensures Refs(t, t[r][k], m[k]) == Refs(s, s[r][k], m[k]) <= Refs(s, Node(r), Obj(m))
    {
      RefsInStore(s, s[r][k], m[k]);
      Frame(s, t, s[r][k], m[k]);
      ChildRefs(s, Node(r), Obj(m), k);
    }
  }

  lemma {:induction false} RefsInStore(s: Store, c: Cell, j: Json)
    requires Holds(s, c, j)
    ensures forall r | r in Refs(s, c, j) :: r in s
    decreases j
  {
    if c.Node? {
      forall k | k in j.fields ensures forall r | r in Refs(s, s[c.r][k], j.fields[k]) :: r in s {
        RefsInStore(s, s[c.r][k], j.fields[k]);
      }
    }
  }

  /** Sharing breaks the laws: when two fields refer to one dict, writing below one is seen below the other. */
  lemma SharedDictAliases(s: Store, next: Ref, r: Ref, a: string, b: string, x: string, value: Json, child: Ref)
    requires Closed(s, next) && r in s && a in s[r] && b in s[r] && s[r][a] == s[r][b] == Node(child) && child != r
    ensures SetCells(s, next, r, [a, x], Leaf(value)) == (s[child := s[child][x := Leaf(value)]], next)
    ensures SetCells(s, next, r, [b, x], Leaf(value)) == SetCells(s, next, r, [a, x], Leaf(value))
  {
    assert [a, x][1..] == [x] == [b, x][1..];
  }
}
