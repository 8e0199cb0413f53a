/**
 The builder of merge patches: nested mutable maps, walked by Add, which returns a function that
 stores a value in the map it reached. The heap of maps is shown to hold the pure tree of MergePatch.
 */
module MergeBuilder {
  import opened GoStrings
  import opened MergePatch

  /** The Go type Merge7386: a mutable map. */
  class Merge7386 {
    var entries: map<string, Value>

    constructor ()
      ensures entries == map[]
    {
      entries := map[];
    }
  }

  /** What such a map stores: a value function not called yet, a plain JSON value, or a nested map. */
  datatype Value = Func | Plain(json: Json) | Sub(node: Merge7386)

  /** The function returned by Add: it stores its argument under `key` in the map `position`. */
  datatype Setter = Nothing | Slot(position: Merge7386, key: string)

  // What setting one key of an existing map does to the tree.

  predicate IsNode(t: Tree, p: Path) {
    At(t, p).Some? && At(t, p).value.Node?
  }

  lemma {:induction false} AtAfterSet(t: Tree, p: Path, k: string, x: Tree, q: Path)
    requires IsNode(t, p)
    ensures var s := TreeSet(t, p + [k], x);
            if p + [k] <= q then At(s, q) == At(x, q[|p| + 1..])
            else if q == p then At(s, q) == Some(Node(At(t, q).value.members[k := x]))
            else if q <= p then
              && IsNode(s, q) && IsNode(t, q)
              && At(s, q).value.members.Keys == At(t, q).value.members.Keys
              && (forall j | j in At(t, q).value.members ::
                    if At(t, q).value.members[j].Node? then At(s, q).value.members[j].Node?
                    else At(s, q).value.members[j] == At(t, q).value.members[j])
            else At(s, q) == At(t, q)
    decreases |p|
  {
    var path := p + [k];
    if p == [] {
      assert path == [k];
      if q != [] && q[0] == k {
        assert path <= q;
      }
    } else {
      var h, rest := p[0], p[1..];
      assert p == [h] + rest && path == [h] + (rest + [k]);
      assert At(t.members[h], rest) == At(t, p);
      SetBelow(t, h, rest + [k], x);
      hide TreeSet;
      if q != [] && q[0] == h {
        assert q == [h] + q[1..];
        AtAfterSet(t.members[h], rest, k, x, q[1..]);
        PrefixCons(h, rest + [k], q[1..]);
        PrefixCons(h, q[1..], rest);
        if path <= q {
          assert q[1..][|rest| + 1..] == q[|p| + 1..];
        }
      } else if q != [] {
        assert !(path <= q) && !(q <= p);
      }
    }
  }

  lemma PrefixCons(h: string, a: Path, b: Path)
    ensures [h] + a <= [h] + b <==> a <= b
  {
    assert ([h] + a)[1..] == a && ([h] + b)[1..] == b;
    if a <= b {
      assert ([h] + b)[..1 + |a|] == [h] + a;
    }
    if [h] + a <= [h] + b {
      assert b[..|a|] == ([h] + b)[1..1 + |a|] == a;
    }
  }

  /** Setting a longer path goes through the map that is there. */
  lemma SetBelow(t: Tree, h: string, rest: Path, x: Tree)
    requires t.Node? && rest != [] && h in t.members && t.members[h].Node?
    ensures TreeSet(t, [h] + rest, x) == Node(t.members[h := TreeSet(t.members[h], rest, x)])
    ensures TreeSet(t.members[h], rest, x).Node?
  {
    assert ([h] + rest)[1..] == rest;
  }

  lemma {:induction false} SetTwice(t: Tree, path: Path, x: Tree, y: Tree)
    requires t.Node? && path != []
    ensures TreeSet(TreeSet(t, path, x), path, y) == TreeSet(t, path, y)
    decreases |path|
  {
    if |path| > 1 {
      var k := path[0];
      var child := if k in t.members && t.members[k].Node? then t.members[k] else EMPTY;
      SetTwice(child, path[1..], x, y);
      var s := TreeSet(child, path[1..], x);
      assert TreeSet(t, path, x) == Node(t.members[k := s]);
      assert t.members[k := s][k := TreeSet(s, path[1..], y)] == t.members[k := TreeSet(s, path[1..], y)];
    } else {
      assert t.members[path[0] := x][path[0] := y] == t.members[path[0] := y];
    }
  }

  /** Creating an empty map on the way down does not change where the walk ends up. */
  lemma {:induction false} SetThroughNew(t: Tree, p: Path, path: Path, x: Tree)
    requires IsNode(t, p) && p < path && |p| + 1 < |path|
    requires !IsNode(t, p + [path[|p|]])
    ensures TreeSet(TreeSet(t, p + [path[|p|]], EMPTY), path, x) == TreeSet(t, path, x)
    decreases |p|
  {
    var k := path[0];
    var full := p + [path[|p|]];
    assert full[1..] == if p == [] then [] else p[1..] + [path[|p|]];
    if p == [] {
      assert full == [k];
      assert At(t, full) == if k in t.members then At(t.members[k], []) else None;
      var m := t.members[k := EMPTY];
      assert m[k := TreeSet(EMPTY, path[1..], x)] == t.members[k := TreeSet(EMPTY, path[1..], x)];
    } else {
      assert path[1..][|p| - 1] == path[|p|];
      SetThroughNew(t.members[k], p[1..], path[1..], x);
      var s := TreeSet(t.members[k], full[1..], EMPTY);
      assert TreeSet(t, full, EMPTY) == Node(t.members[k := s]);
      assert t.members[k := s][k := TreeSet(s, path[1..], x)] == t.members[k := TreeSet(s, path[1..], x)];
    }
  }

  /** Entry by entry, a heap map agrees with a node of the tree; nested maps are found at their addresses. */
  ghost predicate Matches(entries: map<string, Value>, members: map<string, Tree>, p: Path,
                          addr: map<Path, Merge7386>)
  {
    && entries.Keys == members.Keys
    && forall k | k in entries ::
      match entries[k]
      case Func => members[k] == Pending
      case Plain(j) => members[k] == Leaf(j)
      case Sub(c) => members[k].Node? && p + [k] in addr && addr[p + [k]] == c
  }

  type Addresses = map<Path, Merge7386>
  type Contents = map<Path, map<string, Value>>

  /** The map at `q` holds what the tree has there. */
  ghost predicate Holds(tree: Tree, addr: Addresses, heap: Contents, q: Path)
    requires q in heap
  {
    IsNode(tree, q) && Matches(heap[q], At(tree, q).value.members, q, addr)
  }

  /** Each map is reached by one path only, and holds what the tree has there. */
  ghost predicate Consistent(tree: Tree, addr: Addresses, heap: Contents) {
    && [] in addr && addr.Keys == heap.Keys
    && (forall p, q | p in addr && q in addr && addr[p] == addr[q] :: p == q)
    && (forall q | q in addr :: Holds(tree, addr, heap, q))
  }

  function Without(addr: Addresses, path: Path): Addresses {
    map q | q in addr && !(path <= q) :: addr[q]
  }

  /** Storing a leaf under a key of the map at `p`: whatever was nested there is no longer reached. */
  lemma StoreLeaf(tree: Tree, addr: Addresses, heap: Contents, p: Path, key: string, v: Value, heap': Contents)
    requires Consistent(tree, addr, heap) && p in addr && !v.Sub?
    requires heap'.Keys == Without(addr, p + [key]).Keys
    requires forall q | q in heap' :: heap'[q] == if q == p then heap[p][key := v] else heap[q]
    ensures Consistent(TreeSet(tree, p + [key], LeafOf(v)), Without(addr, p + [key]), heap')
  {
    forall q | q in heap'
      ensures Holds(TreeSet(tree, p + [key], LeafOf(v)), Without(addr, p + [key]), heap', q)
    {
      assert Holds(tree, addr, heap, q);
      StoreLeafAt(tree, addr, p, key, v, q, heap[q], heap'[q]);
    }
  }

  function LeafOf(v: Value): Tree
    requires !v.Sub?
  {
    if v.Func? then Pending else Leaf(v.json)
  }

  lemma StoreLeafAt(tree: Tree, addr: Addresses, p: Path, key: string, v: Value, q: Path,
                    entries: map<string, Value>, entries': map<string, Value>)
    requires IsNode(tree, p) && !v.Sub? && q in addr && !(p + [key] <= q)
    requires IsNode(tree, q) && Matches(entries, At(tree, q).value.members, q, addr)
    requires entries' == if q == p then entries[key := v] else entries
    ensures var s := TreeSet(tree, p + [key], LeafOf(v));
            IsNode(s, q) && Matches(entries', At(s, q).value.members, q, Without(addr, p + [key]))
  {
    var path := p + [key];
    AtAfterSet(tree, p, key, LeafOf(v), q);
    forall k | k in entries && entries[k].Sub? && !(q == p && k == key)
      ensures !(path <= q + [k])
    {
      OnlyOneSnoc(p, key, q, k);
    }
  }

  lemma OnlyOneSnoc(p: Path, key: string, q: Path, k: string)
    ensures p + [key] <= q + [k] ==> p + [key] <= q || (p == q && key == k)
  {
    if p + [key] <= q + [k] {
      if |p| < |q| {
        assert p + [key] == (q + [k])[..|p| + 1] == q[..|p| + 1];
      } else {
        assert p + [key] == q + [k];
        assert p == (p + [key])[..|p|] && key == (p + [key])[|p|];
      }
    }
  }

  /** Different paths reach different maps, and the root is reached by the empty path. */
  lemma OnePathEach(tree: Tree, addr: Addresses, heap: Contents)
    requires Consistent(tree, addr, heap)
    ensures [] in addr && addr.Keys == heap.Keys
    ensures forall p, q | p in addr && q in addr && addr[p] == addr[q] :: p == q
  {
  }

  lemma AttachedThere(tree: Tree, addr: Addresses, heap: Contents, p: Path, key: string)
    requires Consistent(tree, addr, heap) && p in addr
    ensures IsNode(tree, p)
    ensures key in heap[p] && heap[p][key].Sub? ==> p + [key] in addr && addr[p + [key]] == heap[p][key].node
  {
    assert Holds(tree, addr, heap, p);
  }

  lemma RootIsNode(tree: Tree, addr: Addresses, heap: Contents)
    requires Consistent(tree, addr, heap)
    ensures tree.Node?
  {
    assert Holds(tree, addr, heap, []);
  }

  class Patch {
    const root: Merge7386
    ghost var tree: Tree       // what the maps hold
    ghost var addr: Addresses  // the map reached by each path

    ghost function Heap(): Contents
      reads this, addr.Values
    {
      map q | q in addr :: addr[q].entries
    }

    ghost predicate Valid()
      reads this, addr.Values
    {
      Consistent(tree, addr, Heap()) && addr[[]] == root
    }

    constructor ()
      ensures Valid() && tree == EMPTY && fresh(addr.Values)
    {
      root := new Merge7386();
      tree := EMPTY;
      new;
      addr := map[[] := root];
    }

    /** Stores a leaf under a key of a map, which the root reaches by the path `at` or not at all. */
    method Store(ghost at: Option<Path>, position: Merge7386, key: string, v: Value)
      requires Valid() && !v.Sub?
      requires if at.Some? then at.value in addr && addr[at.value] == position else position !in addr.Values
      modifies this, position
      ensures Valid() && addr.Values <= old(addr.Values)
      ensures tree == if at.Some? then TreeSet(old(tree), at.value + [key], LeafOf(v)) else old(tree)
      ensures at.Some? ==> at.value in addr && addr[at.value] == position
    {
      hide Consistent, TreeSet;
      ghost var tree0, addr0, heap0 := tree, addr, Heap();
      OnePathEach(tree0, addr0, heap0);
      position.entries := position.entries[key := v];
      if at.Some? {
        ghost var p := at.value;
        tree := TreeSet(tree0, p + [key], LeafOf(v));
        addr := Without(addr0, p + [key]);
        assert forall q | q in addr :: q in addr0 && addr[q] == addr0[q];
        assert forall q | q in addr && q != p :: addr[q] != position;
        StoreLeaf(tree0, addr0, heap0, p, key, v, Heap());
      } else {
        assert Heap() == heap0;
      }
    }

    /** Hangs a new, empty map under a key of the map at `p` that does not hold a map. */
    method Attach(ghost p: Path, position: Merge7386, key: string) returns (child: Merge7386)
      requires Valid() && p in addr && addr[p] == position
      requires !(key in position.entries && position.entries[key].Sub?)
      modifies this, position
      ensures Valid() && fresh(child) && addr.Values <= old(addr.Values) + {child}
      ensures p + [key] in addr && addr[p + [key]] == child
      ensures !IsNode(old(tree), p + [key]) && tree == TreeSet(old(tree), p + [key], EMPTY)
    {
      hide Consistent, TreeSet, IsNode;
      ghost var tree0, addr0, heap0 := tree, addr, Heap();
      OnePathEach(tree0, addr0, heap0);
      child := new Merge7386();
      NothingAttached(tree0, addr0, heap0, p, key);
      position.entries := position.entries[key := Sub(child)];
      tree := TreeSet(tree0, p + [key], EMPTY);
      addr := addr0[p + [key] := child];
      assert forall q | q in addr0 :: addr0[q] != child;
      AttachEmpty(tree0, addr0, heap0, p, key, child, Heap());
    }

    /** One turn of the loop of Add: goes to the map under a key, creating it if there is none. */
    method Descend(ghost p: Path, position: Merge7386, key: string, ghost path: Path) returns (next: Merge7386)
      requires Valid() && p in addr && addr[p] == position
      requires p + [key] < path
      modifies this, position
      ensures Valid() && forall n | n in addr.Values :: n in old(addr.Values) || fresh(n)
      ensures p + [key] in addr && addr[p + [key]] == next
      ensures forall x :: TreeSet(tree, path, x) == TreeSet(old(tree), path, x)
    {
      hide TreeSet, IsNode;
      AttachedThere(tree, addr, Heap(), p, key);
      if key in position.entries && position.entries[key].Sub? {
        return position.entries[key].node;
      }
      ghost var before := tree;
      hide Consistent;
      next := Attach(p, position, key);
      forall x
        ensures TreeSet(tree, path, x) == TreeSet(before, path, x)
      {
        assert path[|p|] == (p + [key])[|p|];
        SetThroughNew(before, p, path, x);
      }
    }

    /** The loop of Add: walks down, creating the maps that are missing. */
    method Walk(path: Path) returns (position: Merge7386)
      requires Valid() && path != []
      modifies this, addr.Values
      ensures Valid() && forall n | n in addr.Values :: n in old(addr.Values) || fresh(n)
      ensures path[..|path| - 1] in addr && addr[path[..|path| - 1]] == position
      ensures forall x :: TreeSet(tree, path, x) == TreeSet(old(tree), path, x)
    {
      hide Consistent, TreeSet, Heap;
      OnePathEach(tree, addr, Heap());
      position := root;
      var i := 0;
      while |path| - i > 1
        invariant Valid() && i < |path| && path[..i] in addr && addr[path[..i]] == position
        invariant forall n | n in addr.Values :: n in old(addr.Values) || fresh(n)
        invariant forall x :: TreeSet(tree, path, x) == TreeSet(old(tree), path, x)
      {
        assert path[..i + 1] == path[..i] + [path[i]];
        position := Descend(path[..i], position, path[i], path);
        i := i + 1;
      }
    }

    /** Add: the walk, then a placeholder at the end of the path. */
    method Add(path: Path) returns (f: Setter)
      requires Valid()
      modifies this, addr.Values
      ensures Valid() && forall n | n in addr.Values :: n in old(addr.Values) || fresh(n)
      ensures tree == TreeSet(old(tree), path, Pending)
      ensures path == [] ==> f == Nothing
      ensures path != [] ==> var p := path[..|path| - 1];
                             p in addr && f == Slot(addr[p], path[|path| - 1])
    {
      hide Consistent, Heap;
      if path == [] { return Nothing; }
      hide TreeSet;
      var position := Walk(path);
      var key := path[|path| - 1];
      assert path == path[..|path| - 1] + [key];
      Store(Some(path[..|path| - 1]), position, key, Func);
      return Slot(position, key);
    }

    /**
     Calling the function returned by an Add, now or later: it sets its path if its map is still reached
     from the root, and otherwise leaves the patch as it is.
     */
    method Set(f: Setter, value: Json)
      requires Valid()
      modifies this, if f.Slot? then {f.position} else {}
      ensures Valid() && addr.Values <= old(addr.Values)
      ensures f.Nothing? || f.position !in old(addr.Values) ==> tree == old(tree)
      ensures forall p | f.Slot? && p in old(addr) && old(addr)[p] == f.position ::
                tree == TreeSet(old(tree), p + [f.key], Leaf(value))
    {
      if f.Nothing? { return; }
      ghost var at: Option<Path> := None;
      if f.position in addr.Values {
        ghost var p :| p in addr && addr[p] == f.position;
        at := Some(p);
      }
      Store(at, f.position, f.key, Plain(value));
    }

    /** A completed call: Add(path)(value). */
    method AddValue(path: Path, value: Json)
      requires Valid()
      modifies this, addr.Values
      ensures Valid() && forall n | n in addr.Values :: n in old(addr.Values) || fresh(n)
      ensures tree == TreeSet(old(tree), path, Leaf(value))
    {
      hide Consistent, Heap;
      RootIsNode(tree, addr, Heap());
      var f := Add(path);
      if path != [] {
        SetTwice(old(tree), path, Pending, Leaf(value));
        assert path == path[..|path| - 1] + [path[|path| - 1]];
      }
      Set(f, value);
    }

    method Remove(path: Path)
      requires Valid()
      modifies this, addr.Values
      ensures Valid() && forall n | n in addr.Values :: n in old(addr.Values) || fresh(n)
      ensures tree == TreeSet(old(tree), path, Leaf(Null))
    {
      AddValue(path, Null);
    }

    /** Any sequence of completed calls leaves exactly the tree that the pure calls build. */
    method Build(calls: seq<Call>)
      requires Valid() && tree == EMPTY
      modifies this, addr.Values
      ensures Valid() && tree == Built(calls)
    {
      hide Valid, TreeSet;
      for i := 0 to |calls|
        invariant Valid() && tree == Built(calls[..i])
        invariant forall n | n in addr.Values :: n in old(addr.Values) || fresh(n)
      {
        assert calls[..i + 1][..i] == calls[..i];
        if calls[i].value.Null? {
          Remove(calls[i].path);
        } else {
          AddValue(calls[i].path, calls[i].value);
        }
      }
      assert calls[..|calls|] == calls;
    }
  }

  /** Reading the heap from value `v` gives the tree `t`; no ghost state is involved. */
  ghost predicate Denotes(v: Value, t: Tree, nodes: set<Merge7386>)
    reads nodes
    decreases t
  {
    match v
    case Func => t == Pending
    case Plain(j) => t == Leaf(j)
    case Sub(c) =>
      && c in nodes && t.Node? && c.entries.Keys == t.members.Keys
      && forall k | k in t.members :: Denotes(c.entries[k], t.members[k], nodes)
  }

  /** The map reached from `m` by a path of keys, reading the heap alone. */
  ghost function Reached(m: Merge7386, path: Path, nodes: set<Merge7386>): Option<Merge7386>
    reads nodes
    decreases |path|
  {
    if m !in nodes then None
    else if path == [] then Some(m)
    else if path[0] in m.entries && m.entries[path[0]].Sub? then Reached(m.entries[path[0]].node, path[1..], nodes)
    else None
  }

  /**
   The maps reached from the root form a tree: its reading is `tree`, and no map is reached by two paths,
   so nothing is shared and nothing is cyclic.
   */
  lemma RootDenotesTree(patch: Patch)
    requires patch.Valid()
    ensures Denotes(Sub(patch.root), patch.tree, patch.addr.Values)
    ensures forall p, q ::
              var m, n := Reached(patch.root, p, patch.addr.Values), Reached(patch.root, q, patch.addr.Values);
              m.Some? && m == n ==> p == q
  {
    DenotesAt(patch, []);
    forall p, q |
      var m, n := Reached(patch.root, p, patch.addr.Values), Reached(patch.root, q, patch.addr.Values);
      m.Some? && m == n
      ensures p == q
    {
      ReachedIsAddress(patch, [], p);
      ReachedIsAddress(patch, [], q);
      assert [] + p == p && [] + q == q;
      OnePathEach(patch.tree, patch.addr, patch.Heap());
    }
  }

  /** Walking the heap from the map at `at` ends at the address of the longer path. */
  lemma {:induction false} ReachedIsAddress(patch: Patch, at: Path, path: Path)
    requires patch.Valid() && at in patch.addr
    ensures var m := Reached(patch.addr[at], path, patch.addr.Values);
            m.Some? ==> at + path in patch.addr && patch.addr[at + path] == m.value
    decreases |path|
  {
    hide Consistent;
    if path == [] {
      assert at + path == at;
    } else {
      var k := path[0];
      AttachedThere(patch.tree, patch.addr, patch.Heap(), at, k);
      assert at + path == at + [k] + path[1..];
      if k in patch.addr[at].entries && patch.addr[at].entries[k].Sub? {
        ReachedIsAddress(patch, at + [k], path[1..]);
      }
    }
  }

  lemma {:induction false} DenotesAt(patch: Patch, p: Path)
    requires patch.Valid() && p in patch.addr
    ensures IsNode(patch.tree, p)
    ensures Denotes(Sub(patch.addr[p]), At(patch.tree, p).value, patch.addr.Values)
    decreases if IsNode(patch.tree, p) then At(patch.tree, p).value else Pending
  {
    assert Holds(patch.tree, patch.addr, patch.Heap(), p);
    var c, t := patch.addr[p], At(patch.tree, p).value;
    forall k | k in t.members
      ensures Denotes(c.entries[k], t.members[k], patch.addr.Values)
    {
      AtSnoc(patch.tree, p, k);
      if c.entries[k].Sub? {
        DenotesAt(patch, p + [k]);
      }
    }
  }

  lemma AttachEmpty(tree: Tree, addr: Addresses, heap: Contents, p: Path, key: string, child: Merge7386,
                    heap': Contents)
    requires Consistent(tree, addr, heap) && p in addr && child !in addr.Values
    requires !(key in heap[p] && heap[p][key].Sub?)
    requires heap'.Keys == addr.Keys + {p + [key]}
    requires forall q | q in heap' ::
               heap'[q] == if q == p then heap[p][key := Sub(child)] else if q == p + [key] then map[] else heap[q]
    ensures !IsNode(tree, p + [key])
    ensures Consistent(TreeSet(tree, p + [key], EMPTY), addr[p + [key] := child], heap')
  {
    var path, addr' := p + [key], addr[p + [key] := child];
    NothingAttached(tree, addr, heap, p, key);
    forall q | q in heap'
      ensures Holds(TreeSet(tree, path, EMPTY), addr', heap', q)
    {
      if q == path {
        AtAfterSet(tree, p, key, EMPTY, q);
        assert q[|p| + 1..] == [];
      } else {
        assert Holds(tree, addr, heap, q);
        if path <= q { NoNodeBelow(tree, path, q); }
        AttachEmptyAt(tree, addr, p, key, child, q, heap[q], heap'[q]);
      }
    }
  }

  lemma NothingAttached(tree: Tree, addr: Addresses, heap: Contents, p: Path, key: string)
    requires Consistent(tree, addr, heap) && p in addr
    requires !(key in heap[p] && heap[p][key].Sub?)
    ensures !IsNode(tree, p + [key]) && p + [key] !in addr
  {
    assert Holds(tree, addr, heap, p);
    AtSnoc(tree, p, key);
    if p + [key] in addr {
      assert Holds(tree, addr, heap, p + [key]);
    }
  }

  lemma AttachEmptyAt(tree: Tree, addr: Addresses, p: Path, key: string, child: Merge7386, q: Path,
                      entries: map<string, Value>, entries': map<string, Value>)
    requires IsNode(tree, p) && q in addr && !(p + [key] <= q)
    requires IsNode(tree, q) && Matches(entries, At(tree, q).value.members, q, addr)
    requires entries' == if q == p then entries[key := Sub(child)] else entries
    requires p + [key] !in addr
    ensures var s := TreeSet(tree, p + [key], EMPTY);
            IsNode(s, q) && Matches(entries', At(s, q).value.members, q, addr[p + [key] := child])
  {
    AtAfterSet(tree, p, key, EMPTY, q);
  }

  lemma {:induction false} AtSnoc(t: Tree, p: Path, k: string)
    requires IsNode(t, p)
    ensures At(t, p + [k]) ==
            if k in At(t, p).value.members then Some(At(t, p).value.members[k]) else None
    decreases |p|
  {
    assert (p + [k])[1..] == if p == [] then [] else p[1..] + [k];
    if p != [] {
      AtSnoc(t.members[p[0]], p[1..], k);
    }
  }

  /** Below something that is not a node there is no node. */
  lemma {:induction false} NoNodeBelow(t: Tree, path: Path, q: Path)
    requires !IsNode(t, path) && path <= q
    ensures !IsNode(t, q)
    decreases |path|
  {
    if path != [] && t.Node? && path[0] in t.members {
      assert path[1..] <= q[1..];
      NoNodeBelow(t.members[path[0]], path[1..], q[1..]);
    }
  }
}
