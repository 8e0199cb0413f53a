/**
 JSON Merge Patch (section 2 of RFC 7386): what applying a patch means, and what the patch built by a
 sequence of Add and Remove calls does to an arbitrary target.
 */
module MergePatch {
  import opened GoStrings

  type Path = seq<string>

  /** JSON values; everything but null and objects is opaque to a merge patch. */
  datatype Json = Null | Atom(text: string) | Object(members: map<string, Json>)

  /** The value at a path; paths lead through objects only. */
  function Get(j: Json, path: Path): Option<Json> {
    if path == [] then Some(j)
    else if j.Object? && path[0] in j.members then Get(j.members[path[0]], path[1..])
    else None
  }

  /** The members a patch is merged into: a target that is not an object counts as empty. */
  function MembersOf(target: Json): map<string, Json> {
    if target.Object? then target.members else map[]
  }

  function MemberOf(target: Json, k: string): Json {
    if k in MembersOf(target) then MembersOf(target)[k] else Null
  }

  /** The algorithm of section 2 of RFC 7386. */
  function Merge(target: Json, patch: Json): Json
    decreases patch
  {
    if !patch.Object? then patch
    else
      var t, p := MembersOf(target), patch.members;
      Object(map k | k in t.Keys + p.Keys && (k in p ==> !p[k].Null?) ::
               if k in p then Merge(MemberOf(target, k), p[k]) else t[k])
  }

  /** A patch under construction: nested maps with values, or value functions not called yet, as leaves. */
  datatype Tree = Pending | Leaf(value: Json) | Node(members: map<string, Tree>)

  const EMPTY: Tree := Node(map[])

  function At(t: Tree, path: Path): Option<Tree> {
    if path == [] then Some(t)
    else if t.Node? && path[0] in t.members then At(t.members[path[0]], path[1..])
    else None
  }

  /** Puts `x` at `path`, replacing whatever is not a map on the way by a map. */
  function TreeSet(t: Tree, path: Path, x: Tree): Tree
    decreases |path|
  {
    if path == [] || !t.Node? then t
    else if |path| == 1 then Node(t.members[path[0] := x])
    else
      var k := path[0];
      var child := if k in t.members && t.members[k].Node? then t.members[k] else EMPTY;
      Node(t.members[k := TreeSet(child, path[1..], x)])
  }

  predicate IsAtomic(j: Json) {
    !j.Object?
  }

  /** Every value call has been made, with a null or an opaque value. */
  predicate Complete(t: Tree) {
    match t
    case Pending => false
    case Leaf(v) => IsAtomic(v)
    case Node(m) => forall k | k in m :: Complete(m[k])
  }

  /** The JSON text of a patch, as a value. */
  function ToJson(t: Tree): Json
    requires Complete(t)
  {
    match t
    case Leaf(v) => v
    case Node(m) => Object(map k | k in m :: ToJson(m[k]))
  }

  lemma {:induction false} SetIsComplete(t: Tree, path: Path, v: Json)
    requires Complete(t) && IsAtomic(v)
    ensures Complete(TreeSet(t, path, Leaf(v)))
    decreases |path|
  {
    if |path| > 1 && t.Node? {
      var k := path[0];
      SetIsComplete(if k in t.members && t.members[k].Node? then t.members[k] else EMPTY, path[1..], v);
    }
  }

  // Applying a patch.

  /** `q` leaves the patch at a member the patch does not mention. */
  predicate Diverges(t: Tree, q: Path) {
    q != [] && t.Node? && (q[0] !in t.members || Diverges(t.members[q[0]], q[1..]))
  }

  /** A value in the patch ends up at its path, and null removes. */
  lemma {:induction false} MergeAtLeaf(target: Json, t: Tree, p: Path)
    requires Complete(t) && p != [] && At(t, p).Some? && At(t, p).value.Leaf?
    ensures Get(Merge(target, ToJson(t)), p) ==
            if At(t, p).value.value.Null? then None else Some(At(t, p).value.value)
    decreases |p|
  {
    var k := p[0];
    if |p| > 1 {
      MergeAtLeaf(MemberOf(target, k), t.members[k], p[1..]);
    } else {
      assert p[1..] == [];
    }
  }

  /** Paths the patch does not mention are left as they are. */
  lemma {:induction false} MergeElsewhere(target: Json, t: Tree, q: Path)
    requires Complete(t) && Diverges(t, q)
    ensures Get(Merge(target, ToJson(t)), q) == Get(target, q)
    decreases |q|
  {
    var k := q[0];
    if k in t.members {
      MergeElsewhere(MemberOf(target, k), t.members[k], q[1..]);
      if k !in MembersOf(target) {
        assert q[1..] != [];
      }
    }
  }

  function Single(path: Path, v: Json): (t: Tree)
    requires path != []
  {
    TreeSet(EMPTY, path, Leaf(v))
  }

  lemma {:induction false} AtSet(t: Tree, path: Path, x: Tree)
    requires path != [] && t.Node?
    ensures At(TreeSet(t, path, x), path) == Some(x)
    decreases |path|
  {
    assert path[1..] == [] <==> |path| == 1;
    if |path| > 1 {
      var k := path[0];
      AtSet(if k in t.members && t.members[k].Node? then t.members[k] else EMPTY, path[1..], x);
    }
  }

  lemma {:induction false} SingleDiverges(path: Path, v: Json, q: Path)
    requires path != [] && !(path <= q) && !(q <= path)
    ensures Diverges(Single(path, v), q)
  {
    if path[0] == q[0] {
      assert path == [path[0]] + path[1..] && q == [q[0]] + q[1..];
      SingleDiverges(path[1..], v, q[1..]);
    }
  }

  /**
   A patch for one path sets or removes exactly that path: every path that is neither a prefix nor an
   extension of it keeps its value, whatever the target.
   */
  lemma SinglePatch(target: Json, path: Path, v: Json, q: Path)
    requires path != [] && IsAtomic(v)
    ensures Complete(Single(path, v))
    ensures Get(Merge(target, ToJson(Single(path, v))), path) == if v.Null? then None else Some(v)
    ensures !(path <= q) && !(q <= path) ==> Get(Merge(target, ToJson(Single(path, v))), q) == Get(target, q)
  {
    SetIsComplete(EMPTY, path, v);
    AtSet(EMPTY, path, Leaf(v));
    MergeAtLeaf(target, Single(path, v), path);
    if !(path <= q) && !(q <= path) {
      SingleDiverges(path, v, q);
      MergeElsewhere(target, Single(path, v), q);
    }
  }

  // A built patch against its calls applied one by one.

  /**
   What calls do when applied one after another: a patch whose maps carry a mark if they were put in place
   of a value, so that nothing of the target is left below them.
   */
  datatype Marked = Stored(json: Json) | Map(instead: bool, members: map<string, Marked>)

  /** The patch itself, without the marks. */
  function Forget(t: Marked): Tree {
    match t
    case Stored(j) => Leaf(j)
    case Map(_, m) => Node(map k | k in m :: Forget(m[k]))
  }

  predicate Unmarked(t: Marked) {
    t.Map? ==> !t.instead && forall k | k in t.members :: Unmarked(t.members[k])
  }

  predicate Atomic(t: Marked) {
    match t
    case Stored(j) => IsAtomic(j)
    case Map(_, m) => forall k | k in m :: Atomic(m[k])
  }

  /** The map the walk of a call goes on with below key `k`. */
  function ChildMap(t: Marked, k: string): (c: Marked)
    requires t.Map?
    ensures c.Map?
  {
    if k !in t.members then Map(false, map[])
    else if t.members[k].Map? then t.members[k]
    else Map(true, map[])
  }

  /** One more call. */
  function MarkedSet(t: Marked, path: Path, v: Json): (r: Marked)
    requires t.Map?
    ensures r.Map?
    decreases |path|
  {
    if path == [] then t
    else if |path| == 1 then Map(t.instead, t.members[path[0] := Stored(v)])
    else Map(t.instead, t.members[path[0] := MarkedSet(ChildMap(t, path[0]), path[1..], v)])
  }

  /** What is left of a target at a map. */
  function Base(target: Json, t: Marked): Json
    requires t.Map?
  {
    if t.instead then Null else target
  }

  function MarkedMerge(target: Json, t: Marked): Json
    decreases t
  {
    match t
    case Stored(j) => j
    case Map(_, m) =>
      var b := MembersOf(Base(target, t));
      Object(map k | k in b.Keys + m.Keys && (k in m ==> m[k] != Stored(Null)) ::
               if k in m then MarkedMerge(MemberOf(Base(target, t), k), m[k]) else b[k])
  }

  function Member(j: Json, k: string): Option<Json> {
    if k in MembersOf(j) then Some(MembersOf(j)[k]) else None
  }

  lemma SameObject(a: Json, b: Json)
    requires a.Object? && b.Object? && forall k :: Member(a, k) == Member(b, k)
    ensures a == b
  {
    forall k: string
      ensures k in a.members <==> k in b.members
      ensures k in a.members && k in b.members ==> a.members[k] == b.members[k]
    {
      assert Member(a, k) == Member(b, k);
    }
    assert a.members == b.members;
  }

  lemma MergedMember(target: Json, m: map<string, Json>, k: string)
    ensures Member(Merge(target, Object(m)), k) ==
            if k !in m then Member(target, k)
            else if m[k].Null? then None
            else Some(Merge(MemberOf(target, k), m[k]))
  {
  }

  lemma MarkedMember(target: Json, t: Marked, k: string)
    requires t.Map?
    ensures Member(MarkedMerge(target, t), k) ==
            if k !in t.members then Member(Base(target, t), k)
            else if t.members[k] == Stored(Null) then None
            else Some(MarkedMerge(MemberOf(Base(target, t), k), t.members[k]))
  {
  }

  /** Merging looks at a target only through its members. */
  lemma MergeMembersOnly(a: Json, b: Json, patch: Json)
    requires patch.Object? && MembersOf(a) == MembersOf(b)
    ensures Merge(a, patch) == Merge(b, patch)
  {
    assert Merge(a, patch).members == Merge(b, patch).members;
  }

  lemma {:induction false} ForgetIsComplete(t: Marked)
    requires Atomic(t)
    ensures Complete(Forget(t))
  {
    if t.Map? {
      forall k | k in t.members
        ensures Complete(Forget(t.members[k]))
      {
        ForgetIsComplete(t.members[k]);
      }
    }
  }

  lemma {:induction false} SetIsAtomic(t: Marked, path: Path, v: Json)
    requires t.Map? && Atomic(t) && IsAtomic(v)
    ensures Atomic(MarkedSet(t, path, v))
    decreases |path|
  {
    if |path| > 1 {
      SetIsAtomic(ChildMap(t, path[0]), path[1..], v);
    }
  }

  /** The marks aside, a call does to the patch what it does to the tree. */
  lemma {:induction false} ForgetSet(t: Marked, path: Path, v: Json)
    requires t.Map?
    ensures Forget(MarkedSet(t, path, v)) == TreeSet(Forget(t), path, Leaf(v))
    decreases |path|
  {
    if path != [] {
      var k := path[0];
      var x := if |path| == 1 then Stored(v) else MarkedSet(ChildMap(t, k), path[1..], v);
      assert Forget(Map(t.instead, t.members[k := x])).members == Forget(t).members[k := Forget(x)];
      if |path| > 1 {
        ForgetSet(ChildMap(t, k), path[1..], v);
        assert Forget(Map(true, map[])) == EMPTY && Forget(Map(false, map[])) == EMPTY;
      }
    }
  }

  lemma SingleBelow(path: Path, v: Json)
    requires path != [] && IsAtomic(v)
    ensures Complete(Single(path, v))
    ensures ToJson(Single(path, v)) ==
            Object(map[path[0] := if |path| == 1 then v else ToJson(Single(path[1..], v))])
  {
    SetIsComplete(EMPTY, path, v);
    if |path| > 1 { SetIsComplete(EMPTY, path[1..], v); }
  }

  /** A marked patch after one more call does what the patch and then the call do, for every target. */
  lemma {:induction false} MarkedCall(target: Json, t: Marked, path: Path, v: Json)
    requires t.Map? && Atomic(t) && path != [] && IsAtomic(v)
    ensures Complete(Single(path, v))
    ensures MarkedMerge(target, MarkedSet(t, path, v)) ==
            Merge(MarkedMerge(target, t), ToJson(Single(path, v)))
    decreases |path|
  {
    SingleBelow(path, v);
    var k, s, before := path[0], MarkedSet(t, path, v), MarkedMerge(target, t);
    if |path| > 1 {
      CallBelow(target, t, path, v);
    }
    forall z: string
      ensures Member(MarkedMerge(target, s), z) == Member(Merge(before, ToJson(Single(path, v))), z)
    {
      MarkedMember(target, s, z);
      MarkedMember(target, t, z);
      MergedMember(before, ToJson(Single(path, v)).members, z);
    }
    SameObject(MarkedMerge(target, s), Merge(before, ToJson(Single(path, v))));
  }

  /** The same below the first key of the path. */
  lemma {:induction false} CallBelow(target: Json, t: Marked, path: Path, v: Json)
    requires t.Map? && Atomic(t) && |path| > 1 && IsAtomic(v)
    ensures Complete(Single(path[1..], v))
    ensures MarkedMerge(MemberOf(Base(target, t), path[0]), MarkedSet(ChildMap(t, path[0]), path[1..], v)) ==
            Merge(MemberOf(MarkedMerge(target, t), path[0]), ToJson(Single(path[1..], v)))
    decreases |path|, 0
  {
    var k, rest := path[0], path[1..];
    var b, child := MemberOf(Base(target, t), k), ChildMap(t, k);
    MarkedCall(b, child, rest, v);
    SingleBelow(rest, v);
    MarkedMember(target, t, k);
    var was := MemberOf(MarkedMerge(target, t), k);
    if k !in t.members || !t.members[k].Map? {
      assert MembersOf(MarkedMerge(b, child)) == MembersOf(was);
      MergeMembersOnly(MarkedMerge(b, child), was, ToJson(Single(rest, v)));
    }
  }

  /** Without marks, a patch does what section 2 of RFC 7386 says. */
  lemma {:induction false} UnmarkedMerge(target: Json, t: Marked)
    requires Atomic(t) && Unmarked(t)
    ensures Complete(Forget(t)) && MarkedMerge(target, t) == Merge(target, ToJson(Forget(t)))
    decreases t
  {
    ForgetIsComplete(t);
    if t.Map? {
      var m := ToJson(Forget(t)).members;
      forall k: string
        ensures Member(MarkedMerge(target, t), k) == Member(Merge(target, Object(m)), k)
      {
        MarkedMember(target, t, k);
        MergedMember(target, m, k);
        if k in t.members {
          UnmarkedMerge(MemberOf(target, k), t.members[k]);
        }
      }
      SameObject(MarkedMerge(target, t), Merge(target, Object(m)));
    }
  }

  lemma {:induction false} LongerThanAll(keys: set<string>) returns (n: nat)
    ensures forall k | k in keys :: |k| < n
    decreases keys
  {
    n := 0;
    if keys != {} {
      var k :| k in keys;
      var m := LongerThanAll(keys - {k});
      n := if m <= |k| then |k| + 1 else m;
    }
  }

  /** Where a mark is left, there is a target that shows it. */
  lemma {:induction false} MarkShows(t: Marked) returns (target: Json)
    requires Atomic(t) && !Unmarked(t)
    ensures Complete(Forget(t)) && MarkedMerge(target, t) != Merge(target, ToJson(Forget(t)))
    decreases t
  {
    ForgetIsComplete(t);
    var m := ToJson(Forget(t)).members;
    if t.instead {
      var n := LongerThanAll(t.members.Keys);
      var extra := seq(n, _ => 'x');
      target := Object(map[extra := Atom("kept")]);
      MarkedMember(target, t, extra);
      MergedMember(target, m, extra);
    } else {
      var k :| k in t.members && !Unmarked(t.members[k]);
      var inner := MarkShows(t.members[k]);
      target := Object(map[k := inner]);
      MarkedMember(target, t, k);
      MergedMember(target, m, k);
    }
  }

  /** What a marked patch does is what its plain patch does, for every target, exactly when no mark is left. */
  lemma MarksMatter(t: Marked)
    requires Atomic(t)
    ensures Complete(Forget(t))
    ensures (forall target :: MarkedMerge(target, t) == Merge(target, ToJson(Forget(t)))) <==> Unmarked(t)
  {
    ForgetIsComplete(t);
    if Unmarked(t) {
      forall target
        ensures MarkedMerge(target, t) == Merge(target, ToJson(Forget(t)))
      {
        UnmarkedMerge(target, t);
      }
    } else {
      var target := MarkShows(t);
    }
  }

  // One call.

  /** Adding at `path` replaces a value of the patch, at a proper prefix of the path, by a map. */
  predicate LeafOnTheWay(t: Tree, path: Path) {
    |path| > 1 && t.Node? && path[0] in t.members &&
    (!t.members[path[0]].Node? || LeafOnTheWay(t.members[path[0]], path[1..]))
  }

  /** A complete patch, with no marks. */
  function Lift(t: Tree): Marked
    requires Complete(t)
  {
    match t
    case Leaf(v) => Stored(v)
    case Node(m) => Map(false, map k | k in m :: Lift(m[k]))
  }

  lemma {:induction false} LiftFacts(t: Tree)
    requires Complete(t)
    ensures Forget(Lift(t)) == t && Unmarked(Lift(t)) && Atomic(Lift(t))
  {
    if t.Node? {
      forall k | k in t.members
        ensures Forget(Lift(t.members[k])) == t.members[k]
        ensures Unmarked(Lift(t.members[k])) && Atomic(Lift(t.members[k]))
      {
        LiftFacts(t.members[k]);
      }
      assert Forget(Lift(t)).members == t.members;
    }
  }

  /** A call leaves a mark exactly when a value is in its way. */
  lemma {:induction false} CallMarks(t: Marked, path: Path, v: Json)
    requires t.Map? && Unmarked(t)
    ensures Unmarked(MarkedSet(t, path, v)) <==> !LeafOnTheWay(Forget(t), path)
    decreases |path|
  {
    if |path| > 1 {
      var k := path[0];
      var s := MarkedSet(t, path, v);
      assert s.members[k] == MarkedSet(ChildMap(t, k), path[1..], v);
      if k !in t.members {
        CallMarks(Map(false, map[]), path[1..], v);
      } else if t.members[k].Map? {
        CallMarks(t.members[k], path[1..], v);
      } else {
        KeepsMark(Map(true, map[]), path[1..], v);
      }
    }
  }

  lemma KeepsMark(t: Marked, path: Path, v: Json)
    requires t.Map? && t.instead
    ensures !Unmarked(MarkedSet(t, path, v))
  {
  }

  /**
   Applying a patch with one more call is the same as applying the patch and then the call on its own, for
   every target, exactly when the call replaces no value of the patch on its way down.
   */
  lemma OneMoreCallExactly(t: Tree, path: Path, v: Json)
    requires Complete(t) && t.Node? && path != [] && IsAtomic(v)
    ensures Complete(TreeSet(t, path, Leaf(v))) && Complete(Single(path, v))
    ensures (forall target :: Merge(target, ToJson(TreeSet(t, path, Leaf(v)))) ==
                              Merge(Merge(target, ToJson(t)), ToJson(Single(path, v))))
            <==> !LeafOnTheWay(t, path)
  {
    LiftFacts(t);
    var s := MarkedSet(Lift(t), path, v);
    ForgetSet(Lift(t), path, v);
    SetIsAtomic(Lift(t), path, v);
    CallMarks(Lift(t), path, v);
    MarksMatter(s);
    SingleBelow(path, v);
    forall target
      ensures MarkedMerge(target, s) == Merge(Merge(target, ToJson(t)), ToJson(Single(path, v)))
    {
      MarkedCall(target, Lift(t), path, v);
      UnmarkedMerge(target, Lift(t));
    }
  }

  // Sequences of completed calls: Add(path)(v), or Remove(path) for null.

  datatype Call = Call(path: Path, value: Json)

  /** The patch that a sequence of calls builds. */
  function Built(calls: seq<Call>): (t: Tree)
    ensures t.Node?
  {
    if calls == [] then EMPTY
    else
      var last := calls[|calls| - 1];
      TreeSet(Built(calls[..|calls| - 1]), last.path, Leaf(last.value))
  }

  /** The same calls, each applied to the target as a patch of its own; one with an empty path does nothing. */
  function Applied(target: Json, calls: seq<Call>): Json
    requires forall c | c in calls :: IsAtomic(c.value)
  {
    if calls == [] then Object(MembersOf(target))
    else
      var before, last := Applied(target, calls[..|calls| - 1]), calls[|calls| - 1];
      if last.path == [] then before
      else
        SetIsComplete(EMPTY, last.path, last.value);
        Merge(before, ToJson(Single(last.path, last.value)))
  }

  /** The patch with a mark on every map that a call put in place of a value and no later call has replaced. */
  function MarkedBuilt(calls: seq<Call>): (t: Marked)
    ensures t.Map?
  {
    if calls == [] then Map(false, map[])
    else
      var last := calls[|calls| - 1];
      MarkedSet(MarkedBuilt(calls[..|calls| - 1]), last.path, last.value)
  }

  lemma {:induction false} MarkedBuiltFacts(calls: seq<Call>)
    requires forall c | c in calls :: IsAtomic(c.value)
    ensures Atomic(MarkedBuilt(calls)) && Forget(MarkedBuilt(calls)) == Built(calls) && Complete(Built(calls))
    ensures forall target :: MarkedMerge(target, MarkedBuilt(calls)) == Applied(target, calls)
  {
    if calls == [] {
      forall target
        ensures MarkedMerge(target, Map(false, map[])) == Object(MembersOf(target))
      {
        assert MarkedMerge(target, Map(false, map[])).members == MembersOf(target);
      }
    } else {
      var init, last := calls[..|calls| - 1], calls[|calls| - 1];
      var t := MarkedBuilt(init);
      MarkedBuiltFacts(init);
      SetIsAtomic(t, last.path, last.value);
      ForgetSet(t, last.path, last.value);
      ForgetIsComplete(MarkedBuilt(calls));
      forall target
        ensures MarkedMerge(target, MarkedBuilt(calls)) == Applied(target, calls)
      {
        if last.path != [] { MarkedCall(target, t, last.path, last.value); }
      }
    }
  }

  /**
   For every sequence of calls: the built patch does to every target what the calls do one after another,
   if and only if no map that was put in place of a value is left in it.
   */
  lemma BuiltIsApplied(calls: seq<Call>)
    requires forall c | c in calls :: IsAtomic(c.value)
    ensures Complete(Built(calls))
    ensures (forall target :: Merge(target, ToJson(Built(calls))) == Applied(target, calls)) <==>
            Unmarked(MarkedBuilt(calls))
  {
    MarkedBuiltFacts(calls);
    MarksMatter(MarkedBuilt(calls));
    if Unmarked(MarkedBuilt(calls)) {
      forall target
        ensures Merge(target, ToJson(Built(calls))) == Applied(target, calls)
      {
        UnmarkedMerge(target, MarkedBuilt(calls));
      }
    }
  }

  /** A value set, replaced on the way down, and then set again leaves no mark. */
  lemma OverwrittenAgain(k: string, j: string, u: Json, v: Json, w: Json)
    ensures var way := [Call([k], u), Call([k, j], v)];
            !Unmarked(MarkedBuilt(way)) && Unmarked(MarkedBuilt(way + [Call([k], w)]))
  {
    var a, b, c := Call([k], u), Call([k, j], v), Call([k], w);
    assert [a, b][..1] == [a] && [a][..0] == [] && [a, b, c][..2] == [a, b];
    assert [a, b] + [c] == [a, b, c];
    var t := MarkedBuilt([a]);
    assert MarkedBuilt([]) == Map(false, map[]);
    assert t.members == map[k := Stored(u)];
    assert [k, j][1..] == [j];
    assert MarkedBuilt([a, b]).members[k] == MarkedSet(Map(true, map[]), [j], v);
    assert MarkedBuilt([a, b, c]).members == map[k := Stored(w)];
  }
}
