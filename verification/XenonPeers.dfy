/**
 Reconciliation of the Xenon peer lists: every regular node's peer set is driven to the expected
 set by single remove and add calls, any of which may fail and abort the pass.
 */
module XenonPeers {
  import opened GoStrings
  import opened Lists
  import Naming

  /** A row of the node table: the host's name and the peers it last reported. */
  datatype Node = Node(name: string, raftNodes: seq<string>)

  // How far a peer set is from the expected one.

  function Distance(v: set<string>, expected: set<string>): nat {
    |v - expected| + |expected - v|
  }

  lemma DistanceZero(v: set<string>, expected: set<string>)
    ensures Distance(v, expected) == 0 <==> v == expected
  {
    assert v == (v - expected) + (v * expected);
    assert expected == (expected - v) + (v * expected);
  }

  lemma RemoveShrinks(v: set<string>, expected: set<string>, p: string)
    requires p !in expected
    ensures Distance(v - {p}, expected) == Distance(v, expected) - if p in v then 1 else 0
  {
    assert expected - (v - {p}) == expected - v;
    assert (v - {p}) - expected == (v - expected) - {p};
  }

  lemma AddShrinks(v: set<string>, expected: set<string>, p: string)
    requires p in expected
    ensures Distance(v + {p}, expected) == Distance(v, expected) - if p in v then 0 else 1
  {
    assert expected - (v + {p}) == (expected - v) - {p};
    assert (v + {p}) - expected == v - expected;
  }

  /** `v` lies between what `v0` and `expected` share and what they have together. */
  predicate Between(v0: set<string>, v: set<string>, expected: set<string>) {
    v0 * expected <= v <= v0 + expected
  }

  // The real peer sets, and the calls that change them.

  type Views = map<string, set<string>>

  function PeersOf(views: Views, host: string): set<string> {
    if host in views then views[host] else {}
  }

  datatype Call = Remove(host: string, peer: string) | Add(host: string, peer: string)

  function Apply(views: Views, c: Call): Views {
    var peers := PeersOf(views, c.host);
    views[c.host := if c.Remove? then peers - {c.peer} else peers + {c.peer}]
  }

  function ApplyAll(views: Views, calls: seq<Call>): Views {
    if calls == [] then views else Apply(ApplyAll(views, calls[..|calls| - 1]), calls[|calls| - 1])
  }

  lemma ApplyAllSnoc(views: Views, calls: seq<Call>, c: Call)
    ensures ApplyAll(views, calls + [c]) == Apply(ApplyAll(views, calls), c)
  {
    assert (calls + [c])[..|calls|] == calls;
  }

  // The calls of one pass.

  function RemoveCalls(host: string, peers: seq<string>): seq<Call> {
    seq(|peers|, i requires 0 <= i < |peers| => Remove(host, peers[i]))
  }

  function AddCalls(host: string, peers: seq<string>): seq<Call> {
    seq(|peers|, i requires 0 <= i < |peers| => Add(host, peers[i]))
  }

  /** A read-only node is recognised by its name. */
  predicate IsReadOnly(cluster: string, host: string) {
    Naming.ReadOnlyName(cluster) <= host
  }

  function NodePlan(cluster: string, node: Node, expected: seq<string>): seq<Call> {
    if IsReadOnly(cluster, node.name) then []
    else RemoveCalls(node.name, Diff(node.raftNodes, expected)) + AddCalls(node.name, Diff(expected, node.raftNodes))
  }

  /** All the calls a pass makes when none of them fails. */
  function Plan(cluster: string, nodes: seq<Node>, expected: seq<string>): seq<Call> {
    if nodes == [] then []
    else Plan(cluster, nodes[..|nodes| - 1], expected) + NodePlan(cluster, nodes[|nodes| - 1], expected)
  }

  /** A regular node is pinged before its removals and again before its additions. */
  function NodePings(cluster: string, node: Node): seq<string> {
    if IsReadOnly(cluster, node.name) then [] else [node.name] + [node.name]
  }

  function Pings(cluster: string, nodes: seq<Node>): seq<string> {
    if nodes == [] then [] else Pings(cluster, nodes[..|nodes| - 1]) + NodePings(cluster, nodes[|nodes| - 1])
  }

  lemma {:induction false} PlanPrefix(cluster: string, nodes: seq<Node>, expected: seq<string>, i: nat)
    requires i <= |nodes|
    ensures Plan(cluster, nodes[..i], expected) <= Plan(cluster, nodes, expected)
    decreases |nodes|
  {
    if i == |nodes| {
      assert nodes[..i] == nodes;
    } else {
      PlanPrefix(cluster, nodes[..|nodes| - 1], expected, i);
      assert nodes[..|nodes| - 1][..i] == nodes[..i];
    }
  }

  lemma NoCalls(host: string)
    ensures RemoveCalls(host, []) == [] && AddCalls(host, []) == []
  {
  }

  lemma RemoveCallsUpTo(host: string, peers: seq<string>, i: nat)
    requires i < |peers|
    ensures RemoveCalls(host, peers[..i + 1]) == RemoveCalls(host, peers[..i]) + [Remove(host, peers[i])]
    ensures RemoveCalls(host, peers[..i + 1]) <= RemoveCalls(host, peers)
    ensures RemoveCalls(host, peers[..i]) <= RemoveCalls(host, peers)
  {
  }

  lemma AddCallsUpTo(host: string, peers: seq<string>, i: nat)
    requires i < |peers|
    ensures AddCalls(host, peers[..i + 1]) == AddCalls(host, peers[..i]) + [Add(host, peers[i])]
    ensures AddCalls(host, peers[..i + 1]) <= AddCalls(host, peers)
    ensures AddCalls(host, peers[..i]) <= AddCalls(host, peers)
  {
  }

  class XenonExecutor {
    var views: Views
    ghost var initial: Views
    ghost var effects: seq<Call>  // the calls that changed the peer sets, in order
    ghost var pings: seq<string>  // the hosts pinged, in order
    ghost var failures: nat       // the pings and calls that reported a failure

    constructor (views: Views)
      ensures Valid() && this.views == views && effects == []
    {
      this.views, initial, effects, pings, failures := views, views, [], [], 0;
    }

    /** Only the recorded effects ever change the peer sets. */
    ghost predicate Valid()
      reads this
    {
      views == ApplyAll(initial, effects)
    }

    method Ping(host: string) returns (ok: bool)
      modifies this`failures, this`pings
      ensures failures == old(failures) + (if ok then 0 else 1) && pings == old(pings) + [host]
    {
      ok := *;
      pings := pings + [host];
      if !ok { failures := failures + 1; }
    }

    /** A call takes effect if it succeeds; if it reports failure it may or may not have done so. */
    method Execute(c: Call) returns (ok: bool)
      requires Valid()
      modifies this
      ensures Valid() && initial == old(initial)
      ensures effects == old(effects) + [c] || (!ok && effects == old(effects))
      ensures failures == old(failures) + (if ok then 0 else 1) && pings == old(pings)
    {
      hide Apply, ApplyAll;
      ApplyAllSnoc(initial, effects, c);
      ok := *;
      if !ok { failures := failures + 1; }
      var effective: bool := *;
      if ok || effective {
        views := Apply(views, c);
        effects := effects + [c];
      }
    }
  }

  class StatusSyncer {
    const cluster: string
    const namespace: string
    const exec: XenonExecutor

    constructor (cluster: string, namespace: string, exec: XenonExecutor)
      ensures this.cluster == cluster && this.namespace == namespace && this.exec == exec
    {
      this.cluster, this.namespace, this.exec := cluster, namespace, exec;
    }

    method RemoveNodesFromXenon(host: string, toRemove: seq<string>) returns (ok: bool, ghost done: seq<Call>)
      requires exec.Valid()
      modifies exec
      ensures exec.Valid() && exec.initial == old(exec.initial)
      ensures exec.effects == old(exec.effects) + done && done <= RemoveCalls(host, toRemove)
      ensures ok ==> done == RemoveCalls(host, toRemove)
      ensures exec.pings == old(exec.pings) + [host]
      ensures exec.failures == old(exec.failures) + if ok then 0 else 1
    {
      hide RemoveCalls, Apply, ApplyAll;
      NoCalls(host);
      done := [];
      ok := exec.Ping(host);
      if !ok { return; }
      for i := 0 to |toRemove|
        invariant ok && exec.Valid() && exec.initial == old(exec.initial) && exec.failures == old(exec.failures)
        invariant exec.pings == old(exec.pings) + [host]
        invariant exec.effects == old(exec.effects) + done && done == RemoveCalls(host, toRemove[..i])
      {
        RemoveCallsUpTo(host, toRemove, i);
        ghost var before := exec.effects;
        ok := exec.Execute(Remove(host, toRemove[i]));
        if exec.effects != before { done := done + [Remove(host, toRemove[i])]; }
        if !ok { return; }
      }
      assert toRemove[..|toRemove|] == toRemove;
    }

    method AddNodesInXenon(host: string, toAdd: seq<string>) returns (ok: bool, ghost done: seq<Call>)
      requires exec.Valid()
      modifies exec
      ensures exec.Valid() && exec.initial == old(exec.initial)
      ensures exec.effects == old(exec.effects) + done && done <= AddCalls(host, toAdd)
      ensures ok ==> done == AddCalls(host, toAdd)
      ensures exec.pings == old(exec.pings) + [host]
      ensures exec.failures == old(exec.failures) + if ok then 0 else 1
    {
      hide AddCalls, Apply, ApplyAll;
      NoCalls(host);
      done := [];
      ok := exec.Ping(host);
      if !ok { return; }
      for i := 0 to |toAdd|
        invariant ok && exec.Valid() && exec.initial == old(exec.initial) && exec.failures == old(exec.failures)
        invariant exec.pings == old(exec.pings) + [host]
        invariant exec.effects == old(exec.effects) + done && done == AddCalls(host, toAdd[..i])
      {
        AddCallsUpTo(host, toAdd, i);
        ghost var before := exec.effects;
        ok := exec.Execute(Add(host, toAdd[i]));
        if exec.effects != before { done := done + [Add(host, toAdd[i])]; }
        if !ok { return; }
      }
      assert toAdd[..|toAdd|] == toAdd;
    }

    /** The loop body of a pass: one node of the table. */
    method ReconcileNode(node: Node, expected: seq<string>) returns (ok: bool, ghost done: seq<Call>)
      requires exec.Valid()
      modifies exec
      ensures exec.Valid() && exec.initial == old(exec.initial)
      ensures exec.effects == old(exec.effects) + done && done <= NodePlan(cluster, node, expected)
      ensures ok ==> done == NodePlan(cluster, node, expected)
      ensures ok ==> exec.pings == old(exec.pings) + NodePings(cluster, node)
      ensures exec.failures == old(exec.failures) + if ok then 0 else 1
    {
      if IsReadOnly(cluster, node.name) { return true, []; }
      AppendAssociates(exec.pings, [node.name], [node.name]);
      var toRemove := StringDiffIn(node.raftNodes, expected);
      ok, done := RemoveNodesFromXenon(node.name, toRemove);
      if !ok { return; }
      var toAdd := StringDiffIn(expected, node.raftNodes);
      ghost var added;
      ok, added := AddNodesInXenon(node.name, toAdd);
      AppendAssociates(old(exec.effects), done, added);
      done := done + added;
    }

    /**
     One pass. Whatever fails, what took effect is a prefix of the plan; a successful pass is all of it. It
     stops at the first ping or call that fails, and succeeds exactly if none does.
     */
    method ReconcileXenon(nodes: seq<Node>, readyNodes: nat) returns (ok: bool, ghost done: seq<Call>)
      requires exec.Valid()
      modifies exec
      ensures exec.Valid() && exec.initial == old(exec.initial)
      ensures var plan := Plan(cluster, nodes, Naming.Peers(cluster, namespace, readyNodes));
              exec.effects == old(exec.effects) + done && done <= plan && (ok ==> done == plan)
      ensures ok ==> exec.pings == old(exec.pings) + Pings(cluster, nodes)
      ensures exec.failures == old(exec.failures) + if ok then 0 else 1
    {
      var expected := Naming.BuildXenonPeers(cluster, namespace, readyNodes);
      done := [];
      for i := 0 to |nodes|
        invariant exec.Valid() && exec.initial == old(exec.initial) && exec.failures == old(exec.failures)
        invariant exec.pings == old(exec.pings) + Pings(cluster, nodes[..i])
        invariant exec.effects == old(exec.effects) + done && done == Plan(cluster, nodes[..i], expected)
      {
        assert nodes[..i + 1][..i] == nodes[..i];
        PlanPrefix(cluster, nodes, expected, i + 1);
        ghost var more;
        ok, more := ReconcileNode(nodes[i], expected);
        AppendAssociates(old(exec.effects), done, more);
        AppendAssociates(old(exec.pings), Pings(cluster, nodes[..i]), NodePings(cluster, nodes[i]));
        done := done + more;
        if !ok { return; }
      }
      assert nodes[..|nodes|] == nodes;
      return true, done;
    }
  }

  // What the calls of a plan are.

  /** Call `c` is one that the row `n` of the table asks for. */
  predicate Wanted(cluster: string, n: Node, expected: seq<string>, c: Call) {
    && !IsReadOnly(cluster, n.name) && c.host == n.name
    && if c.Remove? then c.peer in n.raftNodes && c.peer !in expected
                    else c.peer in expected && c.peer !in n.raftNodes
  }

  lemma NodePlanMeaning(cluster: string, n: Node, expected: seq<string>, c: Call)
    ensures c in NodePlan(cluster, n, expected) <==> Wanted(cluster, n, expected, c)
  {
    if !IsReadOnly(cluster, n.name) {
      var r, a := Diff(n.raftNodes, expected), Diff(expected, n.raftNodes);
      DiffMeaning(n.raftNodes, expected);
      DiffMeaning(expected, n.raftNodes);
      assert c in NodePlan(cluster, n, expected) <==> c in RemoveCalls(n.name, r) || c in AddCalls(n.name, a);
      assert c.Remove? && c.host == n.name ==> (c.peer in Elements(r) <==> c in RemoveCalls(n.name, r)) by {
        if i: nat :| i < |r| && r[i] == c.peer { assert RemoveCalls(n.name, r)[i] == Remove(n.name, r[i]); }
      }
      assert c.Add? && c.host == n.name ==> (c.peer in Elements(a) <==> c in AddCalls(n.name, a)) by {
        if i: nat :| i < |a| && a[i] == c.peer { assert AddCalls(n.name, a)[i] == Add(n.name, a[i]); }
      }
      assert c.peer in Elements(n.raftNodes) <==> c.peer in n.raftNodes;
      assert c.peer in Elements(expected) <==> c.peer in expected;
    }
  }

  lemma {:induction false} PlanMeaning(cluster: string, nodes: seq<Node>, expected: seq<string>, c: Call)
    ensures c in Plan(cluster, nodes, expected) <==> exists n :: n in nodes && Wanted(cluster, n, expected, c)
  {
    if nodes != [] {
      var init, last := nodes[..|nodes| - 1], nodes[|nodes| - 1];
      PlanMeaning(cluster, init, expected, c);
      NodePlanMeaning(cluster, last, expected, c);
      assert nodes == init + [last];
    }
  }

  /** No call removes an expected peer or adds another one. */
  predicate Proper(calls: seq<Call>, expected: seq<string>) {
    forall c | c in calls :: if c.Remove? then c.peer !in expected else c.peer in expected
  }

  /** Membership after proper calls does not depend on their order. */
  lemma {:induction false} Membership(views: Views, calls: seq<Call>, expected: seq<string>, h: string, p: string)
    requires Proper(calls, expected)
    ensures p in PeersOf(ApplyAll(views, calls), h) <==>
            if p in expected then p in PeersOf(views, h) || Add(h, p) in calls
            else p in PeersOf(views, h) && Remove(h, p) !in calls
  {
    if calls != [] {
      var init, last := calls[..|calls| - 1], calls[|calls| - 1];
      assert calls == init + [last];
      Membership(views, init, expected, h, p);
    }
  }

  // Results about whole passes. `calls` is what took effect; it is always a prefix of the plan.

  /**
   However far a pass gets, no expected peer is removed, every peer set lies between the original and
   the expected one, and read-only nodes are left alone.
   */
  lemma PassStaysBetween(views: Views, cluster: string, nodes: seq<Node>, expected: seq<string>,
                         calls: seq<Call>, h: string)
    requires calls <= Plan(cluster, nodes, expected)
    ensures Proper(calls, expected)
    ensures Between(PeersOf(views, h), PeersOf(ApplyAll(views, calls), h), Elements(expected))
    ensures IsReadOnly(cluster, h) ==> PeersOf(ApplyAll(views, calls), h) == PeersOf(views, h)
  {
    forall c | c in calls
      ensures !IsReadOnly(cluster, c.host)
      ensures if c.Remove? then c.peer !in expected else c.peer in expected
    {
      assert c in Plan(cluster, nodes, expected);
      PlanMeaning(cluster, nodes, expected, c);
    }
    forall p: string
      ensures p in PeersOf(ApplyAll(views, calls), h) <==>
              if p in expected then p in PeersOf(views, h) || Add(h, p) in calls
              else p in PeersOf(views, h) && Remove(h, p) !in calls
    {
      Membership(views, calls, expected, h, p);
    }
  }

  /** Each regular node's reported peer list has the elements of its real peer set. */
  predicate Truthful(views: Views, cluster: string, nodes: seq<Node>) {
    forall n | n in nodes && !IsReadOnly(cluster, n.name) :: Elements(n.raftNodes) == PeersOf(views, n.name)
  }

  /** A complete pass over truthful reports leaves every regular node with exactly the expected peers. */
  lemma CompletePassReachesExpected(views: Views, cluster: string, nodes: seq<Node>, expected: seq<string>, n: Node)
    requires Truthful(views, cluster, nodes) && n in nodes && !IsReadOnly(cluster, n.name)
    ensures PeersOf(ApplyAll(views, Plan(cluster, nodes, expected)), n.name) == Elements(expected)
  {
    var plan := Plan(cluster, nodes, expected);
    PassStaysBetween(views, cluster, nodes, expected, plan, n.name);
    forall p: string
      ensures p in PeersOf(ApplyAll(views, plan), n.name) <==> p in Elements(expected)
    {
      Membership(views, plan, expected, n.name, p);
      PlanMeaning(cluster, nodes, expected, Add(n.name, p));
      PlanMeaning(cluster, nodes, expected, Remove(n.name, p));
      assert p in n.raftNodes <==> p in Elements(n.raftNodes);
      assert p in expected && p !in n.raftNodes ==> Wanted(cluster, n, expected, Add(n.name, p));
      assert p !in expected && p in n.raftNodes ==> Wanted(cluster, n, expected, Remove(n.name, p));
    }
  }

  // Progress: with lists free of duplicates, every effect brings the cluster exactly one step closer.

  function HostDistance(views: Views, host: string, expected: seq<string>): nat {
    Distance(PeersOf(views, host), Elements(expected))
  }

  /** The sum of the distances of the regular hosts. */
  function TotalDistance(views: Views, cluster: string, hosts: seq<string>, expected: seq<string>): nat {
    if hosts == [] then 0
    else
      var last := hosts[|hosts| - 1];
      TotalDistance(views, cluster, hosts[..|hosts| - 1], expected) +
      if IsReadOnly(cluster, last) then 0 else HostDistance(views, last, expected)
  }

  function HostsOf(nodes: seq<Node>): seq<string> {
    seq(|nodes|, i requires 0 <= i < |nodes| => nodes[i].name)
  }

  predicate NoRepeats(calls: seq<Call>) {
    forall i, j | 0 <= i < j < |calls| :: calls[i] != calls[j]
  }

  lemma NodePlanHasNoRepeats(cluster: string, n: Node, expected: seq<string>)
    requires NoDuplicates(n.raftNodes) && NoDuplicates(expected)
    ensures NoRepeats(NodePlan(cluster, n, expected))
  {
    hide Diff, Elements, IsReadOnly;
    DiffMeaning(n.raftNodes, expected);
    DiffMeaning(expected, n.raftNodes);
    CallsHaveNoRepeats(n.name, Diff(n.raftNodes, expected), Diff(expected, n.raftNodes));
  }

  lemma CallsHaveNoRepeats(host: string, removed: seq<string>, added: seq<string>)
    requires NoDuplicates(removed) && NoDuplicates(added)
    ensures NoRepeats(RemoveCalls(host, removed) + AddCalls(host, added))
    ensures NoRepeats([])
  {
  }

  lemma {:induction false} PlanHasNoRepeats(cluster: string, nodes: seq<Node>, expected: seq<string>)
    requires NoDuplicates(HostsOf(nodes)) && NoDuplicates(expected)
    requires forall n | n in nodes :: NoDuplicates(n.raftNodes)
    ensures NoRepeats(Plan(cluster, nodes, expected))
  {
    if nodes != [] {
      var init, last := nodes[..|nodes| - 1], nodes[|nodes| - 1];
      assert nodes == init + [last];
      assert HostsOf(init) == HostsOf(nodes)[..|init|];
      PlanHasNoRepeats(cluster, init, expected);
      NodePlanHasNoRepeats(cluster, last, expected);
      var plan, more := Plan(cluster, init, expected), NodePlan(cluster, last, expected);
      forall i, j | 0 <= i < |plan| && 0 <= j < |more|
        ensures plan[i] != more[j]
      {
        PlanMeaning(cluster, init, expected, plan[i]);
        NodePlanMeaning(cluster, last, expected, more[j]);
        var n :| n in init && Wanted(cluster, n, expected, plan[i]);
        var k :| 0 <= k < |init| && init[k] == n;
        assert HostsOf(nodes)[k] == n.name && HostsOf(nodes)[|init|] == last.name;
      }
    }
  }

  /** Changing one regular host's peers changes the total by that host's change. */
  lemma {:induction false} TotalAfter(views: Views, cluster: string, hosts: seq<string>, expected: seq<string>, c: Call)
    requires NoDuplicates(hosts) && !IsReadOnly(cluster, c.host)
    ensures TotalDistance(Apply(views, c), cluster, hosts, expected) ==
            TotalDistance(views, cluster, hosts, expected) +
            if c.host !in hosts then 0
            else HostDistance(Apply(views, c), c.host, expected) - HostDistance(views, c.host, expected)
  {
    if hosts != [] {
      var init, last := hosts[..|hosts| - 1], hosts[|hosts| - 1];
      assert hosts == init + [last];
      TotalAfter(views, cluster, init, expected, c);
    }
  }

  /** One effect, seen from the host it changes. */
  lemma EffectShrinks(views: Views, c: Call, expected: seq<string>)
    requires c.peer in PeersOf(views, c.host) <==> c.Remove?
    requires c.Remove? <==> c.peer !in expected
    ensures HostDistance(Apply(views, c), c.host, expected) == HostDistance(views, c.host, expected) - 1
  {
    var v := PeersOf(views, c.host);
    assert c.peer in Elements(expected) <==> c.peer in expected;
    if c.Remove? {
      RemoveShrinks(v, Elements(expected), c.peer);
    } else {
      AddShrinks(v, Elements(expected), c.peer);
    }
  }

  /** Each effect of a pass lowers the total distance by exactly one. */
  lemma {:induction false} EveryEffectCounts(views: Views, cluster: string, nodes: seq<Node>, expected: seq<string>,
                                             calls: seq<Call>)
    requires calls <= Plan(cluster, nodes, expected) && Truthful(views, cluster, nodes)
    requires NoDuplicates(HostsOf(nodes)) && NoDuplicates(expected)
    requires forall n | n in nodes :: NoDuplicates(n.raftNodes)
    ensures TotalDistance(ApplyAll(views, calls), cluster, HostsOf(nodes), expected) ==
            TotalDistance(views, cluster, HostsOf(nodes), expected) - |calls|
  {
    hide Plan, Truthful, NoDuplicates, HostsOf, TotalDistance, HostDistance, Apply, PeersOf, IsReadOnly;
    if calls != [] {
      var init, c := calls[..|calls| - 1], calls[|calls| - 1];
      assert calls == init + [c];
      EveryEffectCounts(views, cluster, nodes, expected, init);
      EffectIsNew(views, cluster, nodes, expected, init, c);
      TotalAfter(ApplyAll(views, init), cluster, HostsOf(nodes), expected, c);
      EffectShrinks(ApplyAll(views, init), c, expected);
    }
  }

  /** When a call of the plan is made, the peer it removes is present and the peer it adds is absent. */
  lemma EffectIsNew(views: Views, cluster: string, nodes: seq<Node>, expected: seq<string>,
                    before: seq<Call>, c: Call)
    requires before + [c] <= Plan(cluster, nodes, expected) && Truthful(views, cluster, nodes)
    requires NoDuplicates(HostsOf(nodes)) && NoDuplicates(expected)
    requires forall n | n in nodes :: NoDuplicates(n.raftNodes)
    ensures c.peer in PeersOf(ApplyAll(views, before), c.host) <==> c.Remove?
    ensures !IsReadOnly(cluster, c.host) && c.host in HostsOf(nodes)
    ensures c.Remove? <==> c.peer !in expected
  {
    var plan := Plan(cluster, nodes, expected);
    assert plan[|before|] == c;
    PlanHasNoRepeats(cluster, nodes, expected);
    forall i | 0 <= i < |before|
      ensures before[i] != c
    {
      assert plan[i] == before[i];
    }
    assert c in plan;
    PlanMeaning(cluster, nodes, expected, c);
    var n :| n in nodes && Wanted(cluster, n, expected, c);
    var k :| 0 <= k < |nodes| && nodes[k] == n;
    assert HostsOf(nodes)[k] == c.host;
    assert c.peer in n.raftNodes <==> c.peer in Elements(n.raftNodes);
    assert before <= plan;
    PassStaysBetween(views, cluster, nodes, expected, before, c.host);
    Membership(views, before, expected, c.host, c.peer);
  }

  /** A plan has exactly as many calls as there are differences; in particular none when there are none. */
  lemma PlanLength(views: Views, cluster: string, nodes: seq<Node>, expected: seq<string>)
    requires Truthful(views, cluster, nodes) && NoDuplicates(HostsOf(nodes)) && NoDuplicates(expected)
    requires forall n | n in nodes :: NoDuplicates(n.raftNodes)
    ensures |Plan(cluster, nodes, expected)| == TotalDistance(views, cluster, HostsOf(nodes), expected)
  {
    var plan := Plan(cluster, nodes, expected);
    EveryEffectCounts(views, cluster, nodes, expected, plan);
    forall h | h in HostsOf(nodes) && !IsReadOnly(cluster, h)
      ensures PeersOf(ApplyAll(views, plan), h) == Elements(expected)
    {
      var k :| 0 <= k < |nodes| && nodes[k].name == h;
      CompletePassReachesExpected(views, cluster, nodes, expected, nodes[k]);
    }
    TotalZero(ApplyAll(views, plan), cluster, HostsOf(nodes), expected);
  }

  lemma {:induction false} TotalZero(views: Views, cluster: string, hosts: seq<string>, expected: seq<string>)
    ensures TotalDistance(views, cluster, hosts, expected) == 0 <==>
            forall h | h in hosts && !IsReadOnly(cluster, h) :: PeersOf(views, h) == Elements(expected)
  {
    if hosts != [] {
      var init, last := hosts[..|hosts| - 1], hosts[|hosts| - 1];
      assert hosts == init + [last];
      TotalZero(views, cluster, init, expected);
      DistanceZero(PeersOf(views, last), Elements(expected));
    }
  }

  // Repeated passes.

  lemma {:induction false} ApplyAllConcat(views: Views, a: seq<Call>, b: seq<Call>)
    ensures ApplyAll(views, a + b) == ApplyAll(ApplyAll(views, a), b)
  {
    if b == [] {
      assert a + b == a;
    } else {
      ApplyAllConcat(views, a, b[..|b| - 1]);
      assert (a + b)[..|a + b| - 1] == a + b[..|b| - 1];
    }
  }

  lemma PeersDistinct(cluster: string, namespace: string, n: nat)
    ensures NoDuplicates(Naming.Peers(cluster, namespace, n))
  {
    forall i, j | 0 <= i < j < n
      ensures Naming.Peer(cluster, namespace, i) != Naming.Peer(cluster, namespace, j)
    {
      if Naming.Peer(cluster, namespace, i) == Naming.Peer(cluster, namespace, j) {
        Naming.PeerDistinct(cluster, namespace, i, j);
      }
    }
  }

  /** What the nodes report: their peers, in any order. */
  method ReportAll(exec: XenonExecutor, hosts: seq<string>) returns (nodes: seq<Node>)
    ensures HostsOf(nodes) == hosts
    ensures forall n | n in nodes :: NoDuplicates(n.raftNodes) && Elements(n.raftNodes) == PeersOf(exec.views, n.name)
  {
    nodes := [];
    for i := 0 to |hosts|
      invariant HostsOf(nodes) == hosts[..i]
      invariant forall n | n in nodes ::
                  NoDuplicates(n.raftNodes) && Elements(n.raftNodes) == PeersOf(exec.views, n.name)
    {
      var peers := List(PeersOf(exec.views, hosts[i]));
      nodes := nodes + [Node(hosts[i], peers)];
    }
  }

  /**
   Any number of passes, each on fresh reports and each free to fail: the distance falls by exactly one
   per effect, so at most that many calls ever take effect, and it is zero after a successful last pass.
   */
  method ReconcileRounds(s: StatusSyncer, hosts: seq<string>, readyNodes: nat, rounds: nat) returns (ok: bool)
    requires s.exec.Valid() && NoDuplicates(hosts)
    modifies s.exec
    ensures s.exec.Valid() && old(s.exec.effects) <= s.exec.effects
    ensures var expected := Naming.Peers(s.cluster, s.namespace, readyNodes);
            && TotalDistance(s.exec.views, s.cluster, hosts, expected) ==
               old(TotalDistance(s.exec.views, s.cluster, hosts, expected)) -
               (|s.exec.effects| - |old(s.exec.effects)|)
            && (rounds > 0 && ok ==> TotalDistance(s.exec.views, s.cluster, hosts, expected) == 0)
  {
    ghost var expected := Naming.Peers(s.cluster, s.namespace, readyNodes);
    PeersDistinct(s.cluster, s.namespace, readyNodes);
    ok := true;
    for r := 0 to rounds
      invariant s.exec.Valid() && old(s.exec.effects) <= s.exec.effects
      invariant TotalDistance(s.exec.views, s.cluster, hosts, expected) ==
                old(TotalDistance(s.exec.views, s.cluster, hosts, expected)) -
                (|s.exec.effects| - |old(s.exec.effects)|)
      invariant r > 0 && ok ==> TotalDistance(s.exec.views, s.cluster, hosts, expected) == 0
    {
      var nodes := ReportAll(s.exec, hosts);
      ghost var before, effects := s.exec.views, s.exec.effects;
      ghost var done;
      ok, done := s.ReconcileXenon(nodes, readyNodes);
      ApplyAllConcat(s.exec.initial, effects, done);
      EveryEffectCounts(before, s.cluster, nodes, expected, done);
      PlanLength(before, s.cluster, nodes, expected);
    }
  }

  /** The addresses of regular pods are reconciled, those of read-only pods never. */
  lemma NodeKind(cluster: string, i: nat, rest: string)
    ensures !IsReadOnly(cluster, Naming.PodName(cluster, i) + rest)
    ensures IsReadOnly(cluster, Naming.ReadOnlyPodName(cluster, i) + rest)
  {
    var ro, regular := Naming.ReadOnlyName(cluster), Naming.PodName(cluster, i) + rest;
    assert ro[|cluster| + 1] == 'r' && regular[|cluster| + 1] == 'm';
  }
}
