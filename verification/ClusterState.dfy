/**
 The cluster state machine kept by the status syncer. The only other writer of the state is the
 rolling update, which sets it to Updating.
 */
module ClusterState {
  import opened GoStrings

  datatype State = Unset | Initializing | Updating | Ready | Closed | ScaleIn | ScaleOut

  /** The persisted part of the cluster status that the state machine reads and writes. */
  datatype Status = Status(state: State, readyNodes: nat)

  /** A listed pod: whether it carries the rebuild label, and whether its containers are ready. */
  datatype PodView = PodView(rebuilding: bool, containersReady: bool)

  predicate CountsAsReady(p: PodView) {
    !p.rebuilding && p.containersReady
  }

  function ReadyCount(pods: seq<PodView>): nat {
    if pods == [] then 0
    else ReadyCount(pods[..|pods| - 1]) + if CountsAsReady(pods[|pods| - 1]) then 1 else 0
  }

  /** What one Sync meets: the spec's replicas, the listed pods (None: listing failed), Xenon's answer. */
  datatype Round = Round(replicas: nat, pods: Option<seq<PodView>>, xenonOk: bool)

  /** All replicas are ready, there is at least one, and the Xenon reconcile succeeded. */
  predicate AllReady(r: Round) {
    r.pods.Some? && ReadyCount(r.pods.value) == r.replicas && r.replicas != 0 && r.xenonOk
  }

  /** The state chosen before the pods are looked at. */
  function Reclassify(st: Status, replicas: nat): State {
    match st.state
    case Unset => Initializing
    case Updating => Updating
    case _ =>
      if replicas == 0 && st.readyNodes == 0 then Closed
      else if st.state.Ready? || st.state.Closed? then
        if replicas > st.readyNodes then ScaleOut
        else if replicas < st.readyNodes then ScaleIn
        else st.state
      else st.state
  }

  function SyncStep(st: Status, r: Round): Status {
    if r.pods.None? then Status(Reclassify(st, r.replicas), st.readyNodes)
    else Status(if AllReady(r) then Ready else Reclassify(st, r.replicas), ReadyCount(r.pods.value))
  }

  class StatusSyncer {
    var state: State
    var readyNodes: nat

    constructor (st: Status)
      ensures View() == st
    {
      state, readyNodes := st.state, st.readyNodes;
    }

    function View(): Status
      reads this
    {
      Status(state, readyNodes)
    }

    /** Assigns the new state branch by branch, returning early as soon as one branch applies. */
    method UpdateClusterStatus(replicas: nat)
      modifies this`state
      ensures state == Reclassify(old(View()), replicas)
    {
      var oldState := state;
      if oldState == Unset {
        state := Initializing;
        return;
      }
      if oldState == Updating { return; }
      if replicas == 0 && readyNodes == 0 {
        state := Closed;
        return;
      }
      if oldState == Ready || oldState == Closed {
        if replicas > readyNodes {
          state := ScaleOut;
          return;
        } else if replicas < readyNodes {
          state := ScaleIn;
          return;
        }
      }
    }

    method Sync(r: Round) returns (ok: bool)
      modifies this
      ensures View() == SyncStep(old(View()), r)
      ensures ok == r.pods.Some?
    {
      UpdateClusterStatus(r.replicas);
      if r.pods.None? { return false; }
      var pods, ready := r.pods.value, 0;
      for i := 0 to |pods|
        invariant ready == ReadyCount(pods[..i])
        invariant state == Reclassify(old(View()), r.replicas)
      {
        assert pods[..i + 1][..i] == pods[..i];
        if pods[i].rebuilding { continue; }
        if pods[i].containersReady { ready := ready + 1; }
      }
      assert pods[..|pods|] == pods;
      readyNodes := ready;
      if readyNodes == r.replicas && r.replicas != 0 {
        if r.xenonOk { state := Ready; }
      }
      return true;
    }
  }

  // Runs: any interleaving of Syncs and of updates started by the StatefulSet syncer.

  datatype Action = Sync(round: Round) | StartUpdate

  function Act(st: Status, a: Action): Status {
    match a
    case Sync(r) => SyncStep(st, r)
    case StartUpdate => st.(state := Updating)
  }

  function Run(st: Status, actions: seq<Action>): Status {
    if actions == [] then st else Act(Run(st, actions[..|actions| - 1]), actions[|actions| - 1])
  }

  predicate GoodSync(a: Action) {
    a.Sync? && AllReady(a.round)
  }

  /** Once Updating, a run stays Updating exactly until its first good Sync, which makes it Ready. */
  lemma {:induction false} UpdatingUntilReady(st: Status, actions: seq<Action>)
    requires st.state == Updating
    requires forall a | a in actions[..if actions == [] then 0 else |actions| - 1] :: !GoodSync(a)
    ensures Run(st, actions).state ==
            if actions != [] && GoodSync(actions[|actions| - 1]) then Ready else Updating
  {
    if actions != [] {
      var init := actions[..|actions| - 1];
      forall a | a in init[..if init == [] then 0 else |init| - 1]
        ensures !GoodSync(a)
      {
        assert a in init;
      }
      UpdatingUntilReady(st, init);
      assert init != [] ==> init[|init| - 1] in init;
    }
  }

  /** A cluster scaled to zero while Updating is stuck there for as long as it stays at zero. */
  lemma UpdatingStuckAtZero(st: Status, actions: seq<Action>)
    requires st.state == Updating
    requires forall a | a in actions && a.Sync? :: a.round.replicas == 0
    ensures Run(st, actions).state == Updating
  {
    UpdatingUntilReady(st, actions);
  }

  /**
   The state after a run is Ready only if, at the last change of state, all of the replicas asked for
   were ready and Xenon agreed; from there on every Sync met the same positive number of replicas.
   */
  lemma {:induction false} ReadyHasAWitness(st: Status, actions: seq<Action>) returns (k: nat)
    requires st.state != Ready && Run(st, actions).state == Ready
    ensures k < |actions| && GoodSync(actions[k])
    ensures forall i | k <= i < |actions| :: actions[i].Sync? && actions[i].round.replicas != 0 &&
                                            Run(st, actions[..i + 1]).state == Ready
  {
    assert actions != [];
    var init, last := actions[..|actions| - 1], actions[|actions| - 1];
    assert actions[..|actions|] == actions;
    if GoodSync(last) {
      k := |actions| - 1;
    } else {
      StaysReady(Run(st, init), last);
      k := ReadyHasAWitness(st, init);
      forall i | k <= i < |init|
        ensures actions[i] == init[i] && actions[..i + 1] == init[..i + 1]
      {
      }
    }
  }

  lemma StaysReady(st: Status, a: Action)
    requires Act(st, a).state == Ready && !GoodSync(a)
    ensures st.state == Ready && a.Sync? && a.round.replicas != 0
  {
  }

  predicate StaleReady(st: Status, replicas: nat) {
    st.state == Ready && st.readyNodes != replicas
  }

  /** In every run, a Ready state whose count differs from the spec's is gone after the next Sync of that spec. */
  lemma StaleReadyIsShortLived(st: Status, actions: seq<Action>, i: nat, replicas: nat)
    requires i < |actions| && actions[i].Sync? && actions[i].round.replicas == replicas
    requires StaleReady(Run(st, actions[..i]), replicas)
    ensures !StaleReady(Run(st, actions[..i + 1]), replicas)
  {
    assert actions[..i + 1][..i] == actions[..i];
  }

  /** Two Syncs in a row at zero replicas close every cluster not being updated, if the first sees no ready pod. */
  lemma ClosesInTwo(st: Status, actions: seq<Action>, i: nat)
    requires i + 1 < |actions| && actions[i].Sync? && actions[i + 1].Sync?
    requires Run(st, actions[..i]).state != Updating
    requires actions[i].round.replicas == 0 && actions[i + 1].round.replicas == 0
    requires actions[i].round.pods.Some? && ReadyCount(actions[i].round.pods.value) == 0
    ensures Run(st, actions[..i + 2]).state == Closed
  {
    assert actions[..i + 1][..i] == actions[..i];
    assert actions[..i + 2][..i + 1] == actions[..i + 1];
  }

  // One Sync, state by state.

  /** The places of the listed pods that are ready and not being rebuilt. */
  function ReadyPlaces(pods: seq<PodView>): set<nat> {
    set i: nat | i < |pods| && pods[i].containersReady && !pods[i].rebuilding
  }

  lemma {:induction false} ReadyCountExactly(pods: seq<PodView>)
    ensures ReadyCount(pods) == |ReadyPlaces(pods)|
  {
    if pods != [] {
      var n := |pods| - 1;
      ReadyCountExactly(pods[..n]);
      var last := if pods[n].containersReady && !pods[n].rebuilding then {n} else {};
      assert ReadyPlaces(pods) == ReadyPlaces(pods[..n]) + last;
    }
  }

  /** The Sync lists as many ready pods as are wanted, at least one, and Xenon agrees. */
  predicate Good(r: Round) {
    r.pods.Some? && |ReadyPlaces(r.pods.value)| == r.replicas > 0 && r.xenonOk
  }

  lemma GoodIsAllReady(r: Round)
    ensures Good(r) <==> AllReady(r)
  {
    if r.pods.Some? { ReadyCountExactly(r.pods.value); }
  }

  /** The counter becomes the number of ready pods listed, or stays when the list fails. */
  lemma CountExactly(st: Status, r: Round)
    ensures SyncStep(st, r).readyNodes == if r.pods.Some? then |ReadyPlaces(r.pods.value)| else st.readyNodes
  {
    if r.pods.Some? { ReadyCountExactly(r.pods.value); }
  }

  /** A Sync ends in Ready exactly if it is good, or if it was Ready for the replicas still wanted. */
  lemma ReadyExactly(st: Status, r: Round)
    ensures SyncStep(st, r).state == Ready <==>
            Good(r) || (st.state == Ready && st.readyNodes == r.replicas && r.replicas != 0)
  {
    GoodIsAllReady(r);
  }

  /** Closed is reached only at zero wanted and zero counted replicas, and left only by scaling or updating. */
  lemma ClosedExactly(st: Status, r: Round)
    ensures SyncStep(st, r).state == Closed <==>
            && !Good(r) && st.state != Unset && st.state != Updating
            && st.readyNodes == r.replicas
            && (r.replicas == 0 || st.state == Closed)
  {
    GoodIsAllReady(r);
  }

  /** Scaling out begins with more replicas wanted than counted, and lasts until all are ready or none is wanted. */
  lemma ScaleOutExactly(st: Status, r: Round)
    ensures SyncStep(st, r).state == ScaleOut <==>
            && !Good(r)
            && (|| (st.state in {Ready, Closed} && r.replicas > st.readyNodes)
                || (st.state == ScaleOut && !(r.replicas == 0 && st.readyNodes == 0)))
  {
    GoodIsAllReady(r);
  }

  /** Scaling in begins with fewer replicas wanted than counted, and ends in the same way. */
  lemma ScaleInExactly(st: Status, r: Round)
    ensures SyncStep(st, r).state == ScaleIn <==>
            && !Good(r)
            && (|| (st.state in {Ready, Closed} && r.replicas < st.readyNodes)
                || (st.state == ScaleIn && !(r.replicas == 0 && st.readyNodes == 0)))
  {
    GoodIsAllReady(r);
  }

  /** A new cluster is Initializing until its first good Sync, or until none is wanted and none is ready. */
  lemma InitializingExactly(st: Status, r: Round)
    ensures SyncStep(st, r).state == Initializing <==>
            && !Good(r)
            && (|| st.state == Unset
                || (st.state == Initializing && !(r.replicas == 0 && st.readyNodes == 0)))
  {
    GoodIsAllReady(r);
  }

  /** Updating is neither entered by a Sync nor left but by a good one, and no Sync leaves the state unset. */
  lemma UpdatingExactly(st: Status, r: Round)
    ensures SyncStep(st, r).state == Updating <==> !Good(r) && st.state == Updating
    ensures SyncStep(st, r).state != Unset
  {
    GoodIsAllReady(r);
  }
}
