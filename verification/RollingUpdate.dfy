/**
 The rolling update of a StatefulSet: followers first, the leader last, one pod at a time.

 The API server is the environment: every Get may return any copy of the pod, no pod or an error,
 and every poll may make any number of attempts before it times out. The answers are a parameter, so
 the results hold for all of them: what a run does on every exit is safe, and it succeeds exactly when
 the answers for every listed pod let it.
 */
module RollingUpdate {
  import opened GoStrings
  import Naming
  import ClusterState

  /** The parts of a pod the update looks at: its labels, phase and deletion timestamp. */
  datatype Pod = Pod(name: string, revision: string, healthy: bool, leader: bool, failed: bool, deleting: bool)

  datatype GetResult = Found(pod: Pod) | NotFound | Failure

  /** What happens during a run, in order. */
  datatype Event =
    | Seen(pod: Pod)          // a Get replaced the copy of the pod by this one
    | Delete(name: string)    // a Delete was requested
    | Checked(pod: Pod)       // the health check of the pod passed with this copy
    | Confirmed(name: string) // the update of the pod finished without error

  /** What a run works towards: the listed pods, the revision to reach and the wanted replicas. */
  datatype Goal = Goal(listed: seq<Pod>, revision: string, replicas: nat)

  function Names(pods: seq<Pod>): set<string> {
    set p | p in pods :: p.name
  }

  // Reading a trace.

  function ListedCopy(listed: seq<Pod>, n: string): Option<Pod> {
    if listed == [] then None
    else if listed[0].name == n then Some(listed[0])
    else ListedCopy(listed[1..], n)
  }

  /** The copy of pod `n` that the program holds after `tr`. */
  function LastSeen(g: Goal, tr: seq<Event>, n: string): Option<Pod> {
    if tr == [] then ListedCopy(g.listed, n)
    else
      var e := tr[|tr| - 1];
      if e.Seen? && e.pod.name == n then Some(e.pod) else LastSeen(g, tr[..|tr| - 1], n)
  }

  /** The first pod whose health check passed with the role label LEADER. */
  function FirstLeader(tr: seq<Event>): Option<string> {
    if tr == [] then None
    else
      var earlier, e := FirstLeader(tr[..|tr| - 1]), tr[|tr| - 1];
      if earlier.None? && e.Checked? && e.pod.leader then Some(e.pod.name) else earlier
  }

  ghost predicate CheckedName(tr: seq<Event>, n: string) {
    exists q :: Checked(q) in tr && q.name == n
  }

  /** Pod `n` is out of range, or healthy at the target revision in the copy `p`. */
  predicate SettledCopy(g: Goal, n: string, p: Option<Pod>) {
    var o := Naming.GetOrdinal(n);
    || (o.Some? && o.value >= g.replicas)
    || (p.Some? && p.value.healthy && p.value.revision == g.revision)
  }

  predicate Settled(g: Goal, tr: seq<Event>, n: string) {
    SettledCopy(g, n, LastSeen(g, tr, n))
  }

  // The state that a trace leads to, and which event is allowed in which state.

  datatype Summary = Summary(copies: map<string, Pod>, deleted: set<string>, confirmed: set<string>,
                             checked: set<string>, leader: Option<string>)

  function InitialCopies(listed: seq<Pod>): map<string, Pod> {
    if listed == [] then map[] else InitialCopies(listed[1..])[listed[0].name := listed[0]]
  }

  function After(s: Summary, e: Event): Summary {
    match e
    case Seen(p) => s.(copies := s.copies[p.name := p])
    case Delete(n) => s.(deleted := s.deleted + {n})
    case Checked(p) =>
      s.(checked := s.checked + {p.name},
         leader := if s.leader.None? && p.leader then Some(p.name) else s.leader)
    case Confirmed(n) => s.(confirmed := s.confirmed + {n})
  }

  function Summarize(g: Goal, tr: seq<Event>): Summary {
    if tr == [] then Summary(InitialCopies(g.listed), {}, {}, {}, None)
    else After(Summarize(g, tr[..|tr| - 1]), tr[|tr| - 1])
  }

  function CopyOf(s: Summary, n: string): Option<Pod> {
    if n in s.copies then Some(s.copies[n]) else None
  }

  predicate Allowed(g: Goal, s: Summary, e: Event) {
    match e
    case Seen(p) =>
      p.name in s.copies && p.name !in s.confirmed
    case Checked(p) =>
      && CopyOf(s, p.name) == Some(p) && p.healthy
      && p.name !in s.checked
      && s.deleted <= s.confirmed
      && s.checked <= s.confirmed + (if s.leader.Some? then {s.leader.value} else {})
    case Delete(n) =>
      && n in s.copies && s.copies[n].revision != g.revision && !s.copies[n].deleting
      && g.revision != "" && g.replicas != 0
      && n in s.checked && n !in s.confirmed
      && s.deleted - {n} <= s.confirmed
      && (s.leader == Some(n) ==> Names(g.listed) - {n} <= s.confirmed)
    case Confirmed(n) =>
      SettledCopy(g, n, CopyOf(s, n))
  }

  /** Every event of the trace was allowed in the state before it. */
  predicate Safe(g: Goal, tr: seq<Event>) {
    tr == [] ||
    var init := tr[..|tr| - 1];
    Safe(g, init) && Allowed(g, Summarize(g, init), tr[|tr| - 1])
  }

  lemma AppendEvent(g: Goal, tr: seq<Event>, e: Event)
    ensures Summarize(g, tr + [e]) == After(Summarize(g, tr), e)
    ensures Safe(g, tr + [e]) <==> Safe(g, tr) && Allowed(g, Summarize(g, tr), e)
  {
    assert (tr + [e])[..|tr|] == tr;
  }

  // What a safe trace means, in terms of its events.

  lemma {:induction false} InitialCopyMeaning(listed: seq<Pod>, n: string)
    ensures n in InitialCopies(listed) <==> n in Names(listed)
    ensures ListedCopy(listed, n) == if n in Names(listed) then Some(InitialCopies(listed)[n]) else None
  {
    if listed != [] {
      InitialCopyMeaning(listed[1..], n);
      assert listed == [listed[0]] + listed[1..];
      assert Names(listed) == {listed[0].name} + Names(listed[1..]);
    }
  }

  /** The summary records exactly what the trace contains. */
  lemma {:induction false} SummaryMeaning(g: Goal, tr: seq<Event>, n: string)
    ensures var s := Summarize(g, tr);
            && (n in s.deleted <==> Delete(n) in tr)
            && (n in s.confirmed <==> Confirmed(n) in tr)
            && (n in s.checked <==> CheckedName(tr, n))
            && CopyOf(s, n) == LastSeen(g, tr, n)
            && s.leader == FirstLeader(tr)
  {
    if tr == [] {
      InitialCopyMeaning(g.listed, n);
    } else {
      var init, e := tr[..|tr| - 1], tr[|tr| - 1];
      SummaryMeaning(g, init, n);
      assert tr == init + [e];
      if e.Checked? && e.pod.name == n {
        assert Checked(e.pod) in tr;
      }
    }
  }

  lemma {:induction false} EveryEventAllowed(g: Goal, tr: seq<Event>, i: nat)
    requires Safe(g, tr) && i < |tr|
    ensures Safe(g, tr[..i]) && Allowed(g, Summarize(g, tr[..i]), tr[i])
  {
    if i < |tr| - 1 {
      EveryEventAllowed(g, tr[..|tr| - 1], i);
      assert tr[..|tr| - 1][..i] == tr[..i];
    }
  }

  /** Once confirmed, a pod stays settled: its last copy is never replaced. */
  lemma {:induction false} ConfirmedStaysSettled(g: Goal, tr: seq<Event>, n: string)
    requires Safe(g, tr) && Confirmed(n) in tr
    ensures Settled(g, tr, n)
  {
    var init, e := tr[..|tr| - 1], tr[|tr| - 1];
    assert tr == init + [e];
    SummaryMeaning(g, init, n);
    if Confirmed(n) in init {
      ConfirmedStaysSettled(g, init, n);
    }
  }

  /** At every moment at most one pod has been deleted and not yet confirmed back. */
  lemma {:induction false} OneAtATime(g: Goal, tr: seq<Event>, m: string, n: string)
    requires Safe(g, tr)
    requires Delete(m) in tr && Confirmed(m) !in tr && Delete(n) in tr && Confirmed(n) !in tr
    ensures m == n
  {
    var init, e := tr[..|tr| - 1], tr[|tr| - 1];
    assert tr == init + [e];
    SummaryMeaning(g, init, m);
    SummaryMeaning(g, init, n);
    if Delete(m) in init && Delete(n) in init {
      OneAtATime(g, init, m, n);
    }
  }

  /**
   The meaning of a Delete at position `i`: the pod's last copy is outdated and not being deleted, its
   health check passed before, every other pod deleted so far is back and still settled, and if the
   pod is the deferred leader then all the other listed pods have been confirmed and are settled.
   */
  lemma DeleteMeaning(g: Goal, tr: seq<Event>, i: nat, m: string)
    requires Safe(g, tr) && i < |tr| && tr[i].Delete?
    ensures var n := tr[i].name;
            var p := LastSeen(g, tr[..i], n);
            && p.Some? && p.value.revision != g.revision && !p.value.deleting
            && CheckedName(tr[..i], n) && Confirmed(n) !in tr[..i]
            && g.replicas != 0
    ensures Delete(m) in tr[..i] && m != tr[i].name ==> Confirmed(m) in tr[..i] && Settled(g, tr[..i], m)
    ensures FirstLeader(tr[..i]) == Some(tr[i].name) && m in Names(g.listed) && m != tr[i].name ==>
              Confirmed(m) in tr[..i] && Settled(g, tr[..i], m)
  {
    EveryEventAllowed(g, tr, i);
    SummaryMeaning(g, tr[..i], tr[i].name);
    SummaryMeaning(g, tr[..i], m);
    if Confirmed(m) in tr[..i] {
      ConfirmedStaysSettled(g, tr[..i], m);
    }
  }

  /** A health check starts only when no deleted pod is missing and all earlier pods but the leader are done. */
  lemma CheckMeaning(g: Goal, tr: seq<Event>, i: nat, m: string)
    requires Safe(g, tr) && i < |tr| && tr[i].Checked?
    ensures tr[i].pod.healthy && LastSeen(g, tr[..i], tr[i].pod.name) == Some(tr[i].pod)
    ensures Delete(m) in tr[..i] ==> Confirmed(m) in tr[..i]
    ensures CheckedName(tr[..i], m) ==> Confirmed(m) in tr[..i] || FirstLeader(tr[..i]) == Some(m)
  {
    EveryEventAllowed(g, tr, i);
    SummaryMeaning(g, tr[..i], tr[i].pod.name);
    SummaryMeaning(g, tr[..i], m);
  }

  // The three polls of one pod, as functions of the answers they get.

  /** One attempt to replace a pod: what the Get answers, and whether a Delete is accepted. */
  datatype Attempt = Attempt(get: GetResult, accepts: bool)

  /** The answers for one pod, poll by poll; a poll times out after its last answer. */
  datatype Answers = Answers(check: seq<GetResult>, replace: seq<Attempt>, wait: seq<GetResult>)

  /** The copy held after a Get: only a found pod replaces it. */
  function Held(copy: Pod, r: GetResult): Pod {
    if r.Found? then r.pod.(name := copy.name) else copy
  }

  /** The copy held after the first `k` answers. */
  function Copies(copy: Pod, gets: seq<GetResult>, k: nat): Pod
    requires k <= |gets|
    decreases k
  {
    if k == 0 then copy else Copies(Held(copy, gets[0]), gets[1..], k - 1)
  }

  /** It is the one found last, or the copy there was at the start. */
  lemma {:induction false} CopiesExactly(copy: Pod, gets: seq<GetResult>, k: nat, j: int)
    requires -1 <= j < k <= |gets| && (j >= 0 ==> gets[j].Found?)
    requires forall i | j < i < k :: !gets[i].Found?
    ensures Copies(copy, gets, k) == if j < 0 then copy else gets[j].pod.(name := copy.name)
    decreases k
  {
    if k > 1 {
      CopiesExactly(Held(copy, gets[0]), gets[1..], k - 1, if j < 0 then -1 else j - 1);
    }
  }

  // The health check.

  /** The copy with which the health check passes, if it does. */
  function CheckPoll(copy: Pod, gets: seq<GetResult>): (r: Option<Pod>)
    ensures r.Some? ==> r.value.healthy && r.value.name == copy.name
    decreases |gets|
  {
    if gets == [] then None
    else
      var pod := Held(copy, gets[0]);
      if pod.healthy then Some(pod) else CheckPoll(pod, gets[1..])
  }

  predicate HealthyAt(copy: Pod, gets: seq<GetResult>, k: nat) {
    k < |gets| && Copies(copy, gets, k + 1).healthy
  }

  predicate FirstHealthyAt(copy: Pod, gets: seq<GetResult>, k: nat) {
    HealthyAt(copy, gets, k) && forall j: nat | j < k :: !HealthyAt(copy, gets, j)
  }

  /** It passes exactly if the copy held is healthy after some answer, and with the first such copy. */
  lemma {:induction false} CheckPollExactly(copy: Pod, gets: seq<GetResult>)
    ensures CheckPoll(copy, gets).Some? <==> exists k: nat :: HealthyAt(copy, gets, k)
    ensures CheckPoll(copy, gets).Some? ==> exists k: nat :: FirstHealthyAt(copy, gets, k)
    ensures forall k: nat | FirstHealthyAt(copy, gets, k) :: CheckPoll(copy, gets) == Some(Copies(copy, gets, k + 1))
    decreases |gets|
  {
    if gets != [] {
      var pod, rest := Held(copy, gets[0]), gets[1..];
      assert Copies(copy, gets, 1) == Copies(pod, rest, 0) == pod;
      assert HealthyAt(copy, gets, 0) <==> pod.healthy;
      CheckPollExactly(pod, rest);
      forall k: nat
        ensures HealthyAt(copy, gets, k + 1) <==> HealthyAt(pod, rest, k)
        ensures FirstHealthyAt(copy, gets, k + 1) <==> !pod.healthy && FirstHealthyAt(pod, rest, k)
      {
        FirstShifts(copy, gets, k);
      }
      if pod.healthy {
        assert FirstHealthyAt(copy, gets, 0);
      } else if k: nat :| FirstHealthyAt(pod, rest, k) {
        assert FirstHealthyAt(copy, gets, k + 1);
      }
      forall k: nat | FirstHealthyAt(copy, gets, k)
        ensures CheckPoll(copy, gets) == Some(Copies(copy, gets, k + 1))
      {
        if k > 0 { assert FirstHealthyAt(pod, rest, k - 1); }
      }
      if k: nat :| HealthyAt(copy, gets, k) {
        if k > 0 { assert HealthyAt(pod, rest, k - 1); }
      }
    }
  }

  lemma FirstShifts(copy: Pod, gets: seq<GetResult>, k: nat)
    requires gets != []
    ensures var pod, rest := Held(copy, gets[0]), gets[1..];
            FirstHealthyAt(copy, gets, k + 1) <==> !pod.healthy && FirstHealthyAt(pod, rest, k)
  {
    var pod, rest := Held(copy, gets[0]), gets[1..];
    assert Copies(copy, gets, 1) == Copies(pod, rest, 0) == pod;
    forall j: nat
      ensures HealthyAt(copy, gets, j + 1) <==> HealthyAt(pod, rest, j)
    {
    }
    hide Held, Copies, HealthyAt;
    if FirstHealthyAt(copy, gets, k + 1) {
      forall j: nat | j < k
        ensures !HealthyAt(pod, rest, j)
      {
        assert !HealthyAt(copy, gets, j + 1);
      }
      assert !HealthyAt(copy, gets, 0);
    }
    if !pod.healthy && FirstHealthyAt(pod, rest, k) {
      forall j: nat | j < k + 1
        ensures !HealthyAt(copy, gets, j)
      {
        if j > 0 { assert !HealthyAt(pod, rest, j - 1); }
      }
    }
  }

  // Replacing the pod.

  /** How the first poll ends: with success or not, with which copy, after how many Deletes. */
  datatype Replacement = Replacement(ok: bool, pod: Pod, deletes: nat)

  function ReplacePoll(revision: string, replicas: nat, copy: Pod, attempts: seq<Attempt>): Replacement
    decreases |attempts|
  {
    if attempts == [] then Replacement(false, copy, 0)
    else
      var pod, rest := Held(copy, attempts[0].get), attempts[1..];
      if !attempts[0].get.Found? then ReplacePoll(revision, replicas, pod, rest)
      else if replicas == 0 then Replacement(true, pod, 0)
      else if pod.deleting then ReplacePoll(revision, replicas, pod, rest)
      else if pod.revision == revision then Replacement(true, pod, 0)
      else if !attempts[0].accepts then Replacement(false, pod, 1)
      else
        var r := ReplacePoll(revision, replicas, pod, rest);
        r.(deletes := r.deletes + 1)
  }

  function GetsOf(attempts: seq<Attempt>): seq<GetResult> {
    seq(|attempts|, i requires 0 <= i < |attempts| => attempts[i].get)
  }

  /** Attempt `k` finds the pod at the new revision and not being deleted, or nothing is wanted any more. */
  predicate ReplacedAt(revision: string, replicas: nat, copy: Pod, attempts: seq<Attempt>, k: nat) {
    && k < |attempts| && attempts[k].get.Found?
    && var pod := Copies(copy, GetsOf(attempts), k + 1);
       replicas == 0 || (pod.revision == revision && !pod.deleting)
  }

  /** Attempt `k` finds an outdated pod that is not being deleted, so it asks for its deletion. */
  predicate OutdatedAt(revision: string, replicas: nat, copy: Pod, attempts: seq<Attempt>, k: nat) {
    && k < |attempts| && attempts[k].get.Found? && replicas != 0
    && var pod := Copies(copy, GetsOf(attempts), k + 1);
       pod.revision != revision && !pod.deleting
  }

  lemma ShiftAttempt(revision: string, replicas: nat, copy: Pod, attempts: seq<Attempt>, k: nat)
    requires attempts != []
    ensures var pod, rest := Held(copy, attempts[0].get), attempts[1..];
            && (ReplacedAt(revision, replicas, copy, attempts, k + 1) <==> ReplacedAt(revision, replicas, pod, rest, k))
            && (OutdatedAt(revision, replicas, copy, attempts, k + 1) <==> OutdatedAt(revision, replicas, pod, rest, k))
    ensures Copies(copy, GetsOf(attempts), 1) == Held(copy, attempts[0].get)
  {
    assert GetsOf(attempts)[1..] == GetsOf(attempts[1..]);
  }

  /** Attempt `k` leads to another one: it is not the last word, and a Delete it asks for is accepted. */
  predicate GoesOnAt(revision: string, replicas: nat, copy: Pod, attempts: seq<Attempt>, k: nat) {
    && k < |attempts| && !ReplacedAt(revision, replicas, copy, attempts, k)
    && (OutdatedAt(revision, replicas, copy, attempts, k) ==> attempts[k].accepts)
  }

  /** Attempt `k` is the one that finds the pod replaced. */
  predicate EndsAt(revision: string, replicas: nat, copy: Pod, attempts: seq<Attempt>, k: nat) {
    && ReplacedAt(revision, replicas, copy, attempts, k)
    && forall j: nat | j < k :: GoesOnAt(revision, replicas, copy, attempts, j)
  }

  lemma FirstAttempt(revision: string, replicas: nat, copy: Pod, attempts: seq<Attempt>)
    requires attempts != []
    ensures var r := ReplacePoll(revision, replicas, copy, attempts);
            var rest := ReplacePoll(revision, replicas, Held(copy, attempts[0].get), attempts[1..]);
            if ReplacedAt(revision, replicas, copy, attempts, 0) then r.ok && r.pod == Held(copy, attempts[0].get)
            else if GoesOnAt(revision, replicas, copy, attempts, 0) then r.ok == rest.ok && r.pod == rest.pod
            else !r.ok
  {
    ShiftAttempt(revision, replicas, copy, attempts, 0);
  }

  lemma EndShifts(revision: string, replicas: nat, copy: Pod, attempts: seq<Attempt>, k: nat)
    requires attempts != []
    ensures EndsAt(revision, replicas, copy, attempts, k + 1) <==>
            && GoesOnAt(revision, replicas, copy, attempts, 0)
            && EndsAt(revision, replicas, Held(copy, attempts[0].get), attempts[1..], k)
  {
    var pod, rest := Held(copy, attempts[0].get), attempts[1..];
    forall j: nat
      ensures ReplacedAt(revision, replicas, copy, attempts, j + 1) <==> ReplacedAt(revision, replicas, pod, rest, j)
      ensures GoesOnAt(revision, replicas, copy, attempts, j + 1) <==> GoesOnAt(revision, replicas, pod, rest, j)
    {
      ShiftAttempt(revision, replicas, copy, attempts, j);
    }
    hide ReplacedAt, GoesOnAt, Held;
    if EndsAt(revision, replicas, copy, attempts, k + 1) {
      forall j: nat | j < k
        ensures GoesOnAt(revision, replicas, pod, rest, j)
      {
        assert GoesOnAt(revision, replicas, copy, attempts, j + 1);
      }
      assert GoesOnAt(revision, replicas, copy, attempts, 0);
    }
    if GoesOnAt(revision, replicas, copy, attempts, 0) && EndsAt(revision, replicas, pod, rest, k) {
      forall j: nat | j < k + 1
        ensures GoesOnAt(revision, replicas, copy, attempts, j)
      {
        if j > 0 { assert GoesOnAt(revision, replicas, pod, rest, j - 1); }
      }
    }
  }

  /** The pod is replaced exactly if some attempt finds it so and every attempt before it goes on. */
  lemma {:induction false} ReplacePollExactly(revision: string, replicas: nat, copy: Pod, attempts: seq<Attempt>)
    ensures var r := ReplacePoll(revision, replicas, copy, attempts);
            && (r.ok <==> exists k: nat :: EndsAt(revision, replicas, copy, attempts, k))
            && forall k: nat | EndsAt(revision, replicas, copy, attempts, k) ::
                 r.pod == Copies(copy, GetsOf(attempts), k + 1)
    decreases |attempts|
  {
    if attempts != [] {
      var pod, rest := Held(copy, attempts[0].get), attempts[1..];
      ReplacePollExactly(revision, replicas, pod, rest);
      FirstAttempt(revision, replicas, copy, attempts);
      ShiftAttempt(revision, replicas, copy, attempts, 0);
      forall k: nat
        ensures EndsAt(revision, replicas, copy, attempts, k + 1) <==>
                GoesOnAt(revision, replicas, copy, attempts, 0) && EndsAt(revision, replicas, pod, rest, k)
      {
        EndShifts(revision, replicas, copy, attempts, k);
      }
      assert GetsOf(attempts)[1..] == GetsOf(rest);
      hide ReplacePoll, ReplacedAt, OutdatedAt;
      if ReplacedAt(revision, replicas, copy, attempts, 0) {
        assert EndsAt(revision, replicas, copy, attempts, 0);
      } else if k: nat :| EndsAt(revision, replicas, pod, rest, k) {
        if GoesOnAt(revision, replicas, copy, attempts, 0) { assert EndsAt(revision, replicas, copy, attempts, k + 1); }
      }
      forall k: nat | EndsAt(revision, replicas, copy, attempts, k)
        ensures ReplacePoll(revision, replicas, copy, attempts).ok
        ensures ReplacePoll(revision, replicas, copy, attempts).pod == Copies(copy, GetsOf(attempts), k + 1)
      {
        if k > 0 { assert EndsAt(revision, replicas, pod, rest, k - 1); }
      }
    }
  }

  /** A Delete is sent exactly if some attempt finds the pod outdated and none before it found it replaced. */
  lemma {:induction false} DeletesExactly(revision: string, replicas: nat, copy: Pod, attempts: seq<Attempt>)
    ensures ReplacePoll(revision, replicas, copy, attempts).deletes > 0 <==>
            exists k: nat :: && OutdatedAt(revision, replicas, copy, attempts, k)
                             && forall j: nat | j < k :: !ReplacedAt(revision, replicas, copy, attempts, j)
    decreases |attempts|
  {
    if attempts != [] {
      var pod, rest := Held(copy, attempts[0].get), attempts[1..];
      DeletesExactly(revision, replicas, pod, rest);
      forall k: nat
        ensures ReplacedAt(revision, replicas, copy, attempts, k + 1) <==> ReplacedAt(revision, replicas, pod, rest, k)
        ensures OutdatedAt(revision, replicas, copy, attempts, k + 1) <==> OutdatedAt(revision, replicas, pod, rest, k)
      {
        ShiftAttempt(revision, replicas, copy, attempts, k);
      }
      ShiftAttempt(revision, replicas, copy, attempts, 0);
      hide Copies, GetsOf, Held;
      if OutdatedAt(revision, replicas, copy, attempts, 0) {
        assert ReplacePoll(revision, replicas, copy, attempts).deletes > 0;
      }
      if k: nat :| OutdatedAt(revision, replicas, pod, rest, k) &&
                   forall j: nat | j < k :: !ReplacedAt(revision, replicas, pod, rest, j) {
        assert OutdatedAt(revision, replicas, copy, attempts, k + 1);
        if !ReplacedAt(revision, replicas, copy, attempts, 0) {
          forall j: nat | j < k + 1
            ensures !ReplacedAt(revision, replicas, copy, attempts, j)
          {
            if j > 0 { assert !ReplacedAt(revision, replicas, pod, rest, j - 1); }
          }
        }
      }
      if k: nat :| OutdatedAt(revision, replicas, copy, attempts, k) &&
                   forall j: nat | j < k :: !ReplacedAt(revision, replicas, copy, attempts, j) {
        if k > 0 {
          assert OutdatedAt(revision, replicas, pod, rest, k - 1);
          forall j: nat | j < k - 1
            ensures !ReplacedAt(revision, replicas, pod, rest, j)
          {
            assert !ReplacedAt(revision, replicas, copy, attempts, j + 1);
          }
          assert !ReplacedAt(revision, replicas, copy, attempts, 0);
        }
      }
    }
  }

  // Waiting for the pod.

  datatype Verdict = Done | GiveUp | KeepWaiting

  /** What the second poll makes of the copy it holds. */
  function WaitVerdict(updateRevision: string, replicas: nat, pod: Pod): Verdict {
    var ordinal := Naming.GetOrdinal(pod.name);
    if ordinal.None? then GiveUp
    else if ordinal.value >= replicas then Done
    else if pod.failed then GiveUp
    else if pod.healthy && pod.revision == updateRevision then Done
    else if pod.healthy && pod.revision != updateRevision then GiveUp
    else KeepWaiting
  }

  predicate InRange(replicas: nat, n: string) {
    Naming.GetOrdinal(n).Some? && Naming.GetOrdinal(n).value < replicas
  }

  predicate OutOfRange(replicas: nat, n: string) {
    Naming.GetOrdinal(n).Some? && Naming.GetOrdinal(n).value >= replicas
  }

  /** The pod is no longer wanted, or it runs, healthy and at the new revision. */
  predicate Back(revision: string, replicas: nat, pod: Pod) {
    || OutOfRange(replicas, pod.name)
    || (InRange(replicas, pod.name) && pod.healthy && !pod.failed && pod.revision == revision)
  }

  /** The pod is wanted and has neither failed nor become healthy yet. */
  predicate Starting(replicas: nat, pod: Pod) {
    InRange(replicas, pod.name) && !pod.failed && !pod.healthy
  }

  /** The poll succeeds, goes on and gives up on these copies and no others. */
  lemma VerdictExactly(g: Goal, pod: Pod)
    ensures var v := WaitVerdict(g.revision, g.replicas, pod);
            && (v.Done? <==> Back(g.revision, g.replicas, pod))
            && (v.KeepWaiting? <==> Starting(g.replicas, pod))
            && (v.GiveUp? <==>
                || Naming.GetOrdinal(pod.name).None?
                || (InRange(g.replicas, pod.name) && (pod.failed || (pod.healthy && pod.revision != g.revision))))
    ensures Back(g.revision, g.replicas, pod) ==> SettledCopy(g, pod.name, Some(pod))
  {
  }

  /** The copy with which the wait ends well, if it does. */
  function WaitPoll(revision: string, replicas: nat, copy: Pod, gets: seq<GetResult>): Option<Pod>
    decreases |gets|
  {
    if gets == [] || gets[0].Failure? then None
    else
      var pod := Held(copy, gets[0]);
      match WaitVerdict(revision, replicas, pod)
      case Done => Some(pod)
      case GiveUp => None
      case KeepWaiting => WaitPoll(revision, replicas, pod, gets[1..])
  }

  predicate BackAt(revision: string, replicas: nat, copy: Pod, gets: seq<GetResult>, k: nat) {
    k < |gets| && !gets[k].Failure? && Back(revision, replicas, Copies(copy, gets, k + 1))
  }

  predicate StartingAt(replicas: nat, copy: Pod, gets: seq<GetResult>, k: nat) {
    k < |gets| && !gets[k].Failure? && Starting(replicas, Copies(copy, gets, k + 1))
  }

  /** Answer `k` shows the pod back, and before that it was always starting. */
  predicate ComesBackAt(revision: string, replicas: nat, copy: Pod, gets: seq<GetResult>, k: nat) {
    BackAt(revision, replicas, copy, gets, k) && forall j: nat | j < k :: StartingAt(replicas, copy, gets, j)
  }

  lemma FirstAnswer(revision: string, replicas: nat, copy: Pod, gets: seq<GetResult>)
    requires gets != []
    ensures WaitPoll(revision, replicas, copy, gets).Some? <==>
            || BackAt(revision, replicas, copy, gets, 0)
            || (&& StartingAt(replicas, copy, gets, 0)
                && WaitPoll(revision, replicas, Held(copy, gets[0]), gets[1..]).Some?)
    ensures !(BackAt(revision, replicas, copy, gets, 0) && StartingAt(replicas, copy, gets, 0))
  {
    var pod := Held(copy, gets[0]);
    assert Copies(copy, gets, 1) == Copies(pod, gets[1..], 0) == pod;
    VerdictExactly(Goal([], revision, replicas), pod);
  }

  lemma BackShifts(revision: string, replicas: nat, copy: Pod, gets: seq<GetResult>, k: nat)
    requires gets != []
    ensures ComesBackAt(revision, replicas, copy, gets, k + 1) <==>
            && StartingAt(replicas, copy, gets, 0)
            && ComesBackAt(revision, replicas, Held(copy, gets[0]), gets[1..], k)
  {
    var pod, rest := Held(copy, gets[0]), gets[1..];
    forall j: nat
      ensures BackAt(revision, replicas, copy, gets, j + 1) <==> BackAt(revision, replicas, pod, rest, j)
      ensures StartingAt(replicas, copy, gets, j + 1) <==> StartingAt(replicas, pod, rest, j)
    {
    }
    hide BackAt, StartingAt, Held;
    if ComesBackAt(revision, replicas, copy, gets, k + 1) {
      forall j: nat | j < k
        ensures StartingAt(replicas, pod, rest, j)
      {
        assert StartingAt(replicas, copy, gets, j + 1);
      }
      assert StartingAt(replicas, copy, gets, 0);
    }
    if StartingAt(replicas, copy, gets, 0) && ComesBackAt(revision, replicas, pod, rest, k) {
      forall j: nat | j < k + 1
        ensures StartingAt(replicas, copy, gets, j)
      {
        if j > 0 { assert StartingAt(replicas, pod, rest, j - 1); }
      }
    }
  }

  /** The wait ends well exactly if some answer shows the pod back and before that it was always starting. */
  lemma {:induction false} WaitPollExactly(revision: string, replicas: nat, copy: Pod, gets: seq<GetResult>)
    ensures WaitPoll(revision, replicas, copy, gets).Some? <==>
            exists k: nat :: ComesBackAt(revision, replicas, copy, gets, k)
    decreases |gets|
  {
    if gets != [] {
      var pod, rest := Held(copy, gets[0]), gets[1..];
      WaitPollExactly(revision, replicas, pod, rest);
      FirstAnswer(revision, replicas, copy, gets);
      forall k: nat
        ensures ComesBackAt(revision, replicas, copy, gets, k + 1) <==>
                StartingAt(replicas, copy, gets, 0) && ComesBackAt(revision, replicas, pod, rest, k)
      {
        BackShifts(revision, replicas, copy, gets, k);
      }
      hide WaitPoll, BackAt, StartingAt, Held;
      if BackAt(revision, replicas, copy, gets, 0) {
        assert ComesBackAt(revision, replicas, copy, gets, 0);
      } else if k: nat :| ComesBackAt(revision, replicas, pod, rest, k) {
        if StartingAt(replicas, copy, gets, 0) { assert ComesBackAt(revision, replicas, copy, gets, k + 1); }
      }
      if k: nat :| ComesBackAt(revision, replicas, copy, gets, k) {
        if k > 0 { assert ComesBackAt(revision, replicas, pod, rest, k - 1); }
      }
    }
  }

  // One pod.

  /** The update of one pod, begun with this copy, succeeds. */
  predicate Applies(revision: string, replicas: nat, pod: Pod, a: Answers) {
    && revision != ""
    && var r := if pod.revision == revision then Replacement(true, pod, 0)
                else ReplacePoll(revision, replicas, pod, a.replace);
       r.ok && WaitPoll(revision, replicas, r.pod, a.wait).Some?
  }

  /** The update of one pod, begun with this copy, deletes it. */
  predicate Deletes(revision: string, replicas: nat, pod: Pod, a: Answers) {
    revision != "" && pod.revision != revision && ReplacePoll(revision, replicas, pod, a.replace).deletes > 0
  }

  /** The answers let a listed pod pass its health check and its update. */
  predicate GoesWell(revision: string, replicas: nat, p: Pod, a: Answers) {
    CheckPoll(p, a.check).Some? && Applies(revision, replicas, CheckPoll(p, a.check).value, a)
  }

  /** The answers let a listed pod pass its health check and then make its update delete it. */
  predicate IsDeleted(revision: string, replicas: nat, p: Pod, a: Answers) {
    CheckPoll(p, a.check).Some? && Deletes(revision, replicas, CheckPoll(p, a.check).value, a)
  }

  ghost predicate ComesBack(revision: string, replicas: nat, copy: Pod, gets: seq<GetResult>) {
    exists k: nat :: ComesBackAt(revision, replicas, copy, gets, k)
  }

  /**
   Exactly when a listed pod goes well: with the first healthy copy at the new revision it comes back at
   once, and with an outdated one it comes back after an attempt has found it replaced.
   */
  lemma GoesWellExactly(revision: string, replicas: nat, p: Pod, a: Answers)
    ensures GoesWell(revision, replicas, p, a) <==>
            && revision != ""
            && exists h: nat :: && FirstHealthyAt(p, a.check, h)
                                && WellFrom(revision, replicas, Copies(p, a.check, h + 1), a)
    ensures IsDeleted(revision, replicas, p, a) <==>
            && revision != ""
            && exists h: nat :: && FirstHealthyAt(p, a.check, h)
                                && GoneFrom(revision, replicas, Copies(p, a.check, h + 1), a)
  {
    CheckPollExactly(p, a.check);
    if CheckPoll(p, a.check).Some? {
      var c := CheckPoll(p, a.check).value;
      var h: nat :| FirstHealthyAt(p, a.check, h);
      if revision != "" { AppliesExactly(revision, replicas, c, a); }
      hide FirstHealthyAt, Applies, Deletes, WellFrom, GoneFrom, CheckPoll, Copies;
      assert forall h: nat | FirstHealthyAt(p, a.check, h) :: Copies(p, a.check, h + 1) == c;
    } else {
      assert forall h: nat | FirstHealthyAt(p, a.check, h) :: HealthyAt(p, a.check, h);
    }
  }

  ghost predicate WellFrom(revision: string, replicas: nat, c: Pod, a: Answers) {
    if c.revision == revision then ComesBack(revision, replicas, c, a.wait)
    else exists k: nat :: && EndsAt(revision, replicas, c, a.replace, k)
                          && ComesBack(revision, replicas, Copies(c, GetsOf(a.replace), k + 1), a.wait)
  }

  ghost predicate GoneFrom(revision: string, replicas: nat, c: Pod, a: Answers) {
    && c.revision != revision
    && exists k: nat :: && OutdatedAt(revision, replicas, c, a.replace, k)
                        && forall j: nat | j < k :: !ReplacedAt(revision, replicas, c, a.replace, j)
  }

  lemma AppliesExactly(revision: string, replicas: nat, c: Pod, a: Answers)
    requires revision != ""
    ensures Applies(revision, replicas, c, a) <==> WellFrom(revision, replicas, c, a)
    ensures Deletes(revision, replicas, c, a) <==> GoneFrom(revision, replicas, c, a)
  {
    var r := ReplacePoll(revision, replicas, c, a.replace);
    ReplacePollExactly(revision, replicas, c, a.replace);
    DeletesExactly(revision, replicas, c, a.replace);
    WaitPollExactly(revision, replicas, c, a.wait);
    WaitPollExactly(revision, replicas, r.pod, a.wait);
    hide ReplacePoll, WaitPoll, BackAt, StartingAt, OutdatedAt, GoesOnAt, Copies;
  }

  /**
   An outdated pod that is wanted: found outdated once more it is deleted, found again at the new revision
   it is waited for, and found healthy it is done, however long each of these takes.
   */
  lemma OutdatedPodGoesWell(revision: string, replicas: nat, p: Pod, old_: Pod, new_: Pod, a: Answers, k: nat)
    requires revision != "" && replicas != 0 && old_.name == new_.name == p.name && InRange(replicas, p.name)
    requires old_.revision != revision && !old_.deleting && old_.healthy && a.check == [Found(old_)]
    requires new_.revision == revision && !new_.deleting && !new_.failed && !new_.healthy
    requires 0 < k < |a.replace| && a.replace[0] == Attempt(Found(old_), true) && a.replace[k].get == Found(new_)
    requires forall j: nat | 0 < j < k :: a.replace[j].get.NotFound?
    requires |a.wait| > 0 && a.wait[|a.wait| - 1] == Found(new_.(healthy := true))
    requires forall j: nat | j < |a.wait| - 1 :: a.wait[j] == Found(new_)
    ensures GoesWell(revision, replicas, p, a) && IsDeleted(revision, replicas, p, a)
  {
    assert Held(p, Found(old_)) == old_ && CheckPoll(p, a.check) == Some(old_);
    var rest := a.replace[1..];
    NotFoundUntil(revision, replicas, old_, rest, k - 1, new_);
    assert Held(old_, Found(old_)) == old_;
    assert ReplacePoll(revision, replicas, old_, a.replace).pod == new_;
    HealthyInTheEnd(revision, replicas, new_, new_, a.wait);
  }

  lemma {:induction false} NotFoundUntil(revision: string, replicas: nat, copy: Pod, attempts: seq<Attempt>, k: nat,
                                         new_: Pod)
    requires k < |attempts| && attempts[k].get == Found(new_) && forall j: nat | j < k :: attempts[j].get.NotFound?
    requires new_.name == copy.name && new_.revision == revision && !new_.deleting
    ensures ReplacePoll(revision, replicas, copy, attempts) == Replacement(true, new_, 0)
    decreases k
  {
    if k > 0 { NotFoundUntil(revision, replicas, copy, attempts[1..], k - 1, new_); }
  }

  lemma {:induction false} HealthyInTheEnd(revision: string, replicas: nat, copy: Pod, new_: Pod, gets: seq<GetResult>)
    requires copy.name == new_.name && InRange(replicas, new_.name)
    requires new_.revision == revision && !new_.failed && !new_.healthy
    requires |gets| > 0 && gets[|gets| - 1] == Found(new_.(healthy := true))
    requires forall j: nat | j < |gets| - 1 :: gets[j] == Found(new_)
    ensures WaitPoll(revision, replicas, copy, gets).Some?
    decreases |gets|
  {
    if |gets| > 1 { HealthyInTheEnd(revision, replicas, new_, new_, gets[1..]); }
  }

  predicate DistinctNames(pods: seq<Pod>) {
    && (forall i | 0 <= i < |pods| :: pods[i].name != "")
    && forall i, j | 0 <= i < j < |pods| :: pods[i].name != pods[j].name
  }

  lemma {:induction false} InitialCopyAt(pods: seq<Pod>, i: nat)
    requires DistinctNames(pods) && i < |pods|
    ensures pods[i].name in InitialCopies(pods) && InitialCopies(pods)[pods[i].name] == pods[i]
  {
    if i > 0 {
      InitialCopyAt(pods[1..], i - 1);
    }
  }

  /** The zero value of a pod variable. */
  function NoPod(): Pod {
    Pod("", "", false, false, false, false)
  }

  /** Some backup of the cluster is not complete; a failed listing (None) counts as none running. */
  method BackupIsRunning(backups: Option<seq<bool>>) returns (running: bool)
    ensures running <==> backups.Some? && false in backups.value
  {
    if backups.None? { return false; }
    for i := 0 to |backups.value|
      invariant false !in backups.value[..i]
    {
      if !backups.value[i] { return true; }
    }
    assert backups.value[..|backups.value|] == backups.value;
    return false;
  }

  class StatefulSetSyncer {
    const updateRevision: string
    const replicas: nat
    const env: string -> Answers  // by the name of the pod
    var state: ClusterState.State
    ghost var listed: seq<Pod>
    ghost var trace: seq<Event>
    ghost var sum: Summary

    constructor (updateRevision: string, replicas: nat, env: string -> Answers, state: ClusterState.State)
      ensures this.updateRevision == updateRevision && this.replicas == replicas && this.state == state
      ensures this.env == env && trace == [] && Valid()
    {
      this.updateRevision, this.replicas, this.env, this.state := updateRevision, replicas, env, state;
      trace, listed, sum := [], [], Summary(map[], {}, {}, {}, None);
    }

    ghost function Target(): Goal
      reads this
    {
      Goal(listed, updateRevision, replicas)
    }

    ghost predicate Valid()
      reads this
    {
      Safe(Target(), trace) && sum == Summarize(Target(), trace)
    }

    ghost method Record(e: Event)
      requires Valid() && Allowed(Target(), sum, e)
      modifies this`trace, this`sum
      ensures Valid() && trace == old(trace) + [e] && sum == After(old(sum), e)
    {
      AppendEvent(Target(), trace, e);
      trace, sum := trace + [e], After(sum, e);
    }

    /** Reads one pod; only a found pod replaces the copy. */
    method Get(copy: Pod, answer: GetResult) returns (pod: Pod)
      requires Valid() && CopyOf(sum, copy.name) == Some(copy) && copy.name !in sum.confirmed
      modifies this`trace, this`sum
      ensures Valid() && pod == Held(copy, answer)
      ensures sum == old(sum).(copies := old(sum).copies[copy.name := pod])
      ensures trace == old(trace) + if answer.Found? then [Seen(pod)] else []
    {
      pod := copy;
      if answer.Found? {
        pod := answer.pod.(name := copy.name);
        Record(Seen(pod));
      } else {
        assert sum.copies == sum.copies[copy.name := pod];
      }
    }

    /** What holds whenever the update of `pod` is under way. */
    ghost predicate Underway(pod: Pod)
      reads this
    {
      && Valid()
      && CopyOf(sum, pod.name) == Some(pod)
      && pod.name in sum.checked && pod.name !in sum.confirmed
      && sum.deleted - {pod.name} <= sum.confirmed
      && (sum.leader == Some(pod.name) ==> Names(listed) - {pod.name} <= sum.confirmed)
    }

    /** First poll: delete the pod until a read shows the new revision. */
    method DeleteUntilUpdated(copy: Pod) returns (ok: bool, pod: Pod)
      requires Underway(copy) && updateRevision != ""
      modifies this`trace, this`sum
      ensures pod.name == copy.name && Underway(pod)
      ensures var r := ReplacePoll(updateRevision, replicas, copy, env(copy.name).replace);
              && ok == r.ok && pod == r.pod
              && sum == old(sum).(copies := old(sum).copies[copy.name := pod],
                                  deleted := old(sum).deleted + if r.deletes > 0 then {copy.name} else {})
      ensures ok ==> replicas == 0 || pod.revision == updateRevision
    {
      hide Summarize, Safe;
      var attempts := env(copy.name).replace;
      ghost var r, some := ReplacePoll(updateRevision, replicas, copy, attempts), false;
      pod := copy;
      assert sum.copies == sum.copies[copy.name := pod];
      for i := 0 to |attempts|
        invariant pod.name == copy.name && Underway(pod)
        invariant sum == old(sum).(copies := old(sum).copies[copy.name := pod],
                                   deleted := old(sum).deleted + if some then {copy.name} else {})
        invariant var rest := ReplacePoll(updateRevision, replicas, pod, attempts[i..]);
                  rest.ok == r.ok && rest.pod == r.pod && (r.deletes > 0 <==> some || rest.deletes > 0)
      {
        assert attempts[i..][0] == attempts[i] && attempts[i..][1..] == attempts[i + 1..];
        pod := Get(pod, attempts[i].get);
        if attempts[i].get.Found? {
          if replicas == 0 { return true, pod; }
          if !pod.deleting {
            if pod.revision != updateRevision {
              Record(Delete(pod.name));
              some := true;
              if !attempts[i].accepts { return false, pod; }
            } else {
              return true, pod;
            }
          }
        }
      }
      return false, pod;
    }

    /** Second poll: wait until the pod is back, healthy and at the new revision, or out of range. */
    method WaitHealthy(copy: Pod) returns (ok: bool, pod: Pod)
      requires Valid() && CopyOf(sum, copy.name) == Some(copy) && copy.name !in sum.confirmed
      modifies this`trace, this`sum
      ensures Valid() && pod.name == copy.name
      ensures ok <==> WaitPoll(updateRevision, replicas, copy, env(copy.name).wait).Some?
      ensures sum == old(sum).(copies := old(sum).copies[copy.name := pod],
                               confirmed := if ok then old(sum).confirmed + {copy.name} else old(sum).confirmed)
    {
      hide Summarize, Safe;
      var gets := env(copy.name).wait;
      pod := copy;
      assert sum.copies == sum.copies[copy.name := pod];
      for i := 0 to |gets|
        invariant Valid() && pod.name == copy.name && pod.name !in sum.confirmed
        invariant sum == old(sum).(copies := old(sum).copies[copy.name := pod])
        invariant WaitPoll(updateRevision, replicas, copy, gets).Some? <==>
                  WaitPoll(updateRevision, replicas, pod, gets[i..]).Some?
      {
        assert gets[i..][0] == gets[i] && gets[i..][1..] == gets[i + 1..];
        pod := Get(pod, gets[i]);
        if gets[i].Failure? { return false, pod; }
        var verdict := WaitVerdict(updateRevision, replicas, pod);
        if verdict.Done? {
          VerdictExactly(Target(), pod);
          Record(Confirmed(pod.name));
          return true, pod;
        }
        if verdict.GiveUp? { return false, pod; }
      }
      return false, pod;
    }

    /** Updates one pod: delete it if it is outdated, then wait for it. */
    method ApplyNWait(copy: Pod) returns (ok: bool)
      requires Underway(copy)
      modifies this`trace, this`sum, this`state
      ensures Valid() && copy.name in sum.copies
      ensures ok <==> Applies(updateRevision, replicas, copy, env(copy.name))
      ensures var gone := Deletes(updateRevision, replicas, copy, env(copy.name));
              sum == old(sum).(copies := old(sum).copies[copy.name := sum.copies[copy.name]],
                               deleted := old(sum).deleted + if gone then {copy.name} else {},
                               confirmed := if ok then old(sum).confirmed + {copy.name} else old(sum).confirmed)
      ensures state == if updateRevision != "" && copy.revision != updateRevision then ClusterState.Updating
                       else old(state)
      ensures sum.deleted <= old(sum).deleted || state == ClusterState.Updating
    {
      var pod := copy;
      if updateRevision == "" {
        assert sum.copies == sum.copies[copy.name := copy];
        return false;
      }
      if pod.revision != updateRevision {
        state := ClusterState.Updating;
        ok, pod := DeleteUntilUpdated(pod);
        if !ok { return false; }
      }
      ok, pod := WaitHealthy(pod);
    }

    /** Polls one listed pod until its last copy carries the healthy label. */
    method CheckHealthy(copy: Pod) returns (ok: bool, pod: Pod)
      requires Valid() && CopyOf(sum, copy.name) == Some(copy)
      requires copy.name !in sum.confirmed + sum.checked && sum.deleted <= sum.confirmed
      requires sum.checked <= sum.confirmed + if sum.leader.Some? then {sum.leader.value} else {}
      modifies this`trace, this`sum
      ensures Valid() && pod.name == copy.name
      ensures ok == CheckPoll(copy, env(copy.name).check).Some?
      ensures ok ==> pod.healthy && CheckPoll(copy, env(copy.name).check) == Some(pod)
      ensures var seen := old(sum).(copies := old(sum).copies[copy.name := pod]);
              sum == if ok then After(seen, Checked(pod)) else seen
    {
      hide Summarize, Safe;
      var gets := env(copy.name).check;
      pod := copy;
      assert sum.copies == sum.copies[copy.name := pod];
      for i := 0 to |gets|
        invariant Valid() && pod.name == copy.name
        invariant sum == old(sum).(copies := old(sum).copies[copy.name := pod])
        invariant CheckPoll(copy, gets) == CheckPoll(pod, gets[i..])
      {
        assert gets[i..][0] == gets[i] && gets[i..][1..] == gets[i + 1..];
        pod := Get(pod, gets[i]);
        if pod.healthy {
          Record(Checked(pod));
          return true, pod;
        }
      }
      return false, pod;
    }

    /** The loop state of a run that has passed over the first `i` listed pods. */
    ghost predicate Progress(i: nat, leaderPod: Pod)
      requires i <= |listed|
      reads this
    {
      && Valid() && DistinctNames(listed)
      && sum.deleted <= sum.confirmed
      && sum.leader == (if leaderPod.name == "" then None else Some(leaderPod.name))
      && (leaderPod.name != "" ==>
            && leaderPod.name in sum.checked - sum.confirmed
            && CopyOf(sum, leaderPod.name) == Some(leaderPod))
      && sum.checked == Names(listed[..i])
      && sum.confirmed == sum.checked - {leaderPod.name}
      && (forall j | i <= j < |listed| :: CopyOf(sum, listed[j].name) == Some(listed[j]))
    }

    /** The pod passes its health check as the first leader. */
    predicate Defers(item: Pod, leader: Pod) {
      var c := CheckPoll(item, env(item.name).check);
      c.Some? && c.value.leader && leader.name == ""
    }

    predicate Passes(item: Pod, leader: Pod) {
      if Defers(item, leader) then true else GoesWell(updateRevision, replicas, item, env(item.name))
    }

    predicate ToDelete(item: Pod) {
      IsDeleted(updateRevision, replicas, item, env(item.name))
    }

    /** One turn of the loop over the listed pods: check the pod, then defer it or update it. */
    method VisitPod(ghost i: nat, item: Pod, leader: Pod) returns (ok: bool, leaderPod: Pod)
      requires i < |listed| && item == listed[i] && Progress(i, leader)
      modifies this`trace, this`sum, this`state
      ensures Valid()
      ensures ok ==> Progress(i + 1, leaderPod)
      ensures ok <==> Passes(item, leader)
      ensures ok ==> leaderPod == if Defers(item, leader) then CheckPoll(item, env(item.name).check).value else leader
      ensures sum.deleted == old(sum).deleted +
                             if !Defers(item, leader) && ToDelete(item) then {item.name} else {}
      ensures state == old(state) || state == ClusterState.Updating
      ensures sum.deleted <= old(sum).deleted || state == ClusterState.Updating
    {
      hide Summarize, Safe, Applies, Deletes, CheckPoll;
      assert listed[..i + 1] == listed[..i] + [item];
      assert Names(listed[..i + 1]) == Names(listed[..i]) + {item.name};
      assert item.name !in Names(listed[..i]);
      leaderPod := leader;
      var healthy, pod := CheckHealthy(item);
      if !healthy { return false, leaderPod; }
      if pod.leader && leaderPod.name == "" {
        return true, pod;
      }
      ok := ApplyNWait(pod);
    }

    /**
     One run. `updated`, `wanted`, `ready` and `current` are counters of the StatefulSet;
     `backups` and `pods` are the answers to the two list calls (None is a failed call).
     The trace afterwards is the trace of this run.
     */
    method UpdatePod(updated: nat, wanted: nat, ready: nat, current: nat,
                     backups: Option<seq<bool>>, pods: Option<seq<Pod>>) returns (ok: bool)
      requires pods.Some? ==> DistinctNames(pods.value)
      modifies this
      ensures Safe(Target(), trace)
      ensures trace != [] ==> pods == Some(listed)
      ensures updated == wanted || ready < current ==> ok && trace == []
      ensures updated != wanted && ready >= current && backups.Some? && false in backups.value ==>
                !ok && trace == []
      ensures updated != wanted && ready >= current && pods.None? ==> !ok && trace == []
      ensures updated != wanted && ready >= current && ok ==>
                && pods.Some?
                && (forall p | p in pods.value :: Confirmed(p.name) in trace && Settled(Target(), trace, p.name))
                && (forall p | p in pods.value :: Delete(p.name) in trace <==> ToDelete(p))
                && (forall m | Delete(m) in trace :: Confirmed(m) in trace)
      ensures updated != wanted && ready >= current && !(backups.Some? && false in backups.value) && pods.Some? ==>
                && (ok <==> forall p | p in pods.value :: GoesWell(updateRevision, replicas, p, env(p.name)))
                && forall n | Delete(n) in trace :: exists p :: p in pods.value && p.name == n && ToDelete(p)
      ensures state == old(state) || state == ClusterState.Updating
      ensures (exists m :: Delete(m) in trace) ==> state == ClusterState.Updating
    {
      trace, listed, sum := [], [], Summary(map[], {}, {}, {}, None);
      if updated == wanted { return true; }
      if ready < current { return true; }
      var backuping := BackupIsRunning(backups);
      if backuping { return false; }
      if pods.None? { return false; }
      ok := UpdateListed(pods.value);
    }

    /** The deferred leader is one of the first `i` pods, held as its health check left it. */
    ghost predicate LeaderFrom(items: seq<Pod>, i: nat, leaderPod: Pod)
      requires i <= |items|
    {
      leaderPod.name != "" ==>
        exists l :: 0 <= l < i && items[l].name == leaderPod.name &&
                    CheckPoll(items[l], env(items[l].name).check) == Some(leaderPod)
    }

    /** What the first `i` pods have come to, the deferred leader aside. */
    ghost predicate Visited(items: seq<Pod>, i: nat, leaderPod: Pod, deleted: set<string>)
      requires i <= |items|
    {
      && (forall j | 0 <= j < i && items[j].name != leaderPod.name ::
            GoesWell(updateRevision, replicas, items[j], env(items[j].name)))
      && (forall j | 0 <= j < i :: items[j].name in deleted <==> items[j].name != leaderPod.name && ToDelete(items[j]))
      && deleted <= Names(items[..i])
    }

    lemma VisitedNext(items: seq<Pod>, i: nat, leader: Pod, leaderPod: Pod, deleted: set<string>, deleted': set<string>)
      requires i < |items| && DistinctNames(items) && Passes(items[i], leader)
      requires Visited(items, i, leader, deleted) && LeaderFrom(items, i, leader)
      requires leaderPod == if Defers(items[i], leader) then CheckPoll(items[i], env(items[i].name).check).value
                            else leader
      requires deleted' == deleted + if !Defers(items[i], leader) && ToDelete(items[i]) then {items[i].name} else {}
      ensures Visited(items, i + 1, leaderPod, deleted') && LeaderFrom(items, i + 1, leaderPod)
    {
      hide GoesWell, IsDeleted, CheckPoll;
      assert items[..i + 1] == items[..i] + [items[i]];
      assert Names(items[..i + 1]) == Names(items[..i]) + {items[i].name};
      assert forall n | n in deleted :: n in Names(items[..i]);
      assert items[i].name !in Names(items[..i]);
    }

    /** Every pod in the set is a listed one whose answers make its update delete it. */
    ghost predicate DeletedOnly(items: seq<Pod>, deleted: set<string>) {
      forall n | n in deleted :: exists p :: p in items && p.name == n && ToDelete(p)
    }

    lemma VisitedDeletedOnly(items: seq<Pod>, i: nat, leaderPod: Pod, deleted: set<string>)
      requires i <= |items| && Visited(items, i, leaderPod, deleted)
      ensures DeletedOnly(items, deleted)
    {
      hide GoesWell, IsDeleted, CheckPoll;
      forall n | n in deleted
        ensures exists p :: p in items && p.name == n && ToDelete(p)
      {
        assert n in Names(items[..i]);
        var j :| 0 <= j < i && items[j].name == n;
        assert items[j] in items && ToDelete(items[j]);
      }
    }

    /** The loop over the listed pods. */
    method VisitAll(items: seq<Pod>) returns (ok: bool, leaderPod: Pod)
      requires listed == items && Progress(0, NoPod()) && sum.deleted == {}
      modifies this`trace, this`sum, this`state
      ensures Valid()
      ensures ok ==> Progress(|items|, leaderPod)
      ensures ok ==> Visited(items, |items|, leaderPod, sum.deleted) && LeaderFrom(items, |items|, leaderPod)
      ensures !ok ==> exists p :: p in items && !GoesWell(updateRevision, replicas, p, env(p.name))
      ensures DeletedOnly(items, sum.deleted)
      ensures state == old(state) || state == ClusterState.Updating
      ensures sum.deleted == {} || state == ClusterState.Updating
    {
      hide GoesWell, IsDeleted, CheckPoll, Summarize, Safe;
      leaderPod := NoPod();
      for i := 0 to |items|
        invariant Progress(i, leaderPod)
        invariant Visited(items, i, leaderPod, sum.deleted) && LeaderFrom(items, i, leaderPod)
        invariant state == old(state) || state == ClusterState.Updating
        invariant sum.deleted == {} || state == ClusterState.Updating
      {
        ghost var leader, deleted := leaderPod, sum.deleted;
        VisitedDeletedOnly(items, i, leader, deleted);
        ok, leaderPod := VisitPod(i, items[i], leaderPod);
        assert items[i] in items;
        if !ok { return; }
        VisitedNext(items, i, leader, leaderPod, deleted, sum.deleted);
      }
      VisitedDeletedOnly(items, |items|, leaderPod, sum.deleted);
      return true, leaderPod;
    }

    ghost method Begin(items: seq<Pod>)
      requires DistinctNames(items) && trace == []
      modifies this`listed, this`sum
      ensures listed == items && Progress(0, NoPod()) && sum.deleted == {}
    {
      listed, sum := items, Summary(InitialCopies(items), {}, {}, {}, None);
      forall j | 0 <= j < |items|
        ensures CopyOf(sum, items[j].name) == Some(items[j])
      {
        InitialCopyAt(items, j);
      }
    }

    /** The run proper, over the pods the API server listed. */
    method UpdateListed(items: seq<Pod>) returns (ok: bool)
      requires DistinctNames(items) && trace == []
      modifies this
      ensures Safe(Target(), trace) && listed == items
      ensures ok <==> forall p | p in items :: GoesWell(updateRevision, replicas, p, env(p.name))
      ensures ok ==> forall p | p in items :: Confirmed(p.name) in trace && Settled(Target(), trace, p.name)
      ensures ok ==> forall p | p in items :: Delete(p.name) in trace <==> ToDelete(p)
      ensures forall n | Delete(n) in trace :: exists p :: p in items && p.name == n && ToDelete(p)
      ensures ok ==> forall m | Delete(m) in trace :: Confirmed(m) in trace
      ensures state == old(state) || state == ClusterState.Updating
      ensures (exists m :: Delete(m) in trace) ==> state == ClusterState.Updating
    {
      hide GoesWell, IsDeleted, Summarize, Safe, Progress;
      Begin(items);
      ok := VisitAndLeader(items);
      ReadOff(ok);
    }

    /** The loop, and then the deferred leader, as the summary records them. */
    method VisitAndLeader(items: seq<Pod>) returns (ok: bool)
      requires listed == items && Progress(0, NoPod()) && sum.deleted == {}
      modifies this`trace, this`sum, this`state
      ensures Valid()
      ensures ok <==> forall p | p in items :: GoesWell(updateRevision, replicas, p, env(p.name))
      ensures ok ==> sum.deleted <= sum.confirmed && Names(listed) <= sum.confirmed
      ensures ok ==> forall p | p in items :: p.name in sum.deleted <==> ToDelete(p)
      ensures DeletedOnly(items, sum.deleted)
      ensures state == old(state) || state == ClusterState.Updating
      ensures sum.deleted == {} || state == ClusterState.Updating
    {
      hide GoesWell, IsDeleted, CheckPoll, Summarize, Safe, Applies, Deletes, Visited, LeaderFrom, DeletedOnly;
      var leaderPod;
      ok, leaderPod := VisitAll(items);
      if !ok { return; }
      assert items[..|items|] == items;
      if leaderPod.name == "" {
        NoLeader(items, leaderPod, sum.deleted);
      } else {
        ghost var deleted := sum.deleted;
        ok := ApplyNWait(leaderPod);
        LeaderLast(items, leaderPod, deleted, sum.deleted);
      }
    }

    lemma NoLeader(items: seq<Pod>, leaderPod: Pod, deleted: set<string>)
      requires DistinctNames(items) && leaderPod.name == "" && Visited(items, |items|, leaderPod, deleted)
      ensures forall p | p in items :: GoesWell(updateRevision, replicas, p, env(p.name))
      ensures forall p | p in items :: p.name in deleted <==> ToDelete(p)
    {
      hide GoesWell, IsDeleted;
      forall p | p in items
        ensures GoesWell(updateRevision, replicas, p, env(p.name)) && (p.name in deleted <==> ToDelete(p))
      {
        var j :| 0 <= j < |items| && items[j] == p;
      }
    }

    lemma LeaderLast(items: seq<Pod>, leaderPod: Pod, deleted: set<string>, deleted': set<string>)
      requires DistinctNames(items) && leaderPod.name != "" && LeaderFrom(items, |items|, leaderPod)
      requires Visited(items, |items|, leaderPod, deleted)
      requires deleted' == deleted + if Deletes(updateRevision, replicas, leaderPod, env(leaderPod.name))
                                     then {leaderPod.name} else {}
      ensures Applies(updateRevision, replicas, leaderPod, env(leaderPod.name)) <==>
              forall p | p in items :: GoesWell(updateRevision, replicas, p, env(p.name))
      ensures forall p | p in items :: p.name in deleted' <==> ToDelete(p)
      ensures DeletedOnly(items, deleted')
    {
      var l :| 0 <= l < |items| && items[l].name == leaderPod.name &&
               CheckPoll(items[l], env(items[l].name).check) == Some(leaderPod);
      assert items[l] in items;
      assert ToDelete(items[l]) == Deletes(updateRevision, replicas, leaderPod, env(leaderPod.name));
      assert GoesWell(updateRevision, replicas, items[l], env(items[l].name)) ==
             Applies(updateRevision, replicas, leaderPod, env(leaderPod.name));
      hide GoesWell, IsDeleted, CheckPoll, Applies, Deletes;
      VisitedDeletedOnly(items, |items|, leaderPod, deleted);
    }

    /** Restates the summary at the end of a run as facts about the trace. */
    lemma ReadOff(ok: bool)
      requires Valid()
      requires ok ==> sum.deleted <= sum.confirmed && Names(listed) <= sum.confirmed
      ensures ok ==> forall p | p in listed :: Confirmed(p.name) in trace && Settled(Target(), trace, p.name)
      ensures ok ==> forall m | Delete(m) in trace :: Confirmed(m) in trace
      ensures forall n :: Delete(n) in trace <==> n in sum.deleted
    {
      forall n: string
        ensures Delete(n) in trace <==> n in sum.deleted
        ensures Confirmed(n) in trace <==> n in sum.confirmed
      {
        SummaryMeaning(Target(), trace, n);
      }
      forall n | Confirmed(n) in trace
        ensures Settled(Target(), trace, n)
      {
        ConfirmedStaysSettled(Target(), trace, n);
      }
    }
  }
}
