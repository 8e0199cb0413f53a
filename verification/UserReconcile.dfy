/**
 Reconciliation of one MySQL user resource with the accounts in the database. The user name is fixed,
 so an account is identified by its host. The revision recorded in the status is taken to be injective:
 it stands for everything the management query is built from.
 */
module UserReconcile {
  import opened GoStrings
  import opened Lists

  /** The desired state: hosts, password, and what else goes into the query (TLS type, permissions). */
  datatype Spec = Spec(hosts: seq<string>, password: string, other: string)

  datatype Status = Status(revision: Option<Spec>, allowedHosts: seq<string>)

  type Accounts = map<string, string>  // host to password

  datatype World = World(spec: Spec, status: Status, finalizer: bool, accounts: Accounts)

  /** The accounts the spec asks for. */
  function Desired(spec: Spec): Accounts {
    map h | h in spec.hosts :: spec.password
  }

  /** How the calls of one reconcile are answered. */
  datatype Answers = Answers(
    reachable: bool,  // connection, secret and user lookup
    drops: nat,       // DROP USER calls that succeed before one fails
    query: bool,      // the management query succeeds
    stray: bool,      // the call to MySQL that fails takes effect all the same
    update: bool,     // the update that adds the finalizer succeeds
    resets: bool,     // that update brings the stored revision back into memory
    save: bool)       // the status is saved, if it has to be

  datatype Outcome = Finished | EarlyFailure | LateFailure

  /** What the part of a reconcile that talks to MySQL leaves, and how many writes it sent. */
  datatype InDB = InDB(outcome: Outcome, revision: Option<Spec>, accounts: Accounts, writes: nat)

  /** The accounts without the first hosts to remove, as far as the drops took effect. */
  function AfterDrops(accounts: Accounts, hosts: seq<string>, drops: nat, stray: bool): Accounts {
    if drops >= |hosts| then accounts - Elements(hosts)
    else accounts - Elements(hosts[..drops + if stray then 1 else 0])
  }

  function ReconciledInDB(w: World, a: Answers): InDB {
    if !a.reachable || w.spec.password == "" then InDB(EarlyFailure, w.status.revision, w.accounts, 0)
    else
      var revision := if w.accounts == map[] then None else w.status.revision;
      var toRemove := Diff(w.status.allowedHosts, w.spec.hosts);
      var kept := AfterDrops(w.accounts, toRemove, a.drops, a.stray);
      var n := |toRemove|;
      if a.drops < n then InDB(LateFailure, revision, kept, a.drops + 1)
      else if w.spec.hosts == [] then InDB(if n == 0 then EarlyFailure else LateFailure, revision, kept, n)
      else if revision == Some(w.spec) then InDB(Finished, revision, kept, n)
      else if a.query then InDB(Finished, Some(w.spec), kept + Desired(w.spec), n + 1)
      else InDB(LateFailure, revision, if a.stray then kept + Desired(w.spec) else kept, n + 1)
  }

  function OutcomeOf(w: World, a: Answers): Outcome {
    var db := ReconciledInDB(w, a);
    if db.outcome.Finished? && !(a.save && (w.finalizer || a.update)) then LateFailure else db.outcome
  }

  /** The world after a reconcile, whatever was answered. */
  function Reconciled(w: World, a: Answers): World {
    var db := ReconciledInDB(w, a);
    var updated := db.outcome.Finished? && (w.finalizer || a.update);
    var revision := if updated && !w.finalizer && a.resets then w.status.revision else db.revision;
    var status := Status(revision, if updated then w.spec.hosts else w.status.allowedHosts);
    World(w.spec, if a.save then status else w.status, w.finalizer || updated, db.accounts)
  }

  datatype Cluster = Reachable | Unreachable | Gone

  /** How the calls of one attempt to remove the resource are answered. */
  datatype Removal = Removal(cluster: Cluster, drops: nat, stray: bool, update: bool)

  /** Whether the attempt lets the resource go; it does so without any drop when the cluster is gone. */
  predicate LetsGo(w: World, r: Removal) {
    !r.cluster.Unreachable? && r.update && (r.cluster.Gone? || r.drops >= |w.status.allowedHosts|)
  }

  function Removed(w: World, r: Removal): World {
    if !w.finalizer then w
    else
      var left := if r.cluster.Reachable? then AfterDrops(w.accounts, w.status.allowedHosts, r.drops, r.stray)
                  else w.accounts;
      w.(accounts := left, finalizer := !LetsGo(w, r))
  }

  class Reconciler {
    var spec: Spec
    var status: Status     // as stored in the resource
    var finalizer: bool
    var accounts: Accounts

    constructor (w: World)
      ensures View() == w
    {
      spec, status, finalizer, accounts := w.spec, w.status, w.finalizer, w.accounts;
    }

    function View(): World
      reads this
    {
      World(spec, status, finalizer, accounts)
    }

    /** DROP USER IF EXISTS, host by host up to the first failure. */
    method DropUsers(hosts: seq<string>, drops: nat, stray: bool) returns (ok: bool, ghost writes: nat)
      modifies this`accounts
      ensures ok == (drops >= |hosts|) && writes == if ok then |hosts| else drops + 1
      ensures accounts == AfterDrops(old(accounts), hosts, drops, stray)
    {
      writes := 0;
      for i := 0 to |hosts|
        invariant i <= drops && writes == i && accounts == old(accounts) - Elements(hosts[..i])
      {
        assert hosts[..i + 1] == hosts[..i] + [hosts[i]];
        ElementsSnoc(hosts[..i], hosts[i]);
        var dropped := i < drops;
        if dropped || stray { accounts := accounts - {hosts[i]}; }
        writes := writes + 1;
        if !dropped { return false, writes; }
      }
      assert hosts[..|hosts|] == hosts;
      return true, writes;
    }

    /** Drops the hosts no longer wanted and runs the query unless the revision is current. */
    method ReconcileUserInDB(a: Answers) returns (outcome: Outcome, revision: Option<Spec>, ghost writes: nat)
      modifies this`accounts
      ensures InDB(outcome, revision, accounts, writes) == ReconciledInDB(old(View()), a)
    {
      revision, writes := status.revision, 0;
      if !a.reachable || spec.password == "" { return EarlyFailure, revision, 0; }
      if accounts == map[] { revision := None; }
      var toRemove := StringDiffIn(status.allowedHosts, spec.hosts);
      var ok;
      ok, writes := DropUsers(toRemove, a.drops, a.stray);
      if !ok { return LateFailure, revision, writes; }
      if spec.hosts == [] { return if |toRemove| == 0 then EarlyFailure else LateFailure, revision, writes; }
      if revision == Some(spec) { return Finished, revision, writes; }
      if a.query || a.stray { accounts := accounts + Desired(spec); }
      writes := writes + 1;
      if !a.query { return LateFailure, revision, writes; }
      return Finished, Some(spec), writes;
    }

    /** One reconcile of a resource that is not being deleted, including saving its status. */
    method ReconcileUserInCluster(a: Answers) returns (outcome: Outcome, ghost writes: nat)
      modifies this
      ensures View() == Reconciled(old(View()), a)
      ensures outcome == OutcomeOf(old(View()), a) && writes == ReconciledInDB(old(View()), a).writes
    {
      var revision;
      outcome, revision, writes := ReconcileUserInDB(a);
      var allowed := status.allowedHosts;
      if outcome.Finished? && !finalizer {
        if a.update {
          finalizer := true;
          if a.resets { revision := status.revision; }
        } else {
          outcome := LateFailure;
        }
      }
      if outcome.Finished? { allowed := spec.hosts; }
      if a.save {
        status := Status(revision, allowed);
      } else if outcome.Finished? {
        outcome := LateFailure;
      }
    }

    /** Handling of a deleted resource: drop every account on record, then let the resource go. */
    method RemoveUser(r: Removal) returns (ok: bool)
      modifies this
      ensures View() == Removed(old(View()), r)
      ensures ok == (!old(finalizer) || LetsGo(old(View()), r))
    {
      if !finalizer { return true; }
      if r.cluster.Unreachable? { return false; }
      if r.cluster.Reachable? {
        ghost var writes;
        ok, writes := DropUsers(status.allowedHosts, r.drops, r.stray);
        if !ok { return false; }
      }
      if r.update { finalizer := false; }
      return r.update;
    }
  }

  /** A host loses its account exactly if one of the drops that took effect was for it. */
  lemma DropsExactly(accounts: Accounts, hosts: seq<string>, drops: nat, stray: bool, h: string)
    ensures var left := AfterDrops(accounts, hosts, drops, stray);
            && (h in left <==> && h in accounts
                               && forall i | 0 <= i < |hosts| && hosts[i] == h :: i > drops || (i == drops && !stray))
            && (h in left ==> left[h] == accounts[h])
  {
    var n := if drops >= |hosts| then |hosts| else drops + if stray then 1 else 0;
    assert AfterDrops(accounts, hosts, drops, stray) == accounts - Elements(hosts[..n]) by {
      assert hosts[..|hosts|] == hosts;
    }
    assert forall i | 0 <= i < n :: hosts[..n][i] == hosts[i];
  }

  // One reconcile.

  /** Whether the recorded revision lets a reconcile skip the management query. */
  predicate UpToDate(w: World) {
    w.accounts != map[] && w.status.revision == Some(w.spec)
  }

  /** Every wanted host has its account, with the password of the spec. */
  predicate Present(w: World) {
    forall h | h in w.spec.hosts :: h in w.accounts && w.accounts[h] == w.spec.password
  }

  /** The world after a reconcile that met no error. */
  function Completed(w: World, resets: bool): World {
    var kept := w.accounts - (Elements(w.status.allowedHosts) - Elements(w.spec.hosts));
    var revision := if !w.finalizer && resets then w.status.revision else Some(w.spec);
    World(w.spec, Status(revision, w.spec.hosts), true, if UpToDate(w) then kept else kept + Desired(w.spec))
  }

  lemma FinishedIsCompleted(w: World, a: Answers)
    requires OutcomeOf(w, a).Finished?
    ensures w.spec.hosts != [] && Reconciled(w, a) == Completed(w, a.resets)
  {
    DiffMeaning(w.status.allowedHosts, w.spec.hosts);
  }

  /** A reconcile finishes exactly if every call it has to make succeeds; a current revision spares the query. */
  lemma FinishesExactly(w: World, a: Answers)
    ensures OutcomeOf(w, a).Finished? <==>
            && a.reachable && w.spec.password != "" && w.spec.hosts != []
            && a.drops >= |Diff(w.status.allowedHosts, w.spec.hosts)|
            && (a.query || (w.accounts != map[] && w.status.revision == Some(w.spec)))
            && (w.finalizer || a.update) && a.save
    ensures OutcomeOf(w, a).Finished? ==>
              ReconciledInDB(w, a).writes == |Diff(w.status.allowedHosts, w.spec.hosts)| + if UpToDate(w) then 0 else 1
    ensures OutcomeOf(w, a).EarlyFailure? <==>
            || !a.reachable || w.spec.password == ""
            || (w.spec.hosts == [] && Diff(w.status.allowedHosts, w.spec.hosts) == [])
  {
  }

  /** What a failed reconcile leaves on record: the old hosts, and no revision whose accounts it has not seen to. */
  lemma FailureKeepsRecord(w: World, a: Answers)
    requires !OutcomeOf(w, a).Finished?
    ensures var after := Reconciled(w, a);
            && after.spec == w.spec && after.status.allowedHosts == w.status.allowedHosts
            && (w.finalizer ==> after.finalizer)
            && (|| after.status.revision == w.status.revision
                || (after.status.revision == None && w.accounts == map[])
                || (after.status.revision == Some(w.spec) && Present(after)))
  {
  }

  /** A reconcile that fails early sent nothing and changed no more than the revision of an empty database. */
  lemma EarlyFailureIsHarmless(w: World, a: Answers)
    requires OutcomeOf(w, a).EarlyFailure?
    ensures ReconciledInDB(w, a).writes == 0
    ensures || Reconciled(w, a) == w
            || (w.accounts == map[] && Reconciled(w, a) == w.(status := w.status.(revision := None)))
  {
    assert Elements<string>([]) == {};
    assert w.accounts - {} == w.accounts;
  }

  /** However it ends, a reconcile drops only hosts that are on record and not wanted, and creates only wanted ones. */
  lemma NoOtherAccountTouched(w: World, a: Answers)
    ensures var after := Reconciled(w, a).accounts;
            && after.Keys <= w.accounts.Keys + Elements(w.spec.hosts)
            && w.accounts.Keys - (Elements(w.status.allowedHosts) - Elements(w.spec.hosts)) <= after.Keys
            && forall h | h in after :: (h in w.accounts && after[h] == w.accounts[h])
                                        || (h in w.spec.hosts && after[h] == w.spec.password)
  {
    DiffMeaning(w.status.allowedHosts, w.spec.hosts);
    var toRemove := Diff(w.status.allowedHosts, w.spec.hosts);
    assert forall n | 0 <= n <= |toRemove| :: Elements(toRemove[..n]) <= Elements(toRemove);
  }

  /**
   A finished reconcile leaves exactly the accounts of the spec if and only if every account is on record
   or wanted, and, when the query is skipped, no wanted account is missing or outdated.
   */
  lemma FinishedExactly(w: World, a: Answers)
    requires OutcomeOf(w, a).Finished?
    ensures Reconciled(w, a).accounts == Desired(w.spec) <==>
            && w.accounts.Keys <= Elements(w.status.allowedHosts) + Elements(w.spec.hosts)
            && (UpToDate(w) ==> Present(w))
  {
    FinishedIsCompleted(w, a);
    var c := Completed(w, a.resets);
    assert Desired(w.spec).Keys == Elements(w.spec.hosts);
    if c.accounts == Desired(w.spec) {
      forall h | h in w.accounts
        ensures h in Elements(w.status.allowedHosts) + Elements(w.spec.hosts)
      {
        assert h !in c.accounts ==> h in Elements(w.status.allowedHosts);
      }
      forall h | h in w.spec.hosts && UpToDate(w)
        ensures h in w.accounts && w.accounts[h] == w.spec.password
      {
        assert h in c.accounts;
      }
    }
  }

  // Runs.

  datatype Action = Edit(spec: Spec) | Reconcile(answers: Answers)

  function Act(w: World, a: Action): World {
    match a
    case Edit(s) => w.(spec := s)  // a new spec or a new password
    case Reconcile(answers) => Reconciled(w, answers)
  }

  function Run(w: World, actions: seq<Action>): World {
    if actions == [] then w else Act(Run(w, actions[..|actions| - 1]), actions[|actions| - 1])
  }

  lemma RunSnoc(w: World, actions: seq<Action>, a: Action)
    ensures Run(w, actions + [a]) == Act(Run(w, actions), a)
  {
    assert (actions + [a])[..|actions|] == actions;
  }

  /** A new resource, before its first reconcile. */
  function Fresh(spec: Spec): World {
    World(spec, Status(None, []), false, map[])
  }

  /** The last reconcile that got as far as the database, if any, has finished. */
  predicate Settled(w: World, actions: seq<Action>) {
    actions == [] ||
    var init, last := actions[..|actions| - 1], actions[|actions| - 1];
    match last
    case Edit(_) => Settled(w, init)
    case Reconcile(a) =>
      match OutcomeOf(Run(w, init), a)
      case Finished => true
      case EarlyFailure => Settled(w, init)
      case LateFailure => false
  }

  /** A spec is edited only when things are settled; reconciles may fail anywhere and as often as they like. */
  predicate EditsWait(w: World, actions: seq<Action>) {
    actions == [] ||
    var init, last := actions[..|actions| - 1], actions[|actions| - 1];
    EditsWait(w, init) && (last.Edit? ==> Settled(w, init))
  }

  /** The accounts are those on record, and those of the recorded revision if there is one. */
  predicate Consistent(w: World) {
    && w.accounts.Keys == Elements(w.status.allowedHosts)
    && (w.status.revision.Some? ==> w.accounts == Desired(w.status.revision.value))
    && (!w.finalizer ==> w.accounts == map[] && w.status.revision == None)
  }

  /** A reconcile that finishes now is exact, and the revision on record is no other spec's if it may come back. */
  predicate Recoverable(w: World) {
    && w.accounts.Keys <= Elements(w.status.allowedHosts) + Elements(w.spec.hosts)
    && (UpToDate(w) ==> Present(w))
    && (!w.finalizer && w.status.revision.Some? ==> w.status.revision.value == w.spec)
  }

  lemma ConsistentIsRecoverable(w: World)
    requires Consistent(w)
    ensures Recoverable(w)
  {
  }

  lemma ReconcileStaysRecoverable(w: World, a: Answers)
    requires Recoverable(w)
    ensures Recoverable(Reconciled(w, a))
  {
    DiffMeaning(w.status.allowedHosts, w.spec.hosts);
    var toRemove := Diff(w.status.allowedHosts, w.spec.hosts);
    assert forall n | 0 <= n <= |toRemove| :: Elements(toRemove[..n]) <= Elements(toRemove);
    assert toRemove[..0] == [];
  }

  lemma FinishedIsConsistent(w: World, a: Answers)
    requires Recoverable(w) && OutcomeOf(w, a).Finished?
    ensures Consistent(Reconciled(w, a)) && Reconciled(w, a).accounts == Desired(w.spec)
  {
    FinishedExactly(w, a);
    FinishedIsCompleted(w, a);
  }

  lemma {:induction false} RunIsRecoverable(spec: Spec, actions: seq<Action>)
    requires EditsWait(Fresh(spec), actions)
    ensures Recoverable(Run(Fresh(spec), actions))
    ensures Settled(Fresh(spec), actions) ==> Consistent(Run(Fresh(spec), actions))
  {
    hide Recoverable, Consistent, Reconciled, OutcomeOf;
    if actions == [] {
      FreshIsConsistent(spec);
      ConsistentIsRecoverable(Fresh(spec));
    } else {
      var init, last := actions[..|actions| - 1], actions[|actions| - 1];
      RunIsRecoverable(spec, init);
      var w := Run(Fresh(spec), init);
      match last
      case Edit(s) =>
        EditStaysConsistent(w, s);
        ConsistentIsRecoverable(w.(spec := s));
      case Reconcile(a) =>
        ReconcileStaysRecoverable(w, a);
        match OutcomeOf(w, a)
        case Finished => FinishedIsConsistent(w, a);
        case EarlyFailure => if Settled(Fresh(spec), init) { EarlyStaysConsistent(w, a); }
        case LateFailure =>
    }
  }

  lemma FreshIsConsistent(spec: Spec)
    ensures Consistent(Fresh(spec))
  {
  }

  lemma EditStaysConsistent(w: World, s: Spec)
    requires Consistent(w)
    ensures Consistent(w.(spec := s))
  {
  }

  lemma EarlyStaysConsistent(w: World, a: Answers)
    requires Consistent(w) && OutcomeOf(w, a).EarlyFailure?
    ensures Consistent(Reconciled(w, a))
  {
    EarlyFailureIsHarmless(w, a);
  }

  /**
   In every run whose edits wait, whatever fails in between, the accounts after a finished reconcile are
   exactly the spec's hosts with its password.
   */
  lemma AccountsMatchSpec(spec: Spec, actions: seq<Action>, a: Answers)
    requires EditsWait(Fresh(spec), actions) && OutcomeOf(Run(Fresh(spec), actions), a).Finished?
    ensures var w := Run(Fresh(spec), actions + [Reconcile(a)]);
            w.accounts == Desired(w.spec) && w.spec == Run(Fresh(spec), actions).spec
  {
    RunIsRecoverable(spec, actions);
    FinishedIsConsistent(Run(Fresh(spec), actions), a);
    RunSnoc(Fresh(spec), actions, Reconcile(a));
  }

  /** A world that is up to date and on record is left alone by every reconcile, whatever is answered. */
  lemma UpToDateIsQuiet(w: World, a: Answers)
    requires UpToDate(w) && w.finalizer && w.status.allowedHosts == w.spec.hosts
    ensures Reconciled(w, a) == w && ReconciledInDB(w, a).writes == 0
  {
    DiffNothing(w.spec.hosts, w.spec.hosts);
    assert w.accounts - {} == w.accounts;
  }

  /**
   The reconcile after a finished one is sure to write nothing exactly when the first did not lose the
   new revision to the update that added the finalizer. In either case it leaves the accounts as they are.
   */
  lemma RepeatIsQuiet(spec: Spec, actions: seq<Action>, a: Answers)
    requires EditsWait(Fresh(spec), actions) && OutcomeOf(Run(Fresh(spec), actions), a).Finished?
    ensures var before := Run(Fresh(spec), actions);
            var w := Reconciled(before, a);
            && ((forall b :: ReconciledInDB(w, b).writes == 0) <==>
                before.finalizer || !a.resets || before.status.revision == Some(before.spec))
            && (UpToDate(w) ==> forall b :: Reconciled(w, b) == w)
            && forall b :: Reconciled(w, b).accounts == w.accounts
  {
    var before := Run(Fresh(spec), actions);
    var w := Reconciled(before, a);
    RunIsRecoverable(spec, actions);
    FinishedIsConsistent(before, a);
    FinishedIsCompleted(before, a);
    assert w.spec.hosts[0] in w.accounts;
    if UpToDate(w) {
      forall b
        ensures Reconciled(w, b) == w && ReconciledInDB(w, b).writes == 0
      {
        UpToDateIsQuiet(w, b);
      }
    } else {
      assert ReconciledInDB(w, a).writes > 0;
      forall b
        ensures Reconciled(w, b).accounts == w.accounts
      {
        SameAccountsAgain(w, b);
      }
    }
  }

  lemma SameAccountsAgain(w: World, b: Answers)
    requires w.accounts == Desired(w.spec) && w.status.allowedHosts == w.spec.hosts
    ensures Reconciled(w, b).accounts == w.accounts
  {
    DiffNothing(w.spec.hosts, w.spec.hosts);
    assert w.accounts - {} == w.accounts;
    assert w.accounts + Desired(w.spec) == w.accounts;
  }

  // Removal.

  /** Attempts to remove a deleted resource, one after another. */
  function RemovalRun(w: World, attempts: seq<Removal>): World {
    if attempts == [] then w
    else Removed(RemovalRun(w, attempts[..|attempts| - 1]), attempts[|attempts| - 1])
  }

  lemma {:induction false} RemovalProgress(w: World, attempts: seq<Removal>)
    requires w.finalizer && forall r | r in attempts :: !r.cluster.Gone?
    ensures var after := RemovalRun(w, attempts);
            && after.spec == w.spec && after.status == w.status
            && w.accounts - Elements(w.status.allowedHosts) == after.accounts - Elements(w.status.allowedHosts)
            && (!after.finalizer ==> after.accounts == w.accounts - Elements(w.status.allowedHosts))
  {
    if attempts != [] {
      var init, last := attempts[..|attempts| - 1], attempts[|attempts| - 1];
      assert last in attempts && forall r | r in init :: r in attempts;
      RemovalProgress(w, init);
      var allowed := w.status.allowedHosts;
      assert forall n | 0 <= n <= |allowed| :: Elements(allowed[..n]) <= Elements(allowed);
    }
  }

  /** An attempt that meets no cluster lets the resource go if it can be updated, and drops nothing. */
  lemma GoneClusterLetsGo(w: World, r: Removal)
    requires w.finalizer && r.cluster.Gone?
    ensures Removed(w, r) == w.(finalizer := !r.update)
  {
  }

  /** The resource can be updated, and no cluster is left or every recorded host has been dropped. */
  predicate Succeeds(hosts: seq<string>, r: Removal) {
    r.update && (r.cluster.Gone? || (r.cluster.Reachable? && r.drops >= |hosts|))
  }

  /** The finalizer has gone exactly if some attempt succeeded; the record is never touched. */
  lemma {:induction false} GoneExactly(w: World, attempts: seq<Removal>)
    requires w.finalizer
    ensures var after := RemovalRun(w, attempts);
            && after.spec == w.spec && after.status == w.status
            && (!after.finalizer <==> exists r :: r in attempts && Succeeds(w.status.allowedHosts, r))
  {
    if attempts != [] {
      var init, last := attempts[..|attempts| - 1], attempts[|attempts| - 1];
      assert attempts == init + [last];
      GoneExactly(w, init);
      assert LetsGo(w, last) <==> Succeeds(w.status.allowedHosts, last);
    }
  }

  /**
   When the resource has gone, after any number of failed attempts, no account is left if and only if all
   were on record. A resource without the finalizer goes without any drop.
   */
  lemma RemovalExactly(w: World, attempts: seq<Removal>)
    requires !RemovalRun(w, attempts).finalizer && forall r | r in attempts :: !r.cluster.Gone?
    ensures RemovalRun(w, attempts).accounts == map[] <==>
            if w.finalizer then w.accounts.Keys <= Elements(w.status.allowedHosts) else w.accounts == map[]
  {
    if w.finalizer {
      RemovalProgress(w, attempts);
      var left := w.accounts - Elements(w.status.allowedHosts);
      assert left == map[] <==> left.Keys == {};
      assert forall h | h in w.accounts :: h in left <==> h !in Elements(w.status.allowedHosts);
    } else {
      NothingToRemove(w, attempts);
    }
  }

  lemma {:induction false} NothingToRemove(w: World, attempts: seq<Removal>)
    requires !w.finalizer
    ensures RemovalRun(w, attempts) == w
  {
    if attempts != [] { NothingToRemove(w, attempts[..|attempts| - 1]); }
  }

  /** After every run that ends settled, the resource goes with all of its accounts. */
  lemma RemovalLeavesNothing(spec: Spec, actions: seq<Action>, attempts: seq<Removal>)
    requires EditsWait(Fresh(spec), actions) && Settled(Fresh(spec), actions)
    requires !RemovalRun(Run(Fresh(spec), actions), attempts).finalizer
    requires forall r | r in attempts :: !r.cluster.Gone?
    ensures RemovalRun(Run(Fresh(spec), actions), attempts).accounts == map[]
  {
    RunIsRecoverable(spec, actions);
    RemovalExactly(Run(Fresh(spec), actions), attempts);
  }

  // What goes wrong when an edit does not wait.

  /** No call fails, and the revision is not reset. */
  function AllWell(drops: nat): Answers {
    Answers(true, drops, true, false, true, false, true)
  }

  lemma FourSteps(w: World, a: Action, b: Action, c: Action, d: Action)
    ensures Run(w, [a, b, c, d]) == Act(Act(Act(Act(w, a), b), c), d)
  {
    RunSnoc(w, [], a);
    RunSnoc(w, [a], b);
    RunSnoc(w, [a, b], c);
    RunSnoc(w, [a, b, c], d);
    assert [] + [a] == [a] && [a] + [b] == [a, b] && [a, b] + [c] == [a, b, c] && [a, b, c] + [d] == [a, b, c, d];
  }

  lemma FirstReconcile(spec: Spec, a: Answers)
    requires spec.hosts != [] && spec.password != "" && a == AllWell(1)
    ensures Reconciled(Fresh(spec), a) == World(spec, Status(Some(spec), spec.hosts), true, Desired(spec))
  {
    DiffNothing([], spec.hosts);
    FinishedIsCompleted(Fresh(spec), a);
    assert Completed(Fresh(spec), false).accounts == Desired(spec);
  }

  lemma DropWithoutQuery(both: Spec, one: Spec, pwd: string, a: string, c: string)
    requires a != c && pwd != "" && both == Spec([a, c], pwd, "") && one == Spec([c], pwd, "")
    ensures Reconciled(World(one, Status(Some(both), [a, c]), true, Desired(both)), AllWell(1).(query := false)) ==
            World(one, Status(Some(both), [a, c]), true, Desired(both) - {a})
  {
    assert Diff([a, c], [c]) == [a] by {
      assert [a, c][..1] == [a] && [a][..0] == [];
      assert Diff([a], [c]) == [a];
    }
    assert Elements([a]) == {a};
    assert c in Desired(both);
  }

  /**
   Hosts are dropped, the query fails, and the spec is set back: the revision on record is that of the
   restored spec, so the loss of `a` is never noticed.
   */
  lemma LossIsReachable(pwd: string, a: string, c: string)
    requires a != c && pwd != ""
    ensures var both, one, well := Spec([a, c], pwd, ""), Spec([c], pwd, ""), AllWell(1);
            var w := Run(Fresh(both), [Reconcile(well), Edit(one), Reconcile(well.(query := false)), Edit(both)]);
            && OutcomeOf(w, well).Finished? && Reconciled(w, well) == w
            && a in Desired(w.spec) && a !in w.accounts
  {
    var both, one, well := Spec([a, c], pwd, ""), Spec([c], pwd, ""), AllWell(1);
    FirstReconcile(both, well);
    DropWithoutQuery(both, one, pwd, a, c);
    var w := World(both, Status(Some(both), [a, c]), true, Desired(both) - {a});
    FourSteps(Fresh(both), Reconcile(well), Edit(one), Reconcile(well.(query := false)), Edit(both));
    assert c in w.accounts && both.hosts[0] == a;
    DiffNothing([a, c], [a, c]);
    UpToDateIsQuiet(w, well);
  }

  /**
   The query takes effect, nothing is saved, and the spec moves on: the account of `a` is on no record, so
   neither the next finished reconcile nor the removal of the resource drops it.
   */
  lemma LeakIsReachable(pwd: string, a: string, b: string)
    requires a != b && pwd != ""
    ensures var first, second := Spec([a], pwd, ""), Spec([b], pwd, "");
            var unsaved := AllWell(1).(update := false, save := false);
            var w := Run(Fresh(first), [Reconcile(unsaved), Edit(second)]);
            var after := Reconciled(w, AllWell(1));
            var gone := Removed(after, Removal(Reachable, 1, false, true));
            && OutcomeOf(w, AllWell(1)).Finished? && a in after.accounts && a !in Desired(after.spec)
            && !gone.finalizer && a in gone.accounts
  {
    var first, second := Spec([a], pwd, ""), Spec([b], pwd, "");
    var unsaved := AllWell(1).(update := false, save := false);
    DiffNothing([], [a]);
    DiffNothing([], [b]);
    var w1 := Reconciled(Fresh(first), unsaved);
    assert a in w1.accounts;
    RunSnoc(Fresh(first), [], Reconcile(unsaved));
    RunSnoc(Fresh(first), [Reconcile(unsaved)], Edit(second));
    assert [] + [Reconcile(unsaved)] + [Edit(second)] == [Reconcile(unsaved), Edit(second)];
    FinishedIsCompleted(w1.(spec := second), AllWell(1));
  }
}
