/**
 Scheduled backups of one cluster: a tick creates a backup unless one is running, then garbage
 collection keeps the newest ones.
 */
module CronBackup {
  import opened GoStrings
  import opened Lists

  /** `mine`: carries the labels of the recurrent backups of this cluster. */
  datatype Backup = Backup(name: string, created: nat, completed: bool, mine: bool)

  function Mine(bs: set<Backup>): set<Backup> {
    set b | b in bs && b.mine
  }

  predicate DistinctTimes(bs: set<Backup>) {
    forall a, b | a in bs && b in bs && a.created == b.created :: a == b
  }

  // Garbage collection: sort the recurrent backups, newest first, and delete from a position on.

  predicate ByTimestamp(a: Backup, b: Backup) {
    b.created < a.created
  }

  /** An order the sort may leave the recurrent backups in; it is open for equal times. */
  ghost predicate GCOrder(bs: set<Backup>, items: seq<Backup>) {
    SortedListing(ByTimestamp, items, Mine(bs))
  }

  /** Those of the first `n` items that the loop deletes; a delete may be refused. */
  function PastLimit(items: seq<Backup>, n: nat, limit: int, refused: set<Backup>): set<Backup>
    requires n <= |items|
  {
    set k | 0 <= k < n && k >= limit && items[k] !in refused :: items[k]
  }

  /** What is left when the backups are met in the order `items`; a failed list refuses everything. */
  function Collected(bs: set<Backup>, items: seq<Backup>, limit: Option<int>, refused: set<Backup>): set<Backup> {
    if limit.None? then bs else bs - PastLimit(items, |items|, limit.value, refused)
  }

  lemma NothingPast(items: seq<Backup>, limit: int, refused: set<Backup>)
    ensures PastLimit(items, 0, limit, refused) == {}
  {
  }

  lemma OneMorePast(items: seq<Backup>, i: nat, limit: int, refused: set<Backup>)
    requires i < |items|
    ensures PastLimit(items, i + 1, limit, refused) ==
            PastLimit(items, i, limit, refused) + if i >= limit && items[i] !in refused then {items[i]} else {}
  {
  }

  function Newer(b: Backup, bs: set<Backup>): set<Backup> {
    set c | c in bs && c.created > b.created
  }

  function NotOlder(b: Backup, bs: set<Backup>): set<Backup> {
    set c | c in bs && c.created >= b.created
  }

  lemma NewerComeBefore(bs: set<Backup>, items: seq<Backup>, k: nat)
    requires GCOrder(bs, items) && k < |items|
    ensures Newer(items[k], Mine(bs)) <= Elements(items[..k])
  {
    forall c | c in Newer(items[k], Mine(bs))
      ensures c in items[..k]
    {
      assert c in Elements(items);
      var j :| 0 <= j < |items| && items[j] == c;
      assert ByTimestamp(items[j], items[k]);
      assert items[..k][j] == c;
    }
  }

  lemma BeforeAreNotOlder(bs: set<Backup>, items: seq<Backup>, k: nat)
    requires GCOrder(bs, items) && k < |items|
    ensures Elements(items[..k + 1]) <= NotOlder(items[k], Mine(bs))
  {
    forall c | c in items[..k + 1]
      ensures c in NotOlder(items[k], Mine(bs))
    {
      var j :| 0 <= j <= k && items[j] == c;
      assert c in Elements(items) && (j < k ==> !ByTimestamp(items[k], items[j]));
    }
  }

  /** The place of a recurrent backup in any such order, between its ranks with and without its equals. */
  lemma PlaceOf(bs: set<Backup>, items: seq<Backup>, b: Backup) returns (k: nat)
    requires GCOrder(bs, items) && b in Mine(bs)
    ensures k < |items| && items[k] == b && forall j | 0 <= j < |items| && items[j] == b :: j == k
    ensures |Newer(b, Mine(bs))| <= k < |NotOlder(b, Mine(bs))|
    ensures DistinctTimes(Mine(bs)) ==> k == |Newer(b, Mine(bs))|
  {
    assert b in Elements(items);
    k :| 0 <= k < |items| && items[k] == b;
    assert forall j | 0 <= j < |items| && items[j] == b :: j == k;
    hide Ordered, Mine;
    PlaceIsRank(bs, items, k);
  }

  lemma PlaceIsRank(bs: set<Backup>, items: seq<Backup>, k: nat)
    requires GCOrder(bs, items) && k < |items|
    ensures |Newer(items[k], Mine(bs))| <= k < |NotOlder(items[k], Mine(bs))|
    ensures DistinctTimes(Mine(bs)) ==> k == |Newer(items[k], Mine(bs))|
  {
    var b := items[k];
    NewerComeBefore(bs, items, k);
    BeforeAreNotOlder(bs, items, k);
    assert b in Elements(items);
    assert DistinctTimes(Mine(bs)) ==> NotOlder(b, Mine(bs)) == Newer(b, Mine(bs)) + {b};
    CountDistinct(items[..k]);
    CountDistinct(items[..k + 1]);
    assert NoDuplicates(items[..k]) && NoDuplicates(items[..k + 1]);
    hide Newer, NotOlder, Mine, Elements, Ordered, NoDuplicates;
    SubsetCount(Newer(b, Mine(bs)), Elements(items[..k]));
    SubsetCount(Elements(items[..k + 1]), NotOlder(b, Mine(bs)));
  }

  /**
   Whatever order the sort leaves equal times in: a backup with enough newer ones is deleted, and one
   with few enough others that are not older is kept.
   */
  lemma CollectedByRank(bs: set<Backup>, items: seq<Backup>, limit: int, refused: set<Backup>, b: Backup)
    requires GCOrder(bs, items) && b in bs
    ensures !b.mine || b in refused ==> b in Collected(bs, items, Some(limit), refused)
    ensures b.mine && b !in refused ==>
              && (b in Collected(bs, items, Some(limit), refused) ==> |Newer(b, Mine(bs))| < limit)
              && (|NotOlder(b, Mine(bs))| <= limit ==> b in Collected(bs, items, Some(limit), refused))
  {
    if b.mine {
      var k := PlaceOf(bs, items, b);
      assert k >= limit && b !in refused ==> items[k] in PastLimit(items, |items|, limit, refused);
    } else {
      assert forall j | 0 <= j < |items| :: items[j] in Elements(items);
    }
  }

  /** When every deletion succeeds, exactly min(limit, n) recurrent backups remain, and none deleted is newer. */
  lemma NewestRemain(bs: set<Backup>, items: seq<Backup>, limit: int)
    requires GCOrder(bs, items)
    ensures var before, after := Mine(bs), Mine(Collected(bs, items, Some(limit), {}));
            && after <= before
            && |after| == (if limit < 0 then 0 else if limit < |before| then limit else |before|)
            && forall b, c | b in after && c in before - after :: c.created <= b.created
  {
    var before, after := Mine(bs), Mine(Collected(bs, items, Some(limit), {}));
    var n := if limit < 0 then 0 else if limit < |items| then limit else |items|;
    CountDistinct(items);
    CountDistinct(items[..n]);
    assert forall j | 0 <= j < |items| :: items[j] in Elements(items);
    forall b | b in before
      ensures b in after <==> b in Elements(items[..n])
    {
      var k := PlaceOf(bs, items, b);
      if k < n { assert items[..n][k] == b; }
      assert k >= limit ==> items[k] in PastLimit(items, |items|, limit, {});
    }
    assert Elements(items[..n]) <= Elements(items);
    assert after == Elements(items[..n]);
    forall b, c | b in after && c in before - after
      ensures c.created <= b.created
    {
      var i := PlaceOf(bs, items, b);
      var j := PlaceOf(bs, items, c);
      assert i < j ==> !ByTimestamp(items[j], items[i]);
    }
  }

  /** With distinct times it depends on the rank alone: kept with fewer than `limit` newer ones, or if refused. */
  predicate Survives(b: Backup, bs: set<Backup>, limit: int, refused: set<Backup>) {
    !b.mine || |Newer(b, Mine(bs))| < limit || b in refused
  }

  function AfterGC(bs: set<Backup>, limit: Option<int>, refused: set<Backup>): set<Backup> {
    if limit.None? then bs else set b | b in bs && Survives(b, bs, limit.value, refused)
  }

  lemma CollectedIsByRank(bs: set<Backup>, items: seq<Backup>, limit: Option<int>, refused: set<Backup>)
    requires DistinctTimes(Mine(bs)) && GCOrder(bs, items)
    ensures Collected(bs, items, limit, refused) == AfterGC(bs, limit, refused)
  {
    if limit.Some? {
      forall b | b in bs
        ensures b in Collected(bs, items, limit, refused) <==> b in AfterGC(bs, limit, refused)
      {
        CollectedByRank(bs, items, limit.value, refused, b);
        if b.mine { var k := PlaceOf(bs, items, b); }
      }
    }
  }

  /**
   How one tick goes: whether the cluster exists with replicas, the list and create calls succeed, the
   name of a new backup, and which deletions are refused.
   */
  datatype Tick = Tick(needed: bool, listed: bool, creates: bool, name: string, refused: set<Backup>)

  datatype World = World(backups: set<Backup>, now: nat)

  predicate SomeRunning(bs: set<Backup>) {
    exists b :: b in bs && !b.completed
  }

  /** A tick creates a backup if it is needed and no backup at all, of whatever cluster, is seen running. */
  predicate Creates(w: World, t: Tick) {
    t.needed && t.creates && !(t.listed && SomeRunning(w.backups))
  }

  function NewBackup(w: World, t: Tick): Backup {
    Backup(t.name, w.now, false, true)
  }

  function AfterCreate(w: World, t: Tick): World {
    if Creates(w, t) then World(w.backups + {NewBackup(w, t)}, w.now + 1) else w
  }

  /** One tick, when creation times are distinct. */
  function AfterTick(w: World, limit: Option<int>, t: Tick): World {
    var c := AfterCreate(w, t);
    c.(backups := AfterGC(c.backups, limit, t.refused))
  }

  lemma ByTimestampIsWeakOrder()
    ensures WeakOrder(ByTimestamp)
  {
  }

  class CronJob {
    const limit: Option<int>
    var backups: set<Backup>
    var now: nat

    constructor (limit: Option<int>, w: World)
      ensures this.limit == limit && View() == w
    {
      this.limit, backups, now := limit, w.backups, w.now;
    }

    function View(): World
      reads this
    {
      World(backups, now)
    }

    method ScheduledBackupsRunningCount(listed: bool) returns (n: nat)
      ensures n > 0 <==> listed && SomeRunning(backups)
    {
      if !listed { return 0; }
      var items := List(backups);
      n := 0;
      for i := 0 to |items|
        invariant n > 0 <==> exists b :: b in items[..i] && !b.completed
      {
        assert items[..i + 1] == items[..i] + [items[i]];
        if !items[i].completed { n := n + 1; }
      }
      assert items[..|items|] == items;
      assert forall b :: b in items <==> b in Elements(items);
    }

    method BackupGC(refused: set<Backup>) returns (ghost items: seq<Backup>)
      requires limit.Some?
      modifies this`backups
      ensures GCOrder(old(backups), items) && backups == Collected(old(backups), items, limit, refused)
      ensures DistinctTimes(Mine(old(backups))) ==> backups == AfterGC(old(backups), limit, refused)
    {
      var listed := List(Mine(backups));
      ByTimestampIsWeakOrder();
      var sorted := SortSet(ByTimestamp, listed);
      hide PastLimit, AfterGC;
      NothingPast(sorted, limit.value, refused);
      for i := 0 to |sorted|
        invariant backups == old(backups) - PastLimit(sorted, i, limit.value, refused)
      {
        OneMorePast(sorted, i, limit.value, refused);
        if i >= limit.value && sorted[i] !in refused {
          backups := backups - {sorted[i]};
        }
      }
      items := sorted;
      if DistinctTimes(Mine(old(backups))) { CollectedIsByRank(old(backups), items, limit, refused); }
    }

    method Run(t: Tick) returns (ghost items: seq<Backup>)
      modifies this
      ensures var c := AfterCreate(old(View()), t);
              && now == c.now && backups == Collected(c.backups, items, limit, t.refused)
              && (limit.Some? ==> GCOrder(c.backups, items))
              && (DistinctTimes(Mine(c.backups)) ==> View() == AfterTick(old(View()), limit, t))
    {
      if t.needed {
        var running := ScheduledBackupsRunningCount(t.listed);
        if running == 0 && t.creates {
          backups, now := backups + {Backup(t.name, now, false, true)}, now + 1;
        }
      }
      items := [];
      if limit.Some? { items := BackupGC(t.refused); }
    }
  }

  // Runs, with creation times that increase strictly.

  datatype Action =
    | Cron(tick: Tick)
    | Complete(backup: Backup)                  // the backup job ends
    | Other(name: string, completed: bool)      // a backup of another kind is created
    | Delete(backup: Backup)                    // somebody deletes a backup

  function Act(w: World, limit: Option<int>, a: Action): World {
    match a
    case Cron(t) => AfterTick(w, limit, t)
    case Complete(b) =>
      if b in w.backups then w.(backups := w.backups - {b} + {b.(completed := true)}) else w
    case Other(name, completed) => World(w.backups + {Backup(name, w.now, completed, false)}, w.now + 1)
    case Delete(b) => w.(backups := w.backups - {b})
  }

  function Run(w: World, limit: Option<int>, actions: seq<Action>): World {
    if actions == [] then w else Act(Run(w, limit, actions[..|actions| - 1]), limit, actions[|actions| - 1])
  }

  /** Times are distinct and in the past. */
  predicate TimesInOrder(w: World) {
    DistinctTimes(w.backups) && forall b | b in w.backups :: b.created < w.now
  }

  /** A recurrent backup still running is the newest of its kind. */
  predicate RunningIsNewest(bs: set<Backup>) {
    forall b, c | b in bs && c in bs && b.mine && c.mine && !b.completed :: c.created <= b.created
  }

  predicate Inv(w: World) {
    TimesInOrder(w) && RunningIsNewest(w.backups)
  }

  predicate ListsSucceed(actions: seq<Action>) {
    forall a | a in actions && a.Cron? :: a.tick.listed
  }

  lemma {:induction false} RunKeepsInv(w: World, limit: Option<int>, actions: seq<Action>)
    requires Inv(w) && ListsSucceed(actions)
    ensures Inv(Run(w, limit, actions))
  {
    if actions != [] {
      var init, last := actions[..|actions| - 1], actions[|actions| - 1];
      assert last in actions && forall a | a in init :: a in actions;
      hide Inv, Act;
      RunKeepsInv(w, limit, init);
      StepKeepsInv(Run(w, limit, init), limit, last);
    }
  }

  lemma StepKeepsInv(w: World, limit: Option<int>, a: Action)
    requires Inv(w) && (a.Cron? ==> a.tick.listed)
    ensures Inv(Act(w, limit, a))
  {
    hide AfterTick;
    if a.Cron? {
      TickKeepsInvExactly(w, limit, a.tick);
    }
  }

  /** In every run at most one recurrent backup of the cluster is running, and it is the newest one. */
  lemma AtMostOneRunning(w: World, limit: Option<int>, actions: seq<Action>, b: Backup, c: Backup)
    requires Inv(w) && ListsSucceed(actions)
    requires b in Mine(Run(w, limit, actions).backups) && c in Mine(Run(w, limit, actions).backups)
    requires !b.completed
    ensures c == b || (c.completed && c.created < b.created)
  {
    RunKeepsInv(w, limit, actions);
  }

  // What a tick does to running backups, whether or not its list succeeds.

  /** A backup at this rank stays. */
  predicate KeptAt(limit: Option<int>, t: Tick, b: Backup, rank: nat) {
    limit.None? || rank < limit.value || b in t.refused
  }

  lemma NewOneSurvives(w: World, limit: Option<int>, t: Tick)
    requires TimesInOrder(w) && Creates(w, t)
    ensures NewBackup(w, t) in AfterTick(w, limit, t).backups <==> KeptAt(limit, t, NewBackup(w, t), 0)
  {
    assert Newer(NewBackup(w, t), Mine(AfterCreate(w, t).backups)) == {};
  }

  /**
   A running recurrent backup survives a tick exactly when the limit leaves room for it and for the backup
   the tick creates, if it creates one; with a list that succeeds it never does.
   */
  lemma RunningSurvives(w: World, limit: Option<int>, t: Tick, b: Backup)
    requires Inv(w) && b in Mine(w.backups) && !b.completed
    ensures b in AfterTick(w, limit, t).backups <==> KeptAt(limit, t, b, if Creates(w, t) then 1 else 0)
    ensures t.listed ==> !Creates(w, t)
  {
    var c := AfterCreate(w, t);
    assert Newer(b, Mine(c.backups)) == if Creates(w, t) then {NewBackup(w, t)} else {};
  }

  /**
   A tick breaks the invariant exactly when it creates a backup beside a running recurrent one and garbage
   collection keeps them both. Only a failed list, which counts as nothing running, lets it create one.
   */
  lemma TickKeepsInvExactly(w: World, limit: Option<int>, t: Tick)
    requires Inv(w)
    ensures Inv(AfterTick(w, limit, t)) <==>
            !(&& Creates(w, t) && KeptAt(limit, t, NewBackup(w, t), 0)
              && exists b :: b in Mine(w.backups) && !b.completed && KeptAt(limit, t, b, 1))
    ensures t.listed ==> Inv(AfterTick(w, limit, t))
  {
    var after := AfterTick(w, limit, t);
    TimesStayInOrder(w, limit, t);
    if Creates(w, t) {
      NewOneSurvives(w, limit, t);
    }
    forall b | b in Mine(w.backups) && !b.completed
      ensures b in after.backups <==> KeptAt(limit, t, b, if Creates(w, t) then 1 else 0)
    {
      RunningSurvives(w, limit, t, b);
    }
    hide AfterGC;
    assert after.backups <= AfterCreate(w, t).backups;
  }

  lemma TimesStayInOrder(w: World, limit: Option<int>, t: Tick)
    requires TimesInOrder(w)
    ensures TimesInOrder(AfterTick(w, limit, t)) && AfterTick(w, limit, t).backups <= AfterCreate(w, t).backups
  {
  }

  /** With one backup kept, a failed list costs the running backup: the new one takes its place. */
  lemma FailedListLosesRunning(w: World, t: Tick, b: Backup)
    requires Inv(w) && b in Mine(w.backups) && !b.completed && t.refused == {}
    requires t.needed && t.creates && !t.listed
    ensures var after := AfterTick(w, Some(1), t);
            b !in after.backups && NewBackup(w, t) in after.backups && Inv(after)
  {
    RunningSurvives(w, Some(1), t, b);
    NewOneSurvives(w, Some(1), t);
    TickKeepsInvExactly(w, Some(1), t);
  }

  /** A tick whose list shows every backup completed, or fails, creates one, which stays if there is room for one. */
  lemma TickCreates(w: World, limit: Option<int>, t: Tick)
    requires TimesInOrder(w) && t.needed && t.creates
    requires t.listed ==> forall b | b in w.backups :: b.completed
    ensures var b := Backup(t.name, w.now, false, true);
            var after := AfterTick(w, limit, t);
            && after.now == w.now + 1 && b !in w.backups && after.backups <= w.backups + {b}
            && (b in after.backups <==> limit.None? || limit.value >= 1 || b in t.refused)
            && (limit.None? ==> after.backups == w.backups + {b})
  {
    NewOneSurvives(w, limit, t);
  }

  /** A tick that is not needed, cannot create or lists an incomplete backup of any kind creates nothing. */
  lemma TickCreatesNothing(w: World, limit: Option<int>, t: Tick)
    requires !t.needed || !t.creates || (t.listed && exists b :: b in w.backups && !b.completed)
    ensures AfterTick(w, limit, t).backups <= w.backups && AfterTick(w, limit, t).now == w.now
    ensures limit.None? ==> AfterTick(w, limit, t) == w
  {
  }

  // Running backups when lists may fail.

  function Running(bs: set<Backup>): set<Backup> {
    set b | b in bs && b.mine && !b.completed
  }

  function FailedLists(actions: seq<Action>): nat {
    if actions == [] then 0
    else
      var last := actions[|actions| - 1];
      FailedLists(actions[..|actions| - 1]) + if last.Cron? && !last.tick.listed then 1 else 0
  }

  /** In every run there are never more running recurrent backups than one, and one for each failed list. */
  lemma {:induction false} RunningAtMost(w: World, limit: Option<int>, actions: seq<Action>)
    requires |Running(w.backups)| <= 1
    ensures |Running(Run(w, limit, actions).backups)| <= 1 + FailedLists(actions)
  {
    if actions != [] {
      var init, last := actions[..|actions| - 1], actions[|actions| - 1];
      RunningAtMost(w, limit, init);
      RunningAfter(Run(w, limit, init), limit, last);
    }
  }

  lemma RunningAfter(w: World, limit: Option<int>, a: Action)
    ensures var before, after := Running(w.backups), Running(Act(w, limit, a).backups);
            |after| <= if a.Cron? && before == {} then 1
                       else |before| + if a.Cron? && !a.tick.listed then 1 else 0
  {
    var before, after := Running(w.backups), Running(Act(w, limit, a).backups);
    if a.Cron? {
      var fresh_ := NewBackup(w, a.tick);
      if Creates(w, a.tick) {
        SubsetCount(after, before + {fresh_});
      } else {
        SubsetCount(after, before);
      }
      if b :| b in before { assert b in w.backups; }
    } else {
      SubsetCount(after, before);
    }
  }
}
