/**
 The node table of the cluster status: a Go slice over a backing array. Rows are looked up by name,
 appended when missing, and trimmed in place when pods disappear.
 */
module NodeTable {
  import opened GoStrings
  import opened Lists

  datatype ConditionType =
    | Lagged | Leader | ReadOnly | Replicating
    | RoInitial | RoReadOnly | RoSemiClose | RoReplicating

  /** A row; a fresh row has all of its conditions unknown (None). */
  datatype Row = Row(name: string, conditions: seq<(ConditionType, Option<bool>)>)

  function FreshRow(name: string, readOnly: bool): Row {
    Row(name,
        if readOnly then [(RoInitial, None), (RoReadOnly, None), (RoSemiClose, None), (RoReplicating, None)]
        else [(Lagged, None), (Leader, None), (ReadOnly, None), (Replicating, None)])
  }

  /** Where the status syncer writes the condition of a type; those of read-only nodes count from their own first. */
  function ConditionIndex(t: ConditionType): nat {
    match t
    case Lagged => 0
    case Leader => 1
    case ReadOnly => 2
    case Replicating => 3
    case RoInitial => 0
    case RoReadOnly => 1
    case RoSemiClose => 2
    case RoReplicating => 3
  }

  predicate OfReadOnly(t: ConditionType) {
    t.RoInitial? || t.RoReadOnly? || t.RoSemiClose? || t.RoReplicating?
  }

  /** A fresh row has the conditions of its kind, each unknown and at the place where it is written. */
  lemma FreshRowConditions(name: string, readOnly: bool, t: ConditionType)
    ensures var r := FreshRow(name, readOnly);
            && r.name == name && |r.conditions| == 4
            && (OfReadOnly(t) == readOnly ==> r.conditions[ConditionIndex(t)] == (t, None))
  {
  }

  predicate DistinctRows(rows: seq<Row>) {
    forall i, j | 0 <= i < j < |rows| :: rows[i].name != rows[j].name
  }

  function RowNames(rows: seq<Row>): set<string> {
    set r | r in rows :: r.name
  }

  /** The table with a row for `name`: unchanged if there is one, else extended by a fresh row. */
  function WithRow(rows: seq<Row>, name: string, readOnly: bool): seq<Row> {
    if name in RowNames(rows) then rows else rows + [FreshRow(name, readOnly)]
  }

  function WithRows(rows: seq<Row>, names: seq<string>, readOnly: bool): seq<Row> {
    if names == [] then rows
    else WithRow(WithRows(rows, names[..|names| - 1], readOnly), names[|names| - 1], readOnly)
  }

  /** `readOnlys` is the configured number of read-only nodes, if any; a number out of range panics. */
  predicate TrimPanics(rows: seq<Row>, pods: nat, readOnlys: Option<int>) {
    |rows| > pods && readOnlys.Some? && !(0 <= readOnlys.value <= |rows|)
  }

  /** The first `pods` rows, followed by the last ones up to the number of read-only nodes. */
  function Trimmed(rows: seq<Row>, pods: nat, readOnlys: Option<int>): seq<Row>
    requires !TrimPanics(rows, pods, readOnlys)
  {
    if |rows| <= pods then rows
    else rows[..pods] + if readOnlys.None? then [] else rows[|rows| - readOnlys.value..]
  }

  /** What one status pass works on: the pods listed, and the number of read-only nodes in the spec. */
  datatype Listing = Listing(readOnlys: seq<string>, pods: seq<string>, num: Option<int>)

  function Looked(rows: seq<Row>, l: Listing): seq<Row> {
    WithRows(WithRows(rows, l.readOnlys, true), l.pods, false)
  }

  /** The rows after one status pass; one that panics in the trim leaves the looked-up rows behind. */
  function Pass(rows: seq<Row>, l: Listing): seq<Row> {
    var looked := Looked(rows, l);
    if TrimPanics(looked, |l.pods|, l.num) then looked else Trimmed(looked, |l.pods|, l.num)
  }

  /** Go's copy within one array: the `count` rows from `src` end up at `dst`, whatever the overlap. */
  method MoveWithin(buf: array<Row>, dst: nat, src: nat, count: nat)
    requires dst + count <= buf.Length && src + count <= buf.Length
    modifies buf
    ensures buf[..dst] == old(buf[..dst])
    ensures buf[dst..dst + count] == old(buf[src..src + count])
  {
    if dst <= src {
      MoveDown(buf, dst, src, count);
    } else {
      MoveUp(buf, dst, src, count);
    }
  }

  /** Front to back, for a destination before the source. */
  method MoveDown(buf: array<Row>, dst: nat, src: nat, count: nat)
    requires dst <= src && src + count <= buf.Length
    modifies buf
    ensures buf[..dst] == old(buf[..dst])
    ensures buf[dst..dst + count] == old(buf[src..src + count])
  {
    ghost var was := buf[..];
    for i := 0 to count
      invariant forall k | 0 <= k < dst || src + i <= k < buf.Length :: buf[k] == was[k]
      invariant forall k | dst <= k < dst + i :: buf[k] == was[k - dst + src]
    {
      buf[dst + i] := buf[src + i];
    }
  }

  /** Back to front, for a destination behind the source. */
  method MoveUp(buf: array<Row>, dst: nat, src: nat, count: nat)
    requires src < dst && dst + count <= buf.Length
    modifies buf
    ensures buf[..dst] == old(buf[..dst])
    ensures buf[dst..dst + count] == old(buf[src..src + count])
  {
    ghost var was := buf[..];
    for i := count downto 0
      invariant forall k | 0 <= k < dst + i :: buf[k] == was[k]
      invariant forall k | dst + i <= k < dst + count :: buf[k] == was[k - dst + src]
    {
      buf[dst + i] := buf[src + i];
    }
  }

  class Table {
    var buf: array<Row>
    var len: nat

    ghost predicate Valid()
      reads this
    {
      len <= buf.Length
    }

    function Rows(): seq<Row>
      requires Valid()
      reads this, buf
    {
      buf[..len]
    }

    constructor ()
      ensures Valid() && Rows() == [] && fresh(buf)
    {
      buf, len := new Row[0], 0;
    }

    /** Moves the rows to a larger backing array. */
    method Grow(capacity: nat)
      requires Valid() && capacity >= len
      modifies this`buf
      ensures Valid() && fresh(buf) && buf.Length == capacity && Rows() == old(Rows())
    {
      var larger := new Row[capacity];
      forall k | 0 <= k < len { larger[k] := buf[k]; }
      buf := larger;
      assert buf[..len] == old(buf[..len]);
    }

    method Append(row: Row)
      requires Valid()
      modifies this, buf
      ensures Valid() && (fresh(buf) || buf == old(buf)) && Rows() == old(Rows()) + [row]
    {
      if len == buf.Length { Grow(2 * len + 1); }
      buf[len] := row;
      len := len + 1;
    }

    /** The index of the row called `name`, appending a fresh row if there is none. */
    method GetStatusIndex(name: string, readOnly: bool) returns (idx: nat)
      requires Valid()
      modifies this, buf
      ensures Valid() && (fresh(buf) || buf == old(buf))
      ensures Rows() == WithRow(old(Rows()), name, readOnly)
      ensures idx < len && Rows()[idx].name == name
      ensures forall i | 0 <= i < idx :: Rows()[i].name != name
    {
      for i := 0 to len
        invariant forall k | 0 <= k < i :: buf[k].name != name
      {
        if buf[i].name == name {
          assert buf[..len][i].name == name;
          return i;
        }
      }
      idx := len;
      Append(FreshRow(name, readOnly));
    }

    /** Keeps the first `pods` rows and, if read-only nodes are configured, that many last ones. */
    method Trim(pods: nat, readOnlys: Option<int>) returns (ok: bool)
      requires Valid()
      modifies this, buf
      ensures Valid() && (fresh(buf) || buf == old(buf))
      ensures ok == !TrimPanics(old(Rows()), pods, readOnlys)
      ensures Rows() == if ok then Trimmed(old(Rows()), pods, readOnlys) else old(Rows())
    {
      if len <= pods { return true; }
      if readOnlys.None? {
        len := pods;
        assert buf[..pods] == old(buf[..len])[..pods];
        return true;
      }
      if readOnlys.value < 0 || readOnlys.value > len { return false; }
      AppendLast(pods, readOnlys.value);
      return true;
    }

    /** append(rows[:pods], rows[len-num:]...): in place when the capacity suffices. */
    method AppendLast(pods: nat, num: nat)
      requires Valid() && pods < len && num <= len
      modifies this, buf
      ensures Valid() && (fresh(buf) || buf == old(buf))
      ensures Rows() == old(Rows())[..pods] + old(Rows())[old(len) - num..]
    {
      ghost var rows := Rows();
      var from := len - num;
      if pods + num > buf.Length { Grow(pods + num); }
      assert buf[..pods] == rows[..pods] && buf[from..from + num] == rows[from..] by { assert buf[..len] == rows; }
      MoveWithin(buf, pods, from, num);
      len := pods + num;
      assert buf[..len] == buf[..pods] + buf[pods..pods + num];
    }

    /** The row bookkeeping of one status pass: read-only rows, then pod rows, then the trim. */
    method UpdateRows(l: Listing) returns (ok: bool)
      requires Valid()
      modifies this, buf
      ensures Valid() && Rows() == Pass(old(Rows()), l)
      ensures ok == !TrimPanics(Looked(old(Rows()), l), |l.pods|, l.num)
    {
      for i := 0 to |l.readOnlys|
        invariant Valid() && (fresh(buf) || buf == old(buf))
        invariant Rows() == WithRows(old(Rows()), l.readOnlys[..i], true)
      {
        assert l.readOnlys[..i + 1][..i] == l.readOnlys[..i];
        var _ := GetStatusIndex(l.readOnlys[i], true);
      }
      assert l.readOnlys[..|l.readOnlys|] == l.readOnlys;
      ghost var withRo := Rows();
      for i := 0 to |l.pods|
        invariant Valid() && (fresh(buf) || buf == old(buf))
        invariant Rows() == WithRows(withRo, l.pods[..i], false)
      {
        assert l.pods[..i + 1][..i] == l.pods[..i];
        var _ := GetStatusIndex(l.pods[i], false);
      }
      assert l.pods[..|l.pods|] == l.pods;
      ok := Trim(|l.pods|, l.num);
    }
  }

  // What the bookkeeping guarantees.

  lemma LookupKeepsDistinct(rows: seq<Row>, name: string, readOnly: bool)
    requires DistinctRows(rows)
    ensures DistinctRows(WithRow(rows, name, readOnly))
    ensures RowNames(WithRow(rows, name, readOnly)) == RowNames(rows) + {name}
    ensures rows <= WithRow(rows, name, readOnly)
  {
    if name in RowNames(rows) {
      assert RowNames(rows) + {name} == RowNames(rows);
    } else {
      var fresh_ := FreshRow(name, readOnly);
      assert forall k | 0 <= k < |rows| :: rows[k].name in RowNames(rows);
      assert RowNames(rows + [fresh_]) == RowNames(rows) + {name};
    }
  }

  /** Looking names up never creates a second row for a name, and adds no other names. */
  lemma {:induction false} LookupsKeepDistinct(rows: seq<Row>, names: seq<string>, readOnly: bool)
    requires DistinctRows(rows)
    ensures DistinctRows(WithRows(rows, names, readOnly))
    ensures RowNames(WithRows(rows, names, readOnly)) == RowNames(rows) + Elements(names)
    ensures rows <= WithRows(rows, names, readOnly)
  {
    hide DistinctRows, WithRow, RowNames;
    if names == [] {
      assert RowNames(rows) + {} == RowNames(rows);
    } else {
      var init, last := names[..|names| - 1], names[|names| - 1];
      LookupsKeepDistinct(rows, init, readOnly);
      LookupKeepsDistinct(WithRows(rows, init, readOnly), last, readOnly);
      assert names == init + [last];
      ElementsSnoc(init, last);
    }
  }

  /** Trimming keeps names distinct exactly when the two kept parts do not overlap. */
  lemma TrimKeepsDistinct(rows: seq<Row>, pods: nat, num: nat)
    requires DistinctRows(rows) && pods < |rows| && num <= |rows|
    ensures DistinctRows(Trimmed(rows, pods, Some(num))) <==> pods + num <= |rows|
  {
    var t := Trimmed(rows, pods, Some(num));
    if pods + num > |rows| {
      assert t[pods - 1] == rows[pods - 1];
      assert t[pods + (pods - 1 - (|rows| - num))] == rows[pods - 1];
    }
  }

  lemma {:induction false} DistinctRowCount(rows: seq<Row>)
    requires DistinctRows(rows)
    ensures |RowNames(rows)| == |rows|
  {
    if rows != [] {
      var init, last := rows[..|rows| - 1], rows[|rows| - 1];
      DistinctRowCount(init);
      assert rows == init + [last];
      assert RowNames(rows) == RowNames(init) + {last.name};
      assert last.name !in RowNames(init);
    }
  }

  /**
   A table of distinct names that has a row for every live node (`pods` regular and `num` read-only
   ones) is trimmed to exactly the live nodes if and only if no live row sits in the part cut out.
   In every case the result has distinct names and one row per live node.
   */
  lemma TrimKeepsLiveExactly(rows: seq<Row>, pods: nat, num: nat, live: set<string>)
    requires DistinctRows(rows) && live <= RowNames(rows) && |live| == pods + num && pods < |rows|
    ensures pods + num <= |rows|
    ensures DistinctRows(Trimmed(rows, pods, Some(num))) && |Trimmed(rows, pods, Some(num))| == pods + num
    ensures RowNames(Trimmed(rows, pods, Some(num))) == live <==>
            forall i | pods <= i < |rows| - num :: rows[i].name !in live
  {
    DistinctRowCount(rows);
    SubsetCount(live, RowNames(rows));
    TrimKeepsDistinct(rows, pods, num);
    var t := Trimmed(rows, pods, Some(num));
    DistinctRowCount(t);
    if forall i | pods <= i < |rows| - num :: rows[i].name !in live {
      forall n | n in live
        ensures n in RowNames(t)
      {
        var i :| 0 <= i < |rows| && rows[i].name == n;
        KeptRow(rows, pods, num, i);
      }
      SubsetCount(live, RowNames(t));
    } else {
      var i :| pods <= i < |rows| - num && rows[i].name in live;
      CutRow(rows, pods, num, i);
    }
  }

  lemma KeptRow(rows: seq<Row>, pods: nat, num: nat, i: nat)
    requires pods + num <= |rows| && pods < |rows| && (i < pods || |rows| - num <= i < |rows|)
    ensures rows[i].name in RowNames(Trimmed(rows, pods, Some(num)))
  {
    var t := Trimmed(rows, pods, Some(num));
    var k := if i < pods then i else i + pods + num - |rows|;
    assert t[k] == rows[i];
    assert t[k] in t;
  }

  lemma CutRow(rows: seq<Row>, pods: nat, num: nat, i: nat)
    requires DistinctRows(rows) && pods < |rows| && pods + num <= |rows| && pods <= i < |rows| - num
    ensures rows[i].name !in RowNames(Trimmed(rows, pods, Some(num)))
  {
    var t := Trimmed(rows, pods, Some(num));
    forall k | 0 <= k < |t|
      ensures t[k].name != rows[i].name
    {
      assert t[k] == rows[if k < pods then k else k - pods + |rows| - num];
    }
  }

  lemma TrimNothing(rows: seq<Row>, pods: nat, num: nat)
    requires |rows| == pods + num
    ensures Trimmed(rows, pods, Some(num)) == rows
  {
    assert rows[..pods] + rows[pods..] == rows;
  }

  lemma {:induction false} NoNewRows(rows: seq<Row>, names: seq<string>, readOnly: bool)
    requires forall n | n in names :: n in RowNames(rows)
    ensures WithRows(rows, names, readOnly) == rows
  {
    if names != [] {
      NoNewRows(rows, names[..|names| - 1], readOnly);
    }
  }

  // Whole passes, and runs of them.

  function LiveNames(l: Listing): set<string> {
    Elements(l.readOnlys + l.pods)
  }

  /** The hosts listed are distinct, and the read-only nodes of the spec are all listed. */
  predicate AllListed(l: Listing) {
    && NoDuplicates(l.readOnlys + l.pods)
    && (l.num == Some(|l.readOnlys|) || (l.num == None && l.readOnlys == []))
  }

  /** Looking up the hosts keeps the rows in place, adds the missing ones behind, and nothing else. */
  lemma LookedFacts(rows: seq<Row>, l: Listing)
    requires DistinctRows(rows)
    ensures rows <= Looked(rows, l) && DistinctRows(Looked(rows, l))
    ensures RowNames(Looked(rows, l)) == RowNames(rows) + LiveNames(l)
    ensures forall i | |rows| <= i < |Looked(rows, l)| :: Looked(rows, l)[i].name in LiveNames(l)
  {
    hide DistinctRows;
    LookupsKeepDistinct(rows, l.readOnlys, true);
    LookupsKeepDistinct(WithRows(rows, l.readOnlys, true), l.pods, false);
    assert LiveNames(l) == Elements(l.readOnlys) + Elements(l.pods);
    assert RowNames(rows) + Elements(l.readOnlys) + Elements(l.pods) == RowNames(rows) + LiveNames(l);
    AddedAreNew(rows, Looked(rows, l), LiveNames(l));
  }

  lemma AddedAreNew(rows: seq<Row>, more: seq<Row>, names: set<string>)
    requires rows <= more && DistinctRows(more) && RowNames(more) == RowNames(rows) + names
    ensures forall i | |rows| <= i < |more| :: more[i].name in names
  {
    forall i | |rows| <= i < |more|
      ensures more[i].name in names
    {
      assert more[i].name in RowNames(more);
      assert forall j | 0 <= j < |rows| :: rows[j] == more[j] && more[j].name != more[i].name;
    }
  }

  /**
   A pass over a table of distinct names does not panic, keeps names distinct and leaves one row per live
   node. The rows are the live nodes exactly when no live row sits in the part cut out.
   */
  lemma PassFacts(rows: seq<Row>, l: Listing)
    requires DistinctRows(rows) && AllListed(l)
    ensures !TrimPanics(Looked(rows, l), |l.pods|, l.num)
    ensures DistinctRows(Pass(rows, l)) && |Pass(rows, l)| == |l.pods| + |l.readOnlys| == |LiveNames(l)|
    ensures RowNames(Pass(rows, l)) == LiveNames(l) <==>
            forall i | |l.pods| <= i < |Looked(rows, l)| - |l.readOnlys| :: Looked(rows, l)[i].name !in LiveNames(l)
    ensures |l.pods| <= |Looked(rows, l)| && Pass(rows, l)[..|l.pods|] == Looked(rows, l)[..|l.pods|]
    ensures forall i | |l.pods| <= i < |Pass(rows, l)| ::
              Pass(rows, l)[i] == Looked(rows, l)[i + |Looked(rows, l)| - |Pass(rows, l)|]
  {
    hide RowNames, DistinctRows, LiveNames, Looked, NoDuplicates;
    LookedFacts(rows, l);
    EnoughRows(rows, l);
    var looked, pods, num := Looked(rows, l), |l.pods|, |l.readOnlys|;
    assert LiveNames(l) <= RowNames(looked);
    if pods < |looked| {
      TrimKeepsLiveExactly(looked, pods, num, LiveNames(l));
      TrimmedRows(looked, pods, l.num, num);
    } else {
      SubsetCount(LiveNames(l), RowNames(looked));
      DistinctRowCount(looked);
    }
  }

  /** With the missing rows added there is a row for every live node. */
  lemma EnoughRows(rows: seq<Row>, l: Listing)
    requires DistinctRows(rows) && AllListed(l)
    ensures |l.pods| + |l.readOnlys| == |LiveNames(l)| <= |Looked(rows, l)|
  {
    LookedFacts(rows, l);
    CountDistinct(l.readOnlys + l.pods);
    DistinctRowCount(Looked(rows, l));
    SubsetCount(LiveNames(l), RowNames(Looked(rows, l)));
  }

  /** Row by row, what a trim keeps; no read-only nodes in the spec is the same as none of them. */
  lemma TrimmedRows(rows: seq<Row>, pods: nat, readOnlys: Option<int>, num: nat)
    requires pods < |rows| && pods + num <= |rows| && (readOnlys == Some(num) || (readOnlys == None && num == 0))
    ensures !TrimPanics(rows, pods, readOnlys) && Trimmed(rows, pods, readOnlys) == Trimmed(rows, pods, Some(num))
    ensures var t := Trimmed(rows, pods, readOnlys);
            && |t| == pods + num && t[..pods] == rows[..pods]
            && forall i | pods <= i < |t| :: t[i] == rows[i + |rows| - |t|]
  {
  }

  function Passes(rows: seq<Row>, ls: seq<Listing>): seq<Row> {
    if ls == [] then rows else Pass(Passes(rows, ls[..|ls| - 1]), ls[|ls| - 1])
  }

  /** In every run of such passes the names stay distinct, with one row per live node of the last pass. */
  lemma {:induction false} PassesKeepDistinct(rows: seq<Row>, ls: seq<Listing>)
    requires DistinctRows(rows) && forall n | 0 <= n < |ls| :: AllListed(ls[n])
    ensures DistinctRows(Passes(rows, ls))
    ensures ls != [] ==> |Passes(rows, ls)| == |LiveNames(ls[|ls| - 1])|
  {
    hide DistinctRows, Pass, AllListed;
    if ls != [] {
      PassesKeepDistinct(rows, ls[..|ls| - 1]);
      PassFacts(Passes(rows, ls[..|ls| - 1]), ls[|ls| - 1]);
    }
  }

  // Passes over a cluster that no longer changes.

  function Repeat(rows: seq<Row>, l: Listing, n: nat): seq<Row> {
    if n == 0 then rows else Pass(Repeat(rows, l, n - 1), l)
  }

  /** From place `b` on, every row belongs to a live node. */
  predicate LiveFrom(rows: seq<Row>, l: Listing, b: nat) {
    forall i | b <= i < |rows| :: rows[i].name in LiveNames(l)
  }

  /** The rows before place `b` belong to live nodes. */
  predicate LiveUntil(rows: seq<Row>, l: Listing, b: nat) {
    forall i | 0 <= i < |rows| && i < b :: rows[i].name in LiveNames(l)
  }

  lemma AllLive(rows: seq<Row>, l: Listing)
    requires DistinctRows(rows) && |rows| == |LiveNames(l)|
    ensures RowNames(rows) == LiveNames(l) <==> LiveFrom(rows, l, 0)
  {
    DistinctRowCount(rows);
    if LiveFrom(rows, l, 0) {
      SubsetCount(RowNames(rows), LiveNames(l));
    } else {
      var i :| 0 <= i < |rows| && rows[i].name !in LiveNames(l);
      assert rows[i].name in RowNames(rows);
    }
  }

  /** One more pass moves the last stale row behind the pods towards them, or there is none. */
  lemma PassMovesStale(rows: seq<Row>, l: Listing, b: nat)
    requires DistinctRows(rows) && AllListed(l) && |rows| == |l.pods| + |l.readOnlys|
    requires LiveFrom(rows, l, b) && b >= |l.pods|
    ensures LiveFrom(Pass(rows, l), l, if b > |l.pods| then b - 1 else b)
  {
    hide Pass, Looked, LiveNames, RowNames, DistinctRows, AllListed, TrimPanics;
    PassFacts(rows, l);
    LookedFacts(rows, l);
    if |Looked(rows, l)| == |rows| { NothingMissing(rows, l); }
    var looked, next := Looked(rows, l), Pass(rows, l);
    assert forall i | 0 <= i < |rows| :: looked[i] == rows[i];
    forall i | |l.pods| <= i < |next| && i >= b - 1
      ensures next[i].name in LiveNames(l)
    {
      assert next[i] == looked[i + |looked| - |next|];
    }
  }

  /** If no row had to be added, every row is of a live node. */
  lemma NothingMissing(rows: seq<Row>, l: Listing)
    requires DistinctRows(rows) && |rows| == |LiveNames(l)| == |Looked(rows, l)|
    ensures LiveFrom(rows, l, 0)
  {
    LookedFacts(rows, l);
    DistinctRowCount(rows);
    assert Looked(rows, l) == rows;
    SubsetCount(LiveNames(l), RowNames(rows));
    assert forall i | 0 <= i < |rows| :: rows[i].name in RowNames(rows);
  }

  /** A pass never touches the rows in front: as many as there are pods. */
  lemma FrontStays(rows: seq<Row>, l: Listing)
    requires DistinctRows(rows) && AllListed(l) && |rows| >= |l.pods|
    ensures |Pass(rows, l)| >= |l.pods| && Pass(rows, l)[..|l.pods|] == rows[..|l.pods|]
  {
    PassFacts(rows, l);
    LookedFacts(rows, l);
    assert Looked(rows, l)[..|l.pods|] == rows[..|l.pods|];
  }

  lemma {:induction false} RepeatFacts(rows: seq<Row>, l: Listing, n: nat)
    requires DistinctRows(rows) && AllListed(l) && n > 0
    ensures DistinctRows(Repeat(rows, l, n)) && |Repeat(rows, l, n)| == |l.pods| + |l.readOnlys| == |LiveNames(l)|
    ensures |Looked(rows, l)| >= |l.pods|
    ensures Repeat(rows, l, n)[..|l.pods|] == Looked(rows, l)[..|l.pods|]
    ensures LiveUntil(Looked(rows, l), l, |l.pods|) ==>
              LiveFrom(Repeat(rows, l, n), l, |l.pods| + if n - 1 < |l.readOnlys| then |l.readOnlys| - (n - 1) else 0)
  {
    hide Pass, Looked, LiveNames, RowNames, DistinctRows, AllListed, TrimPanics;
    PassFacts(rows, l);
    if n > 1 {
      RepeatFacts(rows, l, n - 1);
      var before := Repeat(rows, l, n - 1);
      PassFacts(before, l);
      FrontStays(before, l);
      if LiveUntil(Looked(rows, l), l, |l.pods|) {
        forall i | 0 <= i < |l.pods|
          ensures before[i].name in LiveNames(l)
        {
          assert before[i] == before[..|l.pods|][i] == Looked(rows, l)[..|l.pods|][i];
        }
        PassMovesStale(before, l, |l.pods| + if n - 2 < |l.readOnlys| then |l.readOnlys| - (n - 2) else 0);
      }
    }
  }

  /**
   While the cluster stays as it is, the table is ever exactly the live nodes if and only if the rows in
   front, as many as there are pods, are of live nodes once the missing rows have been added. It then is so
   after at most one pass more than there are read-only nodes, and from then on.
   */
  lemma RecoversExactly(rows: seq<Row>, l: Listing)
    requires DistinctRows(rows) && AllListed(l)
    ensures (exists n: nat :: n > 0 && RowNames(Repeat(rows, l, n)) == LiveNames(l)) <==>
            LiveUntil(Looked(rows, l), l, |l.pods|)
    ensures LiveUntil(Looked(rows, l), l, |l.pods|) ==>
              forall n: nat | n > |l.readOnlys| :: RowNames(Repeat(rows, l, n)) == LiveNames(l)
  {
    hide Pass, AllListed, Looked, LiveNames, RowNames, DistinctRows;
    if LiveUntil(Looked(rows, l), l, |l.pods|) {
      forall n: nat | n > |l.readOnlys|
        ensures RowNames(Repeat(rows, l, n)) == LiveNames(l)
      {
        RecoveredAfter(rows, l, n);
      }
      assert RowNames(Repeat(rows, l, |l.readOnlys| + 1)) == LiveNames(l);
    } else {
      forall n: nat | n > 0
        ensures RowNames(Repeat(rows, l, n)) != LiveNames(l)
      {
        NeverRecovers(rows, l, n);
      }
    }
  }

  lemma RecoveredAfter(rows: seq<Row>, l: Listing, n: nat)
    requires DistinctRows(rows) && AllListed(l) && n > |l.readOnlys| && LiveUntil(Looked(rows, l), l, |l.pods|)
    ensures RowNames(Repeat(rows, l, n)) == LiveNames(l)
  {
    RepeatFacts(rows, l, n);
    var r := Repeat(rows, l, n);
    forall i | 0 <= i < |r|
      ensures r[i].name in LiveNames(l)
    {
      assert i < |l.pods| ==> r[i] == r[..|l.pods|][i] == Looked(rows, l)[..|l.pods|][i];
    }
    AllLive(r, l);
  }

  lemma NeverRecovers(rows: seq<Row>, l: Listing, n: nat)
    requires DistinctRows(rows) && AllListed(l) && n > 0 && !LiveUntil(Looked(rows, l), l, |l.pods|)
    ensures RowNames(Repeat(rows, l, n)) != LiveNames(l)
  {
    RepeatFacts(rows, l, n);
    var r, looked := Repeat(rows, l, n), Looked(rows, l);
    var i :| 0 <= i < |looked| && i < |l.pods| && looked[i].name !in LiveNames(l);
    assert r[i] == r[..|l.pods|][i] == looked[..|l.pods|][i];
    AllLive(r, l);
  }

  /** A table that has exactly the live rows is left as it is by every further pass. */
  lemma SteadyTable(rows: seq<Row>, l: Listing)
    requires DistinctRows(rows) && AllListed(l) && RowNames(rows) == LiveNames(l)
    ensures Pass(rows, l) == rows
  {
    PassFacts(rows, l);
    DistinctRowCount(rows);
    assert forall n | n in l.readOnlys || n in l.pods :: n in LiveNames(l);
    NoNewRows(rows, l.readOnlys, true);
    NoNewRows(rows, l.pods, false);
    assert Looked(rows, l) == rows;
    assert Pass(rows, l) == rows[..|l.pods|] + rows[|l.pods|..];
  }

  // Tables that go wrong, reached from the empty one.

  const P0 := FreshRow("p0", false)
  const P1 := FreshRow("p1", false)
  const P2 := FreshRow("p2", false)
  const RO := FreshRow("ro0", true)

  const TWO_PODS := Listing([], ["p0", "p1"], None)
  const WITH_READ_ONLY := Listing(["ro0"], ["p0", "p1"], Some(1))
  const SCALED_OUT := Listing(["ro0"], ["p0", "p1", "p2"], Some(1))

  lemma OneNewRow(rows: seq<Row>, known: seq<string>, name: string, readOnly: bool)
    requires (forall n | n in known :: n in RowNames(rows)) && name !in RowNames(rows)
    ensures WithRows(rows, known + [name], readOnly) == rows + [FreshRow(name, readOnly)]
  {
    assert (known + [name])[..|known|] == known;
    NoNewRows(rows, known, readOnly);
  }

  lemma KnownNames()
    ensures RowNames([]) == {} && RowNames([P0]) == {"p0"} && RowNames([P0, P1]) == {"p0", "p1"}
    ensures RowNames([P0, P1, RO]) == {"p0", "p1", "ro0"}
    ensures RowNames([P0, P1, RO, P2]) == {"p0", "p1", "p2", "ro0"}
  {
    assert [P0, P1] == [P0] + [P1] && [P0, P1, RO] == [P0, P1] + [RO] && [P0, P1, RO, P2] == [P0, P1, RO] + [P2];
    NamesSnoc([], P0);
    NamesSnoc([P0], P1);
    NamesSnoc([P0, P1], RO);
    NamesSnoc([P0, P1, RO], P2);
  }

  lemma NamesSnoc(rows: seq<Row>, row: Row)
    ensures RowNames(rows + [row]) == RowNames(rows) + {row.name}
  {
  }

  lemma FirstPods()
    ensures Pass([], TWO_PODS) == [P0, P1]
  {
    KnownNames();
    hide RowNames;
    OneNewRow([], [], "p0", false);
    var first := WithRows([], ["p0"], false);
    assert [] + ["p0"] == ["p0"] && first == [P0];
    assert ["p0", "p1"][..1] == ["p0"];
    assert WithRows([], ["p0", "p1"], false) == WithRow(first, "p1", false) == [P0, P1];
  }

  lemma ReadOnlyComes()
    ensures Pass([P0, P1], WITH_READ_ONLY) == [P0, P1, RO]
  {
    KnownNames();
    hide RowNames;
    OneNewRow([P0, P1], [], "ro0", true);
    assert [] + ["ro0"] == ["ro0"] && [P0, P1] + [RO] == [P0, P1, RO];
    NoNewRows([P0, P1, RO], ["p0", "p1"], false);
    TrimNothing([P0, P1, RO], 2, 1);
  }

  lemma ScalesOut()
    ensures Pass([P0, P1, RO], SCALED_OUT) == [P0, P1, RO, P2]
  {
    KnownNames();
    hide RowNames;
    NoNewRows([P0, P1, RO], ["ro0"], true);
    OneNewRow([P0, P1, RO], ["p0", "p1"], "p2", false);
    assert ["p0", "p1"] + ["p2"] == ["p0", "p1", "p2"] && [P0, P1, RO] + [P2] == [P0, P1, RO, P2];
    TrimNothing([P0, P1, RO, P2], 3, 1);
  }

  /** Read-only nodes that come later and a scale-out after them put the new pod's row behind theirs. */
  lemma AfterScaleOut()
    ensures Passes([], [TWO_PODS, WITH_READ_ONLY]) == [P0, P1, RO]
    ensures Passes([], [TWO_PODS, WITH_READ_ONLY, SCALED_OUT]) == [P0, P1, RO, P2]
  {
    FirstPods();
    ReadOnlyComes();
    ScalesOut();
    hide Pass;
    var a, b, c := TWO_PODS, WITH_READ_ONLY, SCALED_OUT;
    assert [a][..0] == [] && [a, b][..1] == [a] && [a, b, c][..2] == [a, b];
    assert Passes([], [a]) == Pass([], a);
    assert Passes([], [a, b]) == Pass(Passes([], [a]), b);
  }

  /** The next scale-in then keeps the row of the deleted pod and drops the live read-only one. */
  lemma ScaleInCanDropReadOnlyRow()
    ensures Pass(Passes([], [TWO_PODS, WITH_READ_ONLY, SCALED_OUT]), WITH_READ_ONLY) == [P0, P1, P2]
  {
    hide Passes, RowNames, WithRows;
    AfterScaleOut();
    KnownNames();
    NoNewRows([P0, P1, RO, P2], ["ro0"], true);
    NoNewRows([P0, P1, RO, P2], ["p0", "p1"], false);
  }

  /** With two read-only nodes in the spec and one of them listed, a pod gets a second row. */
  lemma MissingReadOnlyDuplicatesRow()
    ensures Pass(Passes([], [TWO_PODS, WITH_READ_ONLY]), WITH_READ_ONLY.(num := Some(2))) == [P0, P1, P1, RO]
  {
    hide Passes, RowNames, WithRows;
    AfterScaleOut();
    KnownNames();
    NoNewRows([P0, P1, RO], ["ro0"], true);
    NoNewRows([P0, P1, RO], ["p0", "p1"], false);
  }

  /** Without its read-only nodes the scaled-out cluster never gets a row for its last pod again. */
  lemma StaleRowStaysForever(n: nat)
    requires n > 0
    ensures var l := SCALED_OUT.(readOnlys := [], num := None);
            var rows := Repeat(Passes([], [TWO_PODS, WITH_READ_ONLY, SCALED_OUT]), l, n);
            |rows| == 3 && rows[2] == RO && "ro0" !in LiveNames(l) && RowNames(rows) != LiveNames(l)
  {
    hide Passes, RowNames, WithRows, Repeat;
    AfterScaleOut();
    KnownNames();
    var rows, l := [P0, P1, RO, P2], SCALED_OUT.(readOnlys := [], num := None);
    NoNewRows(rows, [], true);
    NoNewRows(rows, ["p0", "p1", "p2"], false);
    assert Looked(rows, l) == rows;
    assert !LiveUntil(rows, l, 3) by { assert rows[2].name !in LiveNames(l); }
    RepeatFacts(rows, l, n);
    NeverRecovers(rows, l, n);
    assert Repeat(rows, l, n)[2] == Repeat(rows, l, n)[..3][2] == rows[..3][2];
  }
}
