/**
 Lists as sets: elements, duplicates, the list difference of the operator's utilities, and sorting with
 a caller's comparison.
 */
module Lists {

  function Elements<T(==)>(s: seq<T>): set<T> {
    set x | x in s
  }

  predicate NoDuplicates<T(==)>(s: seq<T>) {
    forall i, j | 0 <= i < j < |s| :: s[i] != s[j]
  }

  lemma ElementsSnoc<T>(s: seq<T>, x: T)
    ensures Elements(s + [x]) == Elements(s) + {x}
  {
  }

  lemma SubsetCount<T>(a: set<T>, b: set<T>)
    requires a <= b
    ensures |a| <= |b| && (|a| == |b| ==> a == b)
  {
    assert b == a + (b - a);
  }

  lemma {:induction false} CountAtMost<T>(s: seq<T>)
    ensures |Elements(s)| <= |s|
  {
    if s != [] {
      var init, last := s[..|s| - 1], s[|s| - 1];
      assert s == init + [last];
      ElementsSnoc(init, last);
      CountAtMost(init);
    }
  }

  /** A list has as many elements as places exactly when nothing comes twice. */
  lemma {:induction false} CountDistinct<T>(s: seq<T>)
    ensures |Elements(s)| == |s| <==> NoDuplicates(s)
  {
    if s != [] {
      var init, last := s[..|s| - 1], s[|s| - 1];
      assert s == init + [last];
      ElementsSnoc(init, last);
      CountAtMost(init);
      CountDistinct(init);
      if last in init {
        var i :| 0 <= i < |init| && init[i] == last;
        assert s[i] == s[|s| - 1];
        assert Elements(s) == Elements(init);
      } else {
        assert forall i | 0 <= i < |init| :: init[i] in Elements(init);
      }
    }
  }

  // List difference.

  /** The members of `actual` that are not in `desired`, in order. */
  function Diff<T(==)>(actual: seq<T>, desired: seq<T>): seq<T> {
    if actual == [] then []
    else
      var last := actual[|actual| - 1];
      Diff(actual[..|actual| - 1], desired) + if last in desired then [] else [last]
  }

  lemma {:induction false} DiffMeaning<T>(actual: seq<T>, desired: seq<T>)
    ensures Elements(Diff(actual, desired)) == Elements(actual) - Elements(desired)
    ensures NoDuplicates(actual) ==> NoDuplicates(Diff(actual, desired))
  {
    if actual != [] {
      var init, last := actual[..|actual| - 1], actual[|actual| - 1];
      DiffMeaning(init, desired);
      assert actual == init + [last];
      ElementsSnoc(init, last);
      if last !in desired {
        var d := Diff(init, desired);
        assert Diff(actual, desired) == d + [last];
        ElementsSnoc(d, last);
        if NoDuplicates(actual) {
          assert last !in Elements(init);
          assert forall k | 0 <= k < |d| :: d[k] in Elements(d);
        }
      } else {
        assert Elements(init) + {last} - Elements(desired) == Elements(init) - Elements(desired);
      }
    }
  }

  lemma {:induction false} DiffNothing<T>(actual: seq<T>, desired: seq<T>)
    requires Elements(actual) <= Elements(desired)
    ensures Diff(actual, desired) == []
  {
    if actual != [] {
      var init, last := actual[..|actual| - 1], actual[|actual| - 1];
      assert actual == init + [last];
      ElementsSnoc(init, last);
      assert last in Elements(desired);
      DiffNothing(init, desired);
    }
  }

  method StringIn(str: string, strs: seq<string>) returns (idx: nat, found: bool)
    ensures found <==> str in strs
    ensures found ==> idx < |strs| && strs[idx] == str && str !in strs[..idx]
  {
    for i := 0 to |strs|
      invariant str !in strs[..i]
    {
      if strs[i] == str { return i, true; }
    }
    return 0, false;
  }

  method StringDiffIn(actual: seq<string>, desired: seq<string>) returns (diff: seq<string>)
    ensures diff == Diff(actual, desired)
  {
    diff := [];
    for i := 0 to |actual|
      invariant diff == Diff(actual[..i], desired)
    {
      assert actual[..i + 1][..i] == actual[..i];
      var _, exists_ := StringIn(actual[i], desired);
      if !exists_ { diff := diff + [actual[i]]; }
    }
    assert actual[..|actual|] == actual;
  }

  // Sorting: Go's sort.Sort leaves the order of equal elements open.

  /** A comparison sort.Sort may be used with. */
  ghost predicate WeakOrder<T(!new)>(less: (T, T) -> bool) {
    && (forall a, b :: !(less(a, b) && less(b, a)))
    && (forall a, b, c :: !less(b, a) && !less(c, b) ==> !less(c, a))
  }

  /** Nothing comes after something greater. */
  predicate Ordered<T>(less: (T, T) -> bool, s: seq<T>) {
    forall i, j | 0 <= i < j < |s| :: !less(s[j], s[i])
  }

  /** Puts `x` before everything that is not less. */
  function Insert<T>(less: (T, T) -> bool, x: T, s: seq<T>): (r: seq<T>)
    ensures |r| == |s| + 1
  {
    if s == [] || !less(s[0], x) then [x] + s else [s[0]] + Insert(less, x, s[1..])
  }

  lemma OrderedCons<T>(less: (T, T) -> bool, x: T, s: seq<T>)
    requires Ordered(less, s) && forall y | y in s :: !less(y, x)
    ensures Ordered(less, [x] + s)
  {
  }

  lemma {:induction false} InsertOrders<T(!new)>(less: (T, T) -> bool, x: T, s: seq<T>)
    requires WeakOrder(less) && Ordered(less, s)
    ensures Ordered(less, Insert(less, x, s)) && multiset(Insert(less, x, s)) == multiset(s) + multiset{x}
  {
    if s == [] {
      assert Insert(less, x, s) == [x];
    } else {
      var h, t := s[0], s[1..];
      assert s == [h] + t;
      forall y | y in t
        ensures !less(y, h)
      {
        var i :| 0 <= i < |t| && t[i] == y;
        assert s[i + 1] == y;
      }
      if less(h, x) {
        InsertOrders(less, x, t);
        forall y | y in Insert(less, x, t)
          ensures !less(y, h)
        {
          assert y in multiset(Insert(less, x, t));
          assert y in t || y == x;
        }
        OrderedCons(less, h, Insert(less, x, t));
      } else {
        OrderedCons(less, x, s);
      }
    }
  }

  /** sort.Sort, here by insertion. */
  method Sort<T(!new)>(less: (T, T) -> bool, items: seq<T>) returns (sorted: seq<T>)
    requires WeakOrder(less)
    ensures Ordered(less, sorted) && multiset(sorted) == multiset(items)
  {
    sorted := [];
    for i := 0 to |items|
      invariant Ordered(less, sorted) && multiset(sorted) == multiset(items[..i])
    {
      assert items[..i + 1] == items[..i] + [items[i]];
      InsertOrders(less, items[i], sorted);
      sorted := Insert(less, items[i], sorted);
    }
    assert items[..|items|] == items;
  }

  lemma SameElements<T>(a: seq<T>, b: seq<T>)
    requires multiset(a) == multiset(b)
    ensures Elements(a) == Elements(b) && |a| == |b|
  {
    assert |multiset(a)| == |multiset(b)|;
    forall x
      ensures x in a <==> x in b
    {
      assert x in multiset(a) <==> x in multiset(b);
    }
  }

  /** `s` lists the set without repetition, in an order sorting may leave. */
  ghost predicate SortedListing<T>(less: (T, T) -> bool, s: seq<T>, all: set<T>) {
    Ordered(less, s) && NoDuplicates(s) && Elements(s) == all
  }

  /** Sorting a listing of a set gives such a listing. */
  method SortSet<T(!new,==)>(less: (T, T) -> bool, items: seq<T>) returns (sorted: seq<T>)
    requires WeakOrder(less) && NoDuplicates(items)
    ensures SortedListing(less, sorted, Elements(items))
  {
    sorted := Sort(less, items);
    SameElements(sorted, items);
    CountDistinct(sorted);
    CountDistinct(items);
  }

  /** Every set has a sorted listing, and any member may come first among its equals. */
  lemma {:induction false} SortedListingExists<T(!new)>(less: (T, T) -> bool, all: set<T>) returns (s: seq<T>)
    requires WeakOrder(less)
    ensures SortedListing(less, s, all)
    decreases all
  {
    if all == {} {
      s := [];
    } else {
      var x :| x in all;
      var first;
      s, first := SortedListingWithFirst(less, all, x);
    }
  }

  lemma SortedListingWithFirst<T(!new)>(less: (T, T) -> bool, all: set<T>, x: T) returns (s: seq<T>, i: nat)
    requires WeakOrder(less) && x in all
    ensures SortedListing(less, s, all)
    ensures i < |s| && s[i] == x && forall j | 0 <= j < i :: less(s[j], x)
    decreases all, 0
  {
    var rest := SortedListingExists(less, all - {x});
    s := Insert(less, x, rest);
    InsertOrders(less, x, rest);
    assert multiset(rest + [x]) == multiset(s);
    SameElements(s, rest + [x]);
    ElementsSnoc(rest, x);
    CountDistinct(rest);
    CountDistinct(s);
    i := InsertedFirst(less, x, rest);
  }

  /** What is inserted comes first among its equals. */
  lemma {:induction false} InsertedFirst<T>(less: (T, T) -> bool, x: T, s: seq<T>) returns (i: nat)
    ensures i <= |s| && Insert(less, x, s)[i] == x && forall j | 0 <= j < i :: less(Insert(less, x, s)[j], x)
  {
    if s == [] || !less(s[0], x) {
      i := 0;
    } else {
      var k := InsertedFirst(less, x, s[1..]);
      var r, t := Insert(less, x, s), Insert(less, x, s[1..]);
      i := k + 1;
      assert forall j | 0 <= j < i :: r[j] == if j == 0 then s[0] else t[j - 1];
    }
  }

  /** Listing a set: in an order nobody fixes. */
  method List<T(==)>(all: set<T>) returns (s: seq<T>)
    ensures NoDuplicates(s) && Elements(s) == all
  {
    var left := all;
    s := [];
    while left != {}
      invariant left <= all && Elements(s) == all - left && NoDuplicates(s)
    {
      var x :| x in left;
      ElementsSnoc(s, x);
      assert forall k | 0 <= k < |s| :: s[k] in Elements(s);
      left, s := left - {x}, s + [x];
    }
  }
}
