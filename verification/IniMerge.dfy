/**
 Merging configuration maps into the [mysqld] section of an ini file. Keys are looked up modulo
 `-` and `_`; the maps are Go maps, so their keys arrive in an arbitrary order and are sorted first.
 */
module IniMerge {
  import opened GoStrings
  import opened Lists

  datatype Entry = Entry(key: string, value: string)

  function Bars(k: string): (b: string)
    ensures |b| == |k|
  {
    seq(|k|, i requires 0 <= i < |k| => if k[i] == '_' then '-' else k[i])
  }

  function Underscores(k: string): (u: string)
    ensures |u| == |k|
  {
    seq(|k|, i requires 0 <= i < |k| => if k[i] == '-' then '_' else k[i])
  }

  lemma BarsFacts(k: string)
    ensures Bars(Bars(k)) == Bars(k) && Bars(Underscores(k)) == Bars(k) && Underscores(Bars(k)) == Underscores(k)
  {
  }

  /** The key is spelled with one of the two separators only. */
  predicate Unmixed(k: string) {
    '-' !in k || '_' !in k
  }

  lemma UnmixedSpelling(k: string)
    requires Unmixed(k)
    ensures k == Bars(k) || k == Underscores(k)
  {
    if '_' !in k {
      assert forall i | 0 <= i < |k| :: k[i] in k;
      assert k == Bars(k);
    } else {
      assert forall i | 0 <= i < |k| :: k[i] in k;
      assert k == Underscores(k);
    }
  }

  // Sections: an ordered list of entries.

  predicate HasKey(sec: seq<Entry>, k: string) {
    exists e :: e in sec && e.key == k
  }

  function SetValue(sec: seq<Entry>, k: string, v: string): seq<Entry> {
    seq(|sec|, i requires 0 <= i < |sec| => if sec[i].key == k then Entry(k, v) else sec[i])
  }

  /** The section after one key of a patch: replaced under either spelling, or appended. */
  function Put(sec: seq<Entry>, k: string, v: string): seq<Entry> {
    if HasKey(sec, Bars(k)) then SetValue(sec, Bars(k), v)
    else if HasKey(sec, Underscores(k)) then SetValue(sec, Underscores(k), v)
    else if k == "" then sec
    else if HasKey(sec, k) then SetValue(sec, k, v)
    else sec + [Entry(k, v)]
  }

  /** The keys of a patch, put one after another. */
  function PutAll(sec: seq<Entry>, keys: seq<string>, patch: map<string, string>): seq<Entry>
    requires forall k | k in keys :: k in patch
  {
    if keys == [] then sec
    else
      var last := keys[|keys| - 1];
      Put(PutAll(sec, keys[..|keys| - 1], patch), last, patch[last])
  }

  // Well-formed sections and their canonical view.

  predicate OnePerClass(sec: seq<Entry>) {
    forall i, j | 0 <= i < j < |sec| :: Bars(sec[i].key) != Bars(sec[j].key)
  }

  predicate WellFormed(sec: seq<Entry>) {
    OnePerClass(sec) && forall e | e in sec :: Unmixed(e.key)
  }

  /** The settings of a section by canonical key; a later entry wins. */
  function View(sec: seq<Entry>): map<string, string> {
    if sec == [] then map[]
    else View(sec[..|sec| - 1])[Bars(sec[|sec| - 1].key) := sec[|sec| - 1].value]
  }

  function KeyList(sec: seq<Entry>): seq<string> {
    seq(|sec|, i requires 0 <= i < |sec| => sec[i].key)
  }

  lemma {:induction false} ViewMeaning(sec: seq<Entry>, c: string)
    requires OnePerClass(sec)
    ensures c in View(sec) <==> exists i :: 0 <= i < |sec| && Bars(sec[i].key) == c
    ensures forall i | 0 <= i < |sec| && Bars(sec[i].key) == c :: c in View(sec) && View(sec)[c] == sec[i].value
  {
    if sec != [] {
      ViewMeaning(sec[..|sec| - 1], c);
      if c == Bars(sec[|sec| - 1].key) {
        assert forall i | 0 <= i < |sec| - 1 :: Bars(sec[i].key) != c;
      } else if i :| 0 <= i < |sec| && Bars(sec[i].key) == c {
        assert i < |sec| - 1;
      }
    }
  }

  /** In a well-formed section the lookup finds the entry of the key's class, if there is one. */
  lemma Lookup(sec: seq<Entry>, k: string)
    requires WellFormed(sec) && Unmixed(k)
    ensures HasKey(sec, Bars(k)) || HasKey(sec, Underscores(k)) <==> Bars(k) in View(sec)
    ensures Bars(k) !in View(sec) ==> !HasKey(sec, k)
  {
    ViewMeaning(sec, Bars(k));
    BarsFacts(k);
    if i :| 0 <= i < |sec| && Bars(sec[i].key) == Bars(k) {
      UnmixedSpelling(sec[i].key);
      BarsFacts(sec[i].key);
      assert sec[i] in sec;
    }
    if e :| e in sec && (e.key == Bars(k) || e.key == Underscores(k) || e.key == k) {
      var i :| 0 <= i < |sec| && sec[i] == e;
    }
  }

  lemma SetValueKeys(sec: seq<Entry>, k: string, v: string)
    requires WellFormed(sec)
    ensures WellFormed(SetValue(sec, k, v)) && KeyList(SetValue(sec, k, v)) == KeyList(sec)
  {
    hide Bars, Unmixed;
    var s := SetValue(sec, k, v);
    assert forall i | 0 <= i < |sec| :: s[i].key == sec[i].key;
    forall e | e in s
      ensures Unmixed(e.key)
    {
      var i :| 0 <= i < |s| && s[i] == e;
      assert sec[i] in sec;
    }
  }

  lemma SetNothing(sec: seq<Entry>, k: string, v: string)
    requires !HasKey(sec, k)
    ensures SetValue(sec, k, v) == sec
  {
    assert forall i | 0 <= i < |sec| :: sec[i] in sec;
  }

  lemma ViewSnoc(init: seq<Entry>, e: Entry)
    ensures View(init + [e]) == View(init)[Bars(e.key) := e.value]
  {
    assert (init + [e])[..|init|] == init;
  }

  lemma SwapUpdates(m: map<string, string>, a: string, x: string, b: string, y: string)
    requires a != b
    ensures m[a := x][b := y] == m[b := y][a := x]
  {
  }

  /** Replacing a value changes that setting and nothing else. */
  lemma {:induction false} SetValueView(sec: seq<Entry>, k: string, v: string)
    requires OnePerClass(sec) && HasKey(sec, k)
    ensures View(SetValue(sec, k, v)) == View(sec)[Bars(k) := v]
  {
    hide Bars, View;
    var init, last := sec[..|sec| - 1], sec[|sec| - 1];
    assert sec == init + [last];
    ViewSnoc(init, last);
    if last.key == k {
      forall e | e in init
        ensures e.key != k
      {
        var i :| 0 <= i < |init| && init[i] == e;
        assert Bars(sec[i].key) != Bars(last.key);
      }
      SetNothing(init, k, v);
      assert SetValue(sec, k, v) == init + [Entry(k, v)];
      ViewSnoc(init, Entry(k, v));
    } else {
      var e :| e in init && e.key == k;
      var i :| 0 <= i < |init| && init[i] == e;
      assert Bars(sec[i].key) != Bars(last.key);
      SetValueView(init, k, v);
      assert SetValue(sec, k, v) == SetValue(init, k, v) + [last];
      ViewSnoc(SetValue(init, k, v), last);
      SwapUpdates(View(init), Bars(k), v, Bars(last.key), last.value);
    }
  }

  /** One key: the canonical setting is overridden, the class stays single, old keys keep place and spelling. */
  lemma PutView(sec: seq<Entry>, k: string, v: string)
    requires WellFormed(sec) && Unmixed(k) && k != ""
    ensures WellFormed(Put(sec, k, v)) && View(Put(sec, k, v)) == View(sec)[Bars(k) := v]
    ensures KeyList(Put(sec, k, v)) == if Bars(k) in View(sec) then KeyList(sec) else KeyList(sec) + [k]
  {
    Lookup(sec, k);
    BarsFacts(k);
    hide View, KeyList, SetValue, Bars, Underscores, Unmixed, WellFormed, HasKey;
    if HasKey(sec, Bars(k)) {
      SetExisting(sec, Bars(k), v);
    } else if HasKey(sec, Underscores(k)) {
      SetExisting(sec, Underscores(k), v);
    } else {
      AppendNew(sec, k, v);
    }
  }

  lemma SetExisting(sec: seq<Entry>, k: string, v: string)
    requires WellFormed(sec) && HasKey(sec, k)
    ensures WellFormed(SetValue(sec, k, v)) && KeyList(SetValue(sec, k, v)) == KeyList(sec)
    ensures View(SetValue(sec, k, v)) == View(sec)[Bars(k) := v]
  {
    SetValueKeys(sec, k, v);
    SetValueView(sec, k, v);
  }

  lemma AppendNew(sec: seq<Entry>, k: string, v: string)
    requires WellFormed(sec) && Unmixed(k) && Bars(k) !in View(sec)
    ensures WellFormed(sec + [Entry(k, v)]) && KeyList(sec + [Entry(k, v)]) == KeyList(sec) + [k]
    ensures View(sec + [Entry(k, v)]) == View(sec)[Bars(k) := v]
  {
    hide Unmixed;
    ViewMeaning(sec, Bars(k));
    var s := sec + [Entry(k, v)];
    assert s[..|sec|] == sec;
  }

  /** Putting a value that is already set changes nothing. */
  lemma PutAgain(sec: seq<Entry>, k: string, v: string)
    requires WellFormed(sec) && Unmixed(k) && Bars(k) in View(sec) && View(sec)[Bars(k)] == v
    ensures Put(sec, k, v) == sec
  {
    Lookup(sec, k);
    BarsFacts(k);
    ViewMeaning(sec, Bars(k));
  }

  // Whole patches.

  /** No two keys of the patch are spellings of one key. */
  predicate OneKeyPerClass(patch: map<string, string>) {
    forall j, k | j in patch && k in patch && Bars(j) == Bars(k) :: j == k
  }

  predicate WellSpelled(patch: map<string, string>) {
    forall k | k in patch :: k != "" && Unmixed(k)
  }

  /** The patch by canonical key. */
  function Canonical(patch: map<string, string>): map<string, string>
    requires OneKeyPerClass(patch)
  {
    map k | k in patch :: Bars(k) := patch[k]
  }

  /** A view overridden by the keys of a patch, one after another. */
  function Override(view: map<string, string>, keys: seq<string>, patch: map<string, string>): map<string, string>
    requires forall k | k in keys :: k in patch
  {
    if keys == [] then view
    else
      var last := keys[|keys| - 1];
      Override(view, keys[..|keys| - 1], patch)[Bars(last) := patch[last]]
  }

  lemma {:induction false} OverrideMeaning(view: map<string, string>, keys: seq<string>,
                                           patch: map<string, string>, c: string)
    requires OneKeyPerClass(patch) && forall k | k in keys :: k in patch
    ensures (forall k | k in keys :: Bars(k) != c) ==>
              (c in Override(view, keys, patch) <==> c in view) &&
              (c in view ==> Override(view, keys, patch)[c] == view[c])
    ensures forall k | k in keys && Bars(k) == c ::
              c in Override(view, keys, patch) && Override(view, keys, patch)[c] == patch[k]
  {
    if keys != [] {
      var init, last := keys[..|keys| - 1], keys[|keys| - 1];
      assert keys == init + [last];
      OverrideMeaning(view, init, patch, c);
    }
  }

  /** In whatever order the keys come, the view is overridden by the whole patch. */
  lemma OverrideAll(view: map<string, string>, keys: seq<string>, patch: map<string, string>)
    requires OneKeyPerClass(patch) && Elements(keys) == patch.Keys
    requires forall k | k in keys :: k in patch
    ensures Override(view, keys, patch) == view + Canonical(patch)
  {
    hide Bars;
    var o, u := Override(view, keys, patch), view + Canonical(patch);
    assert forall k | k in patch :: k in Elements(keys);
    forall c: string
      ensures c in o <==> c in u
      ensures c in o ==> o[c] == u[c]
    {
      OverrideMeaning(view, keys, patch, c);
    }
  }

  lemma {:induction false} PutAllView(sec: seq<Entry>, keys: seq<string>, patch: map<string, string>)
    requires WellFormed(sec) && OneKeyPerClass(patch) && WellSpelled(patch) && forall k | k in keys :: k in patch
    ensures WellFormed(PutAll(sec, keys, patch))
    ensures KeyList(sec) <= KeyList(PutAll(sec, keys, patch))
    ensures View(PutAll(sec, keys, patch)) == Override(View(sec), keys, patch)
  {
    if keys != [] {
      var init, last := keys[..|keys| - 1], keys[|keys| - 1];
      PutAllView(sec, init, patch);
      PutView(PutAll(sec, init, patch), last, patch[last]);
    }
  }

  lemma {:induction false} PutAllAgain(sec: seq<Entry>, keys: seq<string>, patch: map<string, string>)
    requires WellFormed(sec) && OneKeyPerClass(patch) && WellSpelled(patch) && forall k | k in keys :: k in patch
    requires forall k | k in keys :: Bars(k) in View(sec) && View(sec)[Bars(k)] == patch[k]
    ensures PutAll(sec, keys, patch) == sec
  {
    if keys != [] {
      var init, last := keys[..|keys| - 1], keys[|keys| - 1];
      PutAllAgain(sec, init, patch);
      PutAgain(sec, last, patch[last]);
    }
  }

  // The order of the keys.

  /** The comparison the keys of a map are sorted with. */
  predicate ByBar(j: string, k: string) {
    Less(Bars(j), Bars(k))
  }

  lemma ByBarIsWeakOrder()
    ensures WeakOrder(ByBar)
  {
    hide Bars, Less;
    forall a, b, c
      ensures !(ByBar(a, b) && ByBar(b, a))
      ensures !ByBar(b, a) && !ByBar(c, b) ==> !ByBar(c, a)
    {
      NotBothLess(Bars(a), Bars(b));
      if !ByBar(b, a) && !ByBar(c, b) { NotLessTransitive(Bars(a), Bars(b), Bars(c)); }
    }
  }

  lemma NotLessTransitive(a: string, b: string, c: string)
    requires !Less(b, a) && !Less(c, b)
    ensures !Less(c, a)
  {
    LessTrichotomy(a, b);
    LessTrichotomy(b, c);
    if Less(c, a) {
      if Less(a, b) { LessTransitive(c, a, b); }
    }
  }

  lemma NotBothLess(a: string, b: string)
    ensures !(Less(a, b) && Less(b, a))
  {
    LessIrreflexive(a);
    if Less(a, b) && Less(b, a) { LessTransitive(a, b, a); }
  }

  /** `keys` is an order in which the merge may meet the keys of the patch. */
  ghost predicate MergeOrder(keys: seq<string>, patch: map<string, string>) {
    SortedListing(ByBar, keys, patch.Keys) && forall k | k in keys :: k in patch
  }

  predicate Sorted(keys: seq<string>) {
    forall i, j | 0 <= i < j < |keys| :: ByBar(keys[i], keys[j])
  }

  /** Two sorted arrangements of the same keys are equal. */
  lemma {:induction false} SortedUnique(a: seq<string>, b: seq<string>)
    requires Sorted(a) && Sorted(b) && Elements(a) == Elements(b)
    ensures a == b
  {
    if a != [] { assert a[0] in Elements(a); }
    if b != [] { assert b[0] in Elements(b); }
    if a != [] && b != [] {
      var i :| 0 <= i < |b| && b[i] == a[0];
      var j :| 0 <= j < |a| && a[j] == b[0];
      NotBothLess(Bars(a[0]), Bars(b[0]));
      assert a[0] == b[0];
      SortedTail(a);
      SortedTail(b);
      SortedUnique(a[1..], b[1..]);
    }
  }

  lemma SortedTail(a: seq<string>)
    requires Sorted(a) && a != []
    ensures Sorted(a[1..]) && Elements(a[1..]) == Elements(a) - {a[0]}
  {
    LessIrreflexive(Bars(a[0]));
    assert a == [a[0]] + a[1..];
    assert a[0] !in a[1..];
  }

  /** A patch without two spellings of one key can be met in one order only. */
  lemma MergeOrderUnique(a: seq<string>, b: seq<string>, patch: map<string, string>)
    requires OneKeyPerClass(patch) && MergeOrder(a, patch) && MergeOrder(b, patch)
    ensures a == b
  {
    OrderIsStrict(a, patch);
    OrderIsStrict(b, patch);
    SortedUnique(a, b);
  }

  /** The keys are met in ascending order of their canonical spelling. */
  lemma OrderIsStrict(keys: seq<string>, patch: map<string, string>)
    requires OneKeyPerClass(patch) && MergeOrder(keys, patch)
    ensures Sorted(keys) && forall i, j | 0 <= i < j < |keys| :: Less(Bars(keys[i]), Bars(keys[j]))
  {
    forall i, j | 0 <= i < j < |keys|
      ensures ByBar(keys[i], keys[j])
    {
      assert keys[i] in keys && keys[j] in keys;
      LessTrichotomy(Bars(keys[i]), Bars(keys[j]));
      assert !ByBar(keys[j], keys[i]);
    }
  }

  /** The keys of a patch in the order in which they are merged. */
  ghost function SortedKeys(patch: map<string, string>): (keys: seq<string>)
    requires OneKeyPerClass(patch)
    ensures MergeOrder(keys, patch)
  {
    MergeOrderExists(patch);
    var keys :| MergeOrder(keys, patch);
    keys
  }

  lemma MergeOrderExists(patch: map<string, string>)
    ensures exists keys :: MergeOrder(keys, patch)
  {
    ByBarIsWeakOrder();
    var keys := SortedListingExists(ByBar, patch.Keys);
    OrderOfListing(keys, patch);
  }

  lemma OrderOfListing(keys: seq<string>, patch: map<string, string>)
    requires SortedListing(ByBar, keys, patch.Keys)
    ensures MergeOrder(keys, patch)
  {
    assert forall k | k in keys :: k in Elements(keys);
  }

  // When the order matters.

  /** The first key of a class. */
  function FirstOf(keys: seq<string>, c: string): Option<string> {
    if keys == [] then None
    else
      var first := FirstOf(keys[..|keys| - 1], c);
      if first.None? && Bars(keys[|keys| - 1]) == c then Some(keys[|keys| - 1]) else first
  }

  lemma {:induction false} FirstOfMeaning(keys: seq<string>, c: string)
    ensures FirstOf(keys, c).None? <==> forall k | k in keys :: Bars(k) != c
  {
    if keys != [] {
      var init, last := keys[..|keys| - 1], keys[|keys| - 1];
      assert keys == init + [last];
      FirstOfMeaning(init, c);
    }
  }

  lemma {:induction false} FirstOfAt(keys: seq<string>, c: string, i: nat)
    requires i < |keys| && Bars(keys[i]) == c && forall j | 0 <= j < i :: Bars(keys[j]) != c
    ensures FirstOf(keys, c) == Some(keys[i])
  {
    if i < |keys| - 1 {
      FirstOfAt(keys[..|keys| - 1], c, i);
    } else {
      FirstOfMeaning(keys[..i], c);
    }
  }

  /** Putting a key never moves the first spelling of a class; a new class begins with the spelling put. */
  lemma PutKeepsFirst(sec: seq<Entry>, k: string, v: string, c: string)
    requires c != ""
    ensures FirstOf(KeyList(Put(sec, k, v)), c) ==
            var first := FirstOf(KeyList(sec), c);
            if first.None? && Bars(k) == c then Some(k) else first
  {
    BarsFacts(k);
    FirstOfMeaning(KeyList(sec), c);
    forall x | HasKey(sec, x)
      ensures x in KeyList(sec)
    {
      var e :| e in sec && e.key == x;
      var i :| 0 <= i < |sec| && sec[i] == e;
      assert KeyList(sec)[i] == x;
    }
    if HasKey(sec, Bars(k)) {
      assert KeyList(SetValue(sec, Bars(k), v)) == KeyList(sec);
    } else if HasKey(sec, Underscores(k)) {
      assert KeyList(SetValue(sec, Underscores(k), v)) == KeyList(sec);
    } else if k != "" && HasKey(sec, k) {
      assert KeyList(SetValue(sec, k, v)) == KeyList(sec);
    } else if k != "" {
      var keys := KeyList(sec + [Entry(k, v)]);
      assert keys == KeyList(sec) + [k] && keys[..|sec|] == KeyList(sec);
    }
  }

  /** In a section merged from nothing, every key is spelled as it was first met. */
  lemma {:induction false} FirstSpellingStays(keys: seq<string>, patch: map<string, string>, c: string)
    requires c != "" && forall k | k in keys :: k in patch
    ensures FirstOf(KeyList(PutAll([], keys, patch)), c) == FirstOf(keys, c)
  {
    if keys != [] {
      var init, last := keys[..|keys| - 1], keys[|keys| - 1];
      FirstSpellingStays(init, patch, c);
      PutKeepsFirst(PutAll([], init, patch), last, patch[last], c);
    }
  }

  /** Any spelling may be met first. */
  lemma OrderWithFirst(patch: map<string, string>, k: string) returns (keys: seq<string>)
    requires k in patch
    ensures MergeOrder(keys, patch) && FirstOf(keys, Bars(k)) == Some(k)
  {
    ByBarIsWeakOrder();
    var i;
    keys, i := SortedListingWithFirst(ByBar, patch.Keys, k);
    LessIrreflexive(Bars(k));
    FirstOfAt(keys, Bars(k), i);
    OrderOfListing(keys, patch);
  }

  ghost predicate OrdersAgree(sec: seq<Entry>, patch: map<string, string>) {
    forall a, b | MergeOrder(a, patch) && MergeOrder(b, patch) :: PutAll(sec, a, patch) == PutAll(sec, b, patch)
  }

  /**
   The result is the same in whatever order the map yields its keys, for every section, if and only if no
   two keys of the map are spellings of one key. Otherwise it differs already on the empty section.
   */
  lemma OrderIrrelevantExactly(patch: map<string, string>)
    ensures (forall sec :: OrdersAgree(sec, patch)) <==> OneKeyPerClass(patch)
    ensures OrdersAgree([], patch) <==> OneKeyPerClass(patch)
  {
    if OneKeyPerClass(patch) {
      forall sec, a, b | MergeOrder(a, patch) && MergeOrder(b, patch)
        ensures PutAll(sec, a, patch) == PutAll(sec, b, patch)
      {
        MergeOrderUnique(a, b, patch);
      }
    } else {
      var j, k :| j in patch && k in patch && Bars(j) == Bars(k) && j != k;
      var a := OrderWithFirst(patch, j);
      var b := OrderWithFirst(patch, k);
      FirstSpellingStays(a, patch, Bars(j));
      FirstSpellingStays(b, patch, Bars(j));
      assert PutAll([], a, patch) != PutAll([], b, patch);
      assert !OrdersAgree([], patch);
    }
  }

  // Merging a patch, and a list of patches.

  ghost function MergePatch(sec: seq<Entry>, patch: map<string, string>): seq<Entry>
    requires OneKeyPerClass(patch)
  {
    PutAll(sec, SortedKeys(patch), patch)
  }

  ghost function MergePatches(sec: seq<Entry>, patches: seq<map<string, string>>): seq<Entry>
    requires forall n | 0 <= n < |patches| :: OneKeyPerClass(patches[n])
  {
    if patches == [] then sec
    else MergePatch(MergePatches(sec, patches[..|patches| - 1]), patches[|patches| - 1])
  }

  function OverrideByAll(view: map<string, string>, patches: seq<map<string, string>>): map<string, string>
    requires forall n | 0 <= n < |patches| :: OneKeyPerClass(patches[n])
  {
    if patches == [] then view
    else OverrideByAll(view, patches[..|patches| - 1]) + Canonical(patches[|patches| - 1])
  }

  /**
   Merging is plain map override on the canonical view, keeps one entry per class, and leaves the keys
   that were there in their places and with their spelling.
   */
  lemma {:induction false} MergeIsOverride(sec: seq<Entry>, patches: seq<map<string, string>>)
    requires WellFormed(sec)
    requires forall n | 0 <= n < |patches| :: OneKeyPerClass(patches[n]) && WellSpelled(patches[n])
    ensures WellFormed(MergePatches(sec, patches))
    ensures View(MergePatches(sec, patches)) == OverrideByAll(View(sec), patches)
    ensures KeyList(sec) <= KeyList(MergePatches(sec, patches))
  {
    if patches != [] {
      var init, last := patches[..|patches| - 1], patches[|patches| - 1];
      MergeIsOverride(sec, init);
      var before := MergePatches(sec, init);
      PutAllView(before, SortedKeys(last), last);
      OverrideAll(View(before), SortedKeys(last), last);
    }
  }

  /** Merging the same patch a second time changes nothing, not even the order. */
  lemma MergeTwice(sec: seq<Entry>, patch: map<string, string>)
    requires WellFormed(sec) && OneKeyPerClass(patch) && WellSpelled(patch)
    ensures MergePatch(MergePatch(sec, patch), patch) == MergePatch(sec, patch)
  {
    var keys, once := SortedKeys(patch), MergePatch(sec, patch);
    PutAllView(sec, keys, patch);
    forall k | k in keys
      ensures Bars(k) in View(once) && View(once)[Bars(k)] == patch[k]
    {
      OverrideMeaning(View(sec), keys, patch, Bars(k));
    }
    PutAllAgain(once, keys, patch);
  }

  // The imperative form.

  ghost function PutOrders(sec: seq<Entry>, orders: seq<seq<string>>, patches: seq<map<string, string>>): seq<Entry>
    requires |orders| == |patches|
    requires forall n | 0 <= n < |orders| :: MergeOrder(orders[n], patches[n])
  {
    if patches == [] then sec
    else
      var n := |patches| - 1;
      assert MergeOrder(orders[n], patches[n]);
      PutAll(PutOrders(sec, orders[..n], patches[..n]), orders[n], patches[n])
  }

  lemma PutOrdersSnoc(sec: seq<Entry>, orders: seq<seq<string>>, patches: seq<map<string, string>>,
                      keys: seq<string>, patch: map<string, string>)
    requires |orders| == |patches| && MergeOrder(keys, patch)
    requires forall n | 0 <= n < |orders| :: MergeOrder(orders[n], patches[n])
    ensures forall n | 0 <= n <= |orders| :: MergeOrder((orders + [keys])[n], (patches + [patch])[n])
    ensures PutOrders(sec, orders + [keys], patches + [patch]) == PutAll(PutOrders(sec, orders, patches), keys, patch)
  {
    hide MergeOrder, PutAll;
    assert (orders + [keys])[..|orders|] == orders && (patches + [patch])[..|patches|] == patches;
  }

  lemma {:induction false} PutOrdersIsMerge(sec: seq<Entry>, orders: seq<seq<string>>,
                                            patches: seq<map<string, string>>)
    requires |orders| == |patches| && forall n | 0 <= n < |orders| :: MergeOrder(orders[n], patches[n])
    requires forall n | 0 <= n < |patches| :: OneKeyPerClass(patches[n])
    ensures PutOrders(sec, orders, patches) == MergePatches(sec, patches)
  {
    if patches != [] {
      var n := |patches| - 1;
      assert patches[n] in patches;
      PutOrdersIsMerge(sec, orders[..n], patches[..n]);
      MergeOrderUnique(orders[n], SortedKeys(patches[n]), patches[n]);
    }
  }

  lemma NoPatches(sec: seq<Entry>)
    ensures PutOrders(sec, [], []) == sec
  {
  }

  lemma OrderKeys(keys: seq<string>, patch: map<string, string>)
    requires MergeOrder(keys, patch)
    ensures forall k | k in keys :: k in patch
  {
  }

  class Section {
    var entries: seq<Entry>

    constructor (entries: seq<Entry>)
      ensures this.entries == entries
    {
      this.entries := entries;
    }

    /** sec.Key(k).SetValue(v), for a key that exists. */
    method Assign(k: string, v: string)
      modifies this
      ensures entries == SetValue(old(entries), k, v)
    {
      for i := 0 to |entries|
        invariant |entries| == |old(entries)|
        invariant forall j | 0 <= j < |entries| :: entries[j] ==
                    if j < i && old(entries)[j].key == k then Entry(k, v) else old(entries)[j]
      {
        if entries[i].key == k { entries := entries[i := Entry(k, v)]; }
      }
    }

    /** sec.NewKey(k, v): replaces an existing key, appends a new one, refuses the empty one. */
    method NewKey(k: string, v: string) returns (ok: bool)
      modifies this
      ensures ok == (k != "")
      ensures entries == if k == "" then old(entries)
                         else if HasKey(old(entries), k) then SetValue(old(entries), k, v)
                         else old(entries) + [Entry(k, v)]
    {
      if k == "" { return false; }
      if exists e :: e in entries && e.key == k {
        Assign(k, v);
      } else {
        entries := entries + [Entry(k, v)];
      }
      return true;
    }

    method PutKey(k: string, v: string) returns (ok: bool)
      modifies this
      ensures entries == Put(old(entries), k, v)
      ensures ok <==> k != "" || HasKey(old(entries), "")
    {
      if exists e :: e in entries && e.key == Bars(k) {
        Assign(Bars(k), v);
        return true;
      } else if exists e :: e in entries && e.key == Underscores(k) {
        Assign(Underscores(k), v);
        return true;
      } else {
        ok := NewKey(k, v);
      }
    }

    /**
     Merges the maps one after another, the keys of each in the order sorting leaves them in. When no map
     has two spellings of one key that order is fixed, and with it the result.
     */
    method AddKVConfigsToSection(patches: seq<map<string, string>>) returns (ghost orders: seq<seq<string>>)
      modifies this
      ensures |orders| == |patches| && forall n | 0 <= n < |orders| :: MergeOrder(orders[n], patches[n])
      ensures entries == PutOrders(old(entries), orders, patches)
      ensures (forall n | 0 <= n < |patches| :: OneKeyPerClass(patches[n])) ==>
                entries == MergePatches(old(entries), patches)
    {
      hide MergeOrder, PutOrders, PutAll, OneKeyPerClass, MergePatches;
      orders := [];
      NoPatches(entries);
      for n := 0 to |patches|
        invariant |orders| == n && forall m | 0 <= m < n :: MergeOrder(orders[m], patches[..n][m])
        invariant entries == PutOrders(old(entries), orders, patches[..n])
      {
        assert patches[..n + 1] == patches[..n] + [patches[n]];
        var keys := SortedMapKeys(patches[n]);
        OrderKeys(keys, patches[n]);
        PutOrdersSnoc(old(entries), orders, patches[..n], keys, patches[n]);
        orders := orders + [keys];
        MergeMap(patches[n], keys);
      }
      assert patches[..|patches|] == patches;
      if forall n | 0 <= n < |patches| :: OneKeyPerClass(patches[n]) {
        PutOrdersIsMerge(old(entries), orders, patches);
      }
    }

    method MergeMap(extra: map<string, string>, keys: seq<string>)
      requires forall k | k in keys :: k in extra
      modifies this
      ensures entries == PutAll(old(entries), keys, extra)
    {
      for i := 0 to |keys|
        invariant entries == PutAll(old(entries), keys[..i], extra)
      {
        assert keys[..i + 1][..i] == keys[..i];
        var _ := PutKey(keys[i], extra[keys[i]]);
      }
      assert keys[..|keys|] == keys;
    }
  }

  /** Ranging over a Go map yields its keys in an order nobody fixes; then they are sorted. */
  method SortedMapKeys(patch: map<string, string>) returns (keys: seq<string>)
    ensures MergeOrder(keys, patch)
  {
    var unordered := List(patch.Keys);
    ByBarIsWeakOrder();
    keys := SortSet(ByBar, unordered);
    OrderOfListing(keys, patch);
  }

  /** The config map: parsed files by name. A patch is merged into one file, all or nothing. */
  class ConfigMap {
    var data: map<string, seq<Entry>>

    constructor (data: map<string, seq<Entry>>)
      ensures this.data == data
    {
      this.data := data;
    }

    method CreateOrReplaceIniKey(file: string, patch: map<string, string>) returns (ok: bool)
      modifies this
      ensures patch == map[] || file !in old(data) ==> ok && data == old(data)
      ensures ok <==> patch == map[] || file !in old(data) || "" !in patch || HasKey(old(data)[file], "")
      ensures !ok ==> data == old(data)
      ensures file in old(data) && ok && patch != map[] ==>
                exists keys :: MergeOrder(keys, patch) &&
                               data == old(data)[file := PutAll(old(data)[file], keys, patch)]
      ensures file in old(data) && ok && patch != map[] && OneKeyPerClass(patch) ==>
                data == old(data)[file := MergePatch(old(data)[file], patch)]
    {
      if |patch| == 0 || file !in data { return true; }
      var sec := new Section(data[file]);
      var keys := SortedMapKeys(patch);
      ghost var before := data[file];
      for i := 0 to |keys|
        invariant data == old(data) && sec.entries == PutAll(before, keys[..i], patch)
        invariant HasKey(sec.entries, "") == HasKey(before, "")
        invariant "" in keys[..i] ==> HasKey(before, "")
      {
        assert keys[..i + 1][..i] == keys[..i];
        assert keys[i] in keys;
        PutKeepsEmptyKey(sec.entries, keys[i], patch[keys[i]]);
        ok := sec.PutKey(keys[i], patch[keys[i]]);
        if !ok { return false; }
      }
      assert keys[..|keys|] == keys;
      assert "" in keys <==> "" in Elements(keys);
      if OneKeyPerClass(patch) { MergeOrderUnique(keys, SortedKeys(patch), patch); }
      data := data[file := sec.entries];
      return true;
    }
  }

  lemma PutKeepsEmptyKey(sec: seq<Entry>, k: string, v: string)
    ensures HasKey(Put(sec, k, v), "") == HasKey(sec, "")
  {
    var s := Put(sec, k, v);
    assert forall i | 0 <= i < |sec| :: s[i].key == sec[i].key;
    if e :| e in sec && e.key == "" {
      var i :| 0 <= i < |sec| && sec[i] == e;
      assert s[i] in s;
    }
    if e :| e in s && e.key == "" {
      var i :| 0 <= i < |s| && s[i] == e;
      assert i < |sec| && sec[i] in sec;
    }
  }

  // What goes wrong without the conditions.

  /**
   One key keeps its class single exactly when the section has a key of the class spelled in one of the
   ways that are looked up, or none at all.
   */
  lemma PutKeepsClassSingle(sec: seq<Entry>, k: string, v: string)
    requires OnePerClass(sec) && k != ""
    ensures OnePerClass(Put(sec, k, v)) <==>
            || HasKey(sec, Bars(k)) || HasKey(sec, Underscores(k)) || HasKey(sec, k)
            || (forall e | e in sec :: Bars(e.key) != Bars(k))
  {
    if HasKey(sec, Bars(k)) || HasKey(sec, Underscores(k)) || HasKey(sec, k) {
      var s := Put(sec, k, v);
      assert |s| == |sec| && forall i | 0 <= i < |sec| :: s[i].key == sec[i].key;
    } else {
      var s := sec + [Entry(k, v)];
      assert s[|sec|].key == k;
      if e :| e in sec && Bars(e.key) == Bars(k) {
        var i :| 0 <= i < |sec| && sec[i] == e;
        assert s[i] == e;
      }
    }
  }

  /** The spelling under which one key of a patch is put: one that is looked up, or its own. */
  function PutUnder(sec: seq<Entry>, k: string): string {
    if HasKey(sec, Bars(k)) then Bars(k) else if HasKey(sec, Underscores(k)) then Underscores(k) else k
  }

  /** Whatever the section and the key: the value is set under that spelling, and every other entry stays. */
  lemma PutExactly(sec: seq<Entry>, k: string, v: string)
    requires k != ""
    ensures var s, t := Put(sec, k, v), PutUnder(sec, k);
            && HasKey(s, t) && Bars(t) == Bars(k) && (forall e | e in s && e.key == t :: e.value == v)
            && |s| == |sec| + (if HasKey(sec, t) then 0 else 1)
            && forall i | 0 <= i < |sec| :: s[i].key == sec[i].key && (sec[i].key != t ==> s[i] == sec[i])
  {
    BarsFacts(k);
    var s, t := Put(sec, k, v), PutUnder(sec, k);
    hide Bars, Underscores;
    if HasKey(sec, t) {
      var e :| e in sec && e.key == t;
      var i :| 0 <= i < |sec| && sec[i] == e;
      assert s[i] in s && s[i].key == t;
    } else {
      assert s[|sec|] in s;
    }
  }

  /** A key that mixes the separators is missed by the lookup, and its setting appears twice. */
  lemma MixedKeyIsDuplicated(v: string, w: string)
    ensures Put([Entry("a-b_c", v)], "a-b-c", w) == [Entry("a-b_c", v), Entry("a-b-c", w)]
    ensures Bars("a-b_c") == Bars("a-b-c")
  {
    assert Bars("a-b-c") == "a-b-c" && Underscores("a-b-c") == "a_b_c" && Bars("a-b_c") == "a-b-c";
  }
}
