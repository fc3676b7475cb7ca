/**
 Merging the findings of a second scanner, or knowledge-base entries, into an existing list through an
 index from keys to slots. What the two merges share is stated once, for any key and any way to merge
 two records of the same key.
 */
module IndexedMerge {
  import opened Wrappers

  // The last slot with a key.
  function Slot<T>(key: T -> string, records: seq<T>, k: string): (i: Option<nat>)
    ensures i.Some? ==> i.value < |records| && key(records[i.value]) == k
    ensures i.Some? ==> forall j | i.value < j < |records| :: key(records[j]) != k
    ensures i.None? ==> forall j | 0 <= j < |records| :: key(records[j]) != k
  {
    if records == [] then None
    else if key(records[|records| - 1]) == k then Some(|records| - 1)
    else Slot(key, records[..|records| - 1], k)
  }

  lemma SlotIsLast<T>(key: T -> string, records: seq<T>, k: string, i: nat)
    requires i < |records| && key(records[i]) == k && forall j | i < j < |records| :: key(records[j]) != k
    ensures Slot(key, records, k) == Some(i)
  {
  }

  /** Taking in one more record: it is merged into the slot of its key, or it opens a new slot. */
  function TakeIn<T>(key: T -> string, merge: (T, T) -> T, records: seq<T>, v: T): seq<T> {
    var slot := Slot(key, records, key(v));
    if slot.Some? then records[slot.value := merge(records[slot.value], v)] else records + [v]
  }

  function Merged<T>(key: T -> string, merge: (T, T) -> T, existing: seq<T>, incoming: seq<T>): seq<T> {
    if incoming == [] then existing
    else TakeIn(key, merge, Merged(key, merge, existing, incoming[..|incoming| - 1]), incoming[|incoming| - 1])
  }

  ghost predicate KeepsKey<T(!new)>(key: T -> string, merge: (T, T) -> T) {
    forall b, v | key(b) == key(v) :: key(merge(b, v)) == key(b)
  }

  lemma MergedOneMore<T>(key: T -> string, merge: (T, T) -> T, existing: seq<T>, incoming: seq<T>, i: nat)
    requires i < |incoming|
    ensures Merged(key, merge, existing, incoming[..i + 1]) ==
            TakeIn(key, merge, Merged(key, merge, existing, incoming[..i]), incoming[i])
  {
    assert incoming[..i + 1][..i] == incoming[..i];
  }

  // ----- the loop -----

  ghost predicate IndexFits<T>(key: T -> string, records: seq<T>, index: map<string, nat>) {
    forall k :: if k in index then Slot(key, records, k) == Some(index[k]) else Slot(key, records, k).None?
  }

  lemma SlotAfterAppend<T>(key: T -> string, records: seq<T>, v: T, k: string)
    ensures Slot(key, records + [v], k) == if key(v) == k then Some(|records|) else Slot(key, records, k)
  {
    assert (records + [v])[..|records|] == records;
  }

  lemma SlotAfterUpdate<T>(key: T -> string, records: seq<T>, i: nat, v: T, k: string)
    requires i < |records| && key(v) == key(records[i])
    ensures Slot(key, records[i := v], k) == Slot(key, records, k)
  {
    var slot := Slot(key, records, k);
    if slot.Some? {
      SlotIsLast(key, records[i := v], k, slot.value);
    }
  }

  // The index stays right when a record is taken in.
  lemma IndexAfterTakeIn<T(!new)>(key: T -> string, merge: (T, T) -> T, records: seq<T>, index: map<string, nat>, v: T)
    requires IndexFits(key, records, index) && KeepsKey(key, merge)
    ensures IndexFits(key, TakeIn(key, merge, records, v), if key(v) in index then index else index[key(v) := |records|])
  {
    forall k
      ensures var index' := if key(v) in index then index else index[key(v) := |records|];
              if k in index' then Slot(key, TakeIn(key, merge, records, v), k) == Some(index'[k])
              else Slot(key, TakeIn(key, merge, records, v), k).None?
    {
      if key(v) in index {
        var i := index[key(v)];
        assert key(merge(records[i], v)) == key(records[i]);
        SlotAfterUpdate(key, records, i, merge(records[i], v), k);
      } else {
        SlotAfterAppend(key, records, v, k);
      }
    }
  }

  method Index<T>(key: T -> string, records: seq<T>) returns (index: map<string, nat>)
    ensures IndexFits(key, records, index)
  {
    index := map[];
    for i := 0 to |records|
      invariant IndexFits(key, records[..i], index)
    {
      TakeOneMore(records, i);
      forall k
        ensures Slot(key, records[..i + 1], k) == if key(records[i]) == k then Some(i) else Slot(key, records[..i], k)
      {
        SlotAfterAppend(key, records[..i], records[i], k);
      }
      index := index[key(records[i]) := i];
    }
    assert records[..|records|] == records;
  }

  /** The merge through the index is the merge that looks for the slot every time. */
  method Merge<T(!new)>(key: T -> string, merge: (T, T) -> T, existing: seq<T>, incoming: seq<T>) returns (merged: seq<T>)
    requires KeepsKey(key, merge)
    ensures merged == Merged(key, merge, existing, incoming)
  {
    if |incoming| == 0 { return existing; }
    merged := existing;
    var index: map<string, nat> := Index(key, existing);
    for i := 0 to |incoming|
      invariant merged == Merged(key, merge, existing, incoming[..i]) && IndexFits(key, merged, index)
    {
      var v := incoming[i];
      MergedOneMore(key, merge, existing, incoming, i);
      IndexAfterTakeIn(key, merge, merged, index, v);
      if key(v) in index {
        merged := merged[index[key(v)] := merge(merged[index[key(v)]], v)];
      } else {
        index := index[key(v) := |merged|];
        merged := merged + [v];
      }
    }
    assert incoming[..|incoming|] == incoming;
  }

  // ----- keys -----

  ghost predicate HasKey<T>(key: T -> string, records: seq<T>, k: string) {
    exists i :: 0 <= i < |records| && key(records[i]) == k
  }

  // The keys of the merged list: those of the existing list in their places, then new ones, each once.
  ghost predicate KeysFit<T>(key: T -> string, existing: seq<T>, incoming: seq<T>, merged: seq<T>) {
    && |existing| <= |merged|
    && (forall j | 0 <= j < |existing| :: key(merged[j]) == key(existing[j]))
    && (forall i, j | 0 <= i < j < |merged| && |existing| <= j :: key(merged[i]) != key(merged[j]))
    && (forall j | |existing| <= j < |merged| :: HasKey(key, incoming, key(merged[j])))
    && (forall i | 0 <= i < |incoming| :: Slot(key, merged, key(incoming[i])).Some?)
  }

  lemma ListedAfterTakeIn<T(!new)>(key: T -> string, merge: (T, T) -> T, existing: seq<T>, incoming: seq<T>, records: seq<T>, v: T, j: nat)
    requires KeepsKey(key, merge) && KeysFit(key, existing, incoming, records)
    requires |existing| <= j < |TakeIn(key, merge, records, v)|
    ensures HasKey(key, incoming + [v], key(TakeIn(key, merge, records, v)[j]))
  {
    var after, all := TakeIn(key, merge, records, v), incoming + [v];
    TakeInKeys(key, merge, records, v);
    if j < |records| {
      var i :| 0 <= i < |incoming| && key(incoming[i]) == key(records[j]);
      assert key(all[i]) == key(after[j]);
    } else {
      assert key(all[|incoming|]) == key(after[j]);
    }
  }

  lemma DistinctAfterTakeIn<T(!new)>(key: T -> string, merge: (T, T) -> T, existing: seq<T>, incoming: seq<T>, records: seq<T>, v: T, i: nat, j: nat)
    requires KeepsKey(key, merge) && KeysFit(key, existing, incoming, records)
    requires i < j < |TakeIn(key, merge, records, v)| && |existing| <= j
    ensures key(TakeIn(key, merge, records, v)[i]) != key(TakeIn(key, merge, records, v)[j])
  {
    TakeInKeys(key, merge, records, v);
  }

  lemma FoundAfterTakeIn<T(!new)>(key: T -> string, merge: (T, T) -> T, existing: seq<T>, incoming: seq<T>, records: seq<T>, v: T, i: nat)
    requires KeepsKey(key, merge) && KeysFit(key, existing, incoming, records) && i < |incoming + [v]|
    ensures Slot(key, TakeIn(key, merge, records, v), key((incoming + [v])[i])).Some?
  {
    TakeInKeys(key, merge, records, v);
    if i < |incoming| { assert Slot(key, records, key(incoming[i])).Some?; }
  }

  lemma PlacesAfterTakeIn<T(!new)>(key: T -> string, merge: (T, T) -> T, existing: seq<T>, incoming: seq<T>, records: seq<T>, v: T)
    requires KeepsKey(key, merge) && KeysFit(key, existing, incoming, records)
    ensures |existing| <= |TakeIn(key, merge, records, v)|
    ensures forall j | 0 <= j < |existing| :: key(TakeIn(key, merge, records, v)[j]) == key(existing[j])
  {
    TakeInKeys(key, merge, records, v);
  }

  lemma KeysAfterTakeIn<T(!new)>(key: T -> string, merge: (T, T) -> T, existing: seq<T>, incoming: seq<T>, records: seq<T>, v: T)
    requires KeepsKey(key, merge) && KeysFit(key, existing, incoming, records)
    ensures KeysFit(key, existing, incoming + [v], TakeIn(key, merge, records, v))
  {
    var after, all := TakeIn(key, merge, records, v), incoming + [v];
    PlacesAfterTakeIn(key, merge, existing, incoming, records, v);
    forall i, j | 0 <= i < j < |after| && |existing| <= j
      ensures key(after[i]) != key(after[j])
    {
      DistinctAfterTakeIn(key, merge, existing, incoming, records, v, i, j);
    }
    forall j | |existing| <= j < |after|
      ensures HasKey(key, all, key(after[j]))
    {
      ListedAfterTakeIn(key, merge, existing, incoming, records, v, j);
    }
    forall i | 0 <= i < |all|
      ensures Slot(key, after, key(all[i])).Some?
    {
      FoundAfterTakeIn(key, merge, existing, incoming, records, v, i);
    }
  }

  lemma {:induction false} MergedKeys<T(!new)>(key: T -> string, merge: (T, T) -> T, existing: seq<T>, incoming: seq<T>)
    requires KeepsKey(key, merge)
    ensures KeysFit(key, existing, incoming, Merged(key, merge, existing, incoming))
  {
    if incoming != [] {
      var init, v := incoming[..|incoming| - 1], incoming[|incoming| - 1];
      MergedKeys(key, merge, existing, init);
      KeysAfterTakeIn(key, merge, existing, init, Merged(key, merge, existing, init), v);
      assert incoming == init + [v];
    }
  }

  lemma TakeInKeys<T(!new)>(key: T -> string, merge: (T, T) -> T, records: seq<T>, v: T)
    requires KeepsKey(key, merge)
    ensures var after := TakeIn(key, merge, records, v);
            && |records| <= |after| <= |records| + 1
            && (forall j | 0 <= j < |records| :: key(after[j]) == key(records[j]))
            && (|after| > |records| ==> key(after[|records|]) == key(v) && Slot(key, records, key(v)).None?)
            && Slot(key, after, key(v)).Some?
            && (forall k :: Slot(key, records, k).Some? ==> Slot(key, after, k) == Slot(key, records, k))
  {
    var slot := Slot(key, records, key(v));
    forall k
      ensures Slot(key, TakeIn(key, merge, records, v), k) ==
              if slot.None? && k == key(v) then Some(|records|) else Slot(key, records, k)
    {
      if slot.Some? {
        assert key(merge(records[slot.value], v)) == key(records[slot.value]);
        SlotAfterUpdate(key, records, slot.value, merge(records[slot.value], v), k);
      } else {
        SlotAfterAppend(key, records, v, k);
      }
    }
  }

  /** If no key occurs twice in the existing list, none occurs twice in the merged one. */
  lemma KeysStayUnique<T(!new)>(key: T -> string, merge: (T, T) -> T, existing: seq<T>, incoming: seq<T>)
    requires KeepsKey(key, merge)
    requires forall i, j | 0 <= i < j < |existing| :: key(existing[i]) != key(existing[j])
    ensures var merged := Merged(key, merge, existing, incoming);
            forall i, j | 0 <= i < j < |merged| :: key(merged[i]) != key(merged[j])
  {
    MergedKeys(key, merge, existing, incoming);
  }

  // ----- ratings -----

  // What a record says about something, and how much weight that has.
  datatype Rating = Rating(weight: real, text: string)

  // Merging takes over the rating that weighs more, and keeps its own otherwise.
  ghost predicate TakesMax<T(!new)>(key: T -> string, merge: (T, T) -> T, m: T -> Rating) {
    forall b, v | key(b) == key(v) :: m(merge(b, v)) == if m(v).weight > m(b).weight then m(v) else m(b)
  }

  ghost predicate Bounded<T>(key: T -> string, m: T -> Rating, records: seq<T>, k: string, x: Rating) {
    forall i | 0 <= i < |records| && key(records[i]) == k :: m(records[i]).weight <= x.weight
  }

  ghost predicate Attained<T>(key: T -> string, m: T -> Rating, records: seq<T>, k: string, x: Rating) {
    exists i :: 0 <= i < |records| && key(records[i]) == k && m(records[i]) == x
  }

  lemma OneMoreRecord<T>(key: T -> string, m: T -> Rating, records: seq<T>, v: T, k: string, x: Rating)
    ensures Bounded(key, m, records + [v], k, x) <==> Bounded(key, m, records, k, x) && (key(v) == k ==> m(v).weight <= x.weight)
    ensures Attained(key, m, records + [v], k, x) <==> Attained(key, m, records, k, x) || (key(v) == k && m(v) == x)
  {
    var all := records + [v];
    assert all[|records|] == v && forall i | 0 <= i < |records| :: all[i] == records[i];
  }

  // A slot's rating came in with a record of its key, and none of those records weighs more.
  ghost predicate IsLargest<T>(key: T -> string, m: T -> Rating, existing: seq<T>, incoming: seq<T>, merged: seq<T>, j: nat)
    requires j < |merged|
  {
    var k, x := key(merged[j]), m(merged[j]);
    && (j < |existing| ==> m(existing[j]).weight <= x.weight)
    && (Slot(key, merged, k) == Some(j) ==> Bounded(key, m, incoming, k, x))
    && ((j < |existing| && x == m(existing[j])) || Attained(key, m, incoming, k, x))
  }

  lemma LargestAfterTakeIn<T(!new)>(key: T -> string, merge: (T, T) -> T, m: T -> Rating,
                                    existing: seq<T>, incoming: seq<T>, records: seq<T>, v: T, j: nat)
    requires KeepsKey(key, merge) && TakesMax(key, merge, m) && |existing| <= |records|
    requires forall i | 0 <= i < |incoming| :: Slot(key, records, key(incoming[i])).Some?
    requires j < |TakeIn(key, merge, records, v)|
    requires j < |records| ==> IsLargest(key, m, existing, incoming, records, j)
    ensures IsLargest(key, m, existing, incoming + [v], TakeIn(key, merge, records, v), j)
  {
    var after := TakeIn(key, merge, records, v);
    var k, x := key(after[j]), m(after[j]);
    TakeInKeys(key, merge, records, v);
    OneMoreRecord(key, m, incoming, v, k, x);
    if j == |records| {
      assert Bounded(key, m, incoming, k, x) by {
        forall i | 0 <= i < |incoming|
          ensures key(incoming[i]) != k
        {
          assert Slot(key, records, key(incoming[i])).Some?;
        }
      }
    } else if Slot(key, records, key(v)) == Some(j) {
      assert x == if m(v).weight > m(records[j]).weight then m(v) else m(records[j]);
    } else {
      assert after[j] == records[j] && Slot(key, records, k).Some?;
    }
  }

  lemma AllFound<T(!new)>(key: T -> string, merge: (T, T) -> T, existing: seq<T>, incoming: seq<T>)
    requires KeepsKey(key, merge)
    ensures |existing| <= |Merged(key, merge, existing, incoming)|
    ensures forall i | 0 <= i < |incoming| :: Slot(key, Merged(key, merge, existing, incoming), key(incoming[i])).Some?
  {
    MergedKeys(key, merge, existing, incoming);
  }

  lemma {:induction false} LargestSurvives<T(!new)>(key: T -> string, merge: (T, T) -> T, m: T -> Rating,
                                                    existing: seq<T>, incoming: seq<T>, j: nat)
    requires KeepsKey(key, merge) && TakesMax(key, merge, m) && j < |Merged(key, merge, existing, incoming)|
    ensures IsLargest(key, m, existing, incoming, Merged(key, merge, existing, incoming), j)
  {
    if incoming == [] {
      assert Merged(key, merge, existing, incoming) == existing;
    } else {
      var init, v := incoming[..|incoming| - 1], incoming[|incoming| - 1];
      var before := Merged(key, merge, existing, init);
      assert incoming == init + [v];
      AllFound(key, merge, existing, init);
      if j < |before| { LargestSurvives(key, merge, m, existing, init, j); }
      LargestAfterTakeIn(key, merge, m, existing, init, before, v, j);
    }
  }

  // ----- merging again -----

  /**
   `absorbs(b, v)`: nothing is left in v that b would take over. `same` is equality up to the spelling of
   what merging puts together anew.
   */
  ghost predicate Absorption<T(!new)>(key: T -> string, merge: (T, T) -> T, absorbs: (T, T) -> bool, same: (T, T) -> bool) {
    && (forall b, v | key(b) == key(v) :: absorbs(merge(b, v), v))
    && (forall b, v, w | key(b) == key(w) && absorbs(b, v) :: absorbs(merge(b, w), v))
    && (forall b, v | key(b) == key(v) && absorbs(b, v) :: same(merge(b, v), b))
    && (forall v :: absorbs(v, v))
    && (forall b, c, v | same(c, b) && absorbs(b, v) :: absorbs(c, v))
    && (forall b :: same(b, b))
    && (forall b, c, d | same(b, c) && same(c, d) :: same(b, d))
  }

  ghost predicate Absorbed<T>(key: T -> string, absorbs: (T, T) -> bool, records: seq<T>, v: T) {
    var slot := Slot(key, records, key(v));
    slot.Some? && absorbs(records[slot.value], v)
  }

  lemma AbsorbedAfterTakeIn<T(!new)>(key: T -> string, merge: (T, T) -> T, absorbs: (T, T) -> bool, same: (T, T) -> bool,
                                     records: seq<T>, v: T, w: T)
    requires KeepsKey(key, merge) && Absorption(key, merge, absorbs, same)
    requires w == v || Absorbed(key, absorbs, records, w)
    ensures Absorbed(key, absorbs, TakeIn(key, merge, records, v), w)
  {
    TakeInKeys(key, merge, records, v);
    var after, slot := TakeIn(key, merge, records, v), Slot(key, records, key(v));
    if slot.None? {
      SlotAfterAppend(key, records, v, key(w));
    } else {
      SlotAfterUpdate(key, records, slot.value, merge(records[slot.value], v), key(w));
    }
  }

  lemma {:induction false} AllAbsorbed<T(!new)>(key: T -> string, merge: (T, T) -> T, absorbs: (T, T) -> bool, same: (T, T) -> bool,
                                                existing: seq<T>, incoming: seq<T>, i: nat)
    requires KeepsKey(key, merge) && Absorption(key, merge, absorbs, same) && i < |incoming|
    ensures Absorbed(key, absorbs, Merged(key, merge, existing, incoming), incoming[i])
  {
    var init, v := incoming[..|incoming| - 1], incoming[|incoming| - 1];
    if i < |init| { AllAbsorbed(key, merge, absorbs, same, existing, init, i); }
    AbsorbedAfterTakeIn(key, merge, absorbs, same, Merged(key, merge, existing, init), v, incoming[i]);
  }

  ghost predicate AllSame<T>(key: T -> string, same: (T, T) -> bool, a: seq<T>, b: seq<T>) {
    |a| == |b| && forall j | 0 <= j < |a| :: same(a[j], b[j]) && key(a[j]) == key(b[j])
  }

  lemma SameSlots<T>(key: T -> string, same: (T, T) -> bool, a: seq<T>, b: seq<T>, k: string)
    requires AllSame(key, same, a, b)
    ensures Slot(key, a, k) == Slot(key, b, k)
  {
    var slot := Slot(key, b, k);
    if slot.Some? { SlotIsLast(key, a, k, slot.value); }
  }

  lemma {:induction false} AbsorbedChangesNothing<T(!new)>(
    key: T -> string, merge: (T, T) -> T, absorbs: (T, T) -> bool, same: (T, T) -> bool, records: seq<T>, incoming: seq<T>)
    requires KeepsKey(key, merge) && Absorption(key, merge, absorbs, same)
    requires forall i | 0 <= i < |incoming| :: Absorbed(key, absorbs, records, incoming[i])
    ensures AllSame(key, same, Merged(key, merge, records, incoming), records)
  {
    if incoming != [] {
      var init, v := incoming[..|incoming| - 1], incoming[|incoming| - 1];
      var before := Merged(key, merge, records, init);
      forall i | 0 <= i < |init|
        ensures Absorbed(key, absorbs, records, init[i])
      {
        assert init[i] == incoming[i];
      }
      AbsorbedChangesNothing(key, merge, absorbs, same, records, init);
      SameSlots(key, same, before, records, key(v));
      assert Absorbed(key, absorbs, records, incoming[|incoming| - 1]);
      var i := Slot(key, records, key(v)).value;
      assert same(before[i], records[i]) && absorbs(before[i], v);
      assert same(merge(before[i], v), before[i]) && key(merge(before[i], v)) == key(before[i]);
    }
  }

  /** Merging the same input a second time changes nothing. */
  lemma MergingAgain<T(!new)>(key: T -> string, merge: (T, T) -> T, absorbs: (T, T) -> bool, same: (T, T) -> bool,
                              existing: seq<T>, incoming: seq<T>)
    requires KeepsKey(key, merge) && Absorption(key, merge, absorbs, same)
    ensures var once := Merged(key, merge, existing, incoming);
            AllSame(key, same, Merged(key, merge, once, incoming), once)
  {
    var once := Merged(key, merge, existing, incoming);
    forall i | 0 <= i < |incoming|
      ensures Absorbed(key, absorbs, once, incoming[i])
    {
      AllAbsorbed(key, merge, absorbs, same, existing, incoming, i);
    }
    AbsorbedChangesNothing(key, merge, absorbs, same, once, incoming);
  }
}

/** Trimmed text, and lists of references gathered from two sides without repeating one. */
module References {

  // White space as Unicode defines it.
  predicate IsSpace(c: char) {
    var n := c as int;
    9 <= n <= 13 || n == 0x20 || n == 0x85 || n == 0xA0 || n == 0x1680 || 0x2000 <= n <= 0x200A
    || n == 0x2028 || n == 0x2029 || n == 0x202F || n == 0x205F || n == 0x3000
  }

  function TrimLeft(s: string): (t: string)
    ensures t == "" || !IsSpace(t[0])
    ensures s == "" || !IsSpace(s[0]) ==> t == s
  {
    if s != "" && IsSpace(s[0]) then TrimLeft(s[1..]) else s
  }

  function TrimRight(s: string): (t: string)
    ensures t <= s && (t == "" || !IsSpace(t[|t| - 1]))
    ensures s == "" || !IsSpace(s[|s| - 1]) ==> t == s
  {
    if s != "" && IsSpace(s[|s| - 1]) then TrimRight(s[..|s| - 1]) else s
  }

  /** The text without white space around it; trimming again changes nothing. */
  function Trim(s: string): (t: string)
    ensures TrimRight(TrimLeft(t)) == t
  {
    TrimRight(TrimLeft(s))
  }

  lemma {:induction false} TrimLeftMeans(s: string) returns (i: nat)
    ensures i <= |s| && TrimLeft(s) == s[i..] && forall k | 0 <= k < i :: IsSpace(s[k])
  {
    i := 0;
    if s != "" && IsSpace(s[0]) {
      var j := TrimLeftMeans(s[1..]);
      i := j + 1;
      assert s[1..][j..] == s[i..];
      assert forall k | 0 < k < i :: s[k] == s[1..][k - 1];
    }
  }

  lemma {:induction false} TrimRightMeans(s: string) returns (j: nat)
    ensures j <= |s| && TrimRight(s) == s[..j] && forall k | j <= k < |s| :: IsSpace(s[k])
  {
    j := |s|;
    if s != "" && IsSpace(s[|s| - 1]) {
      j := TrimRightMeans(s[..|s| - 1]);
      assert s[..|s| - 1][..j] == s[..j];
      assert forall k | j <= k < |s| - 1 :: s[k] == s[..|s| - 1][k];
    } else {
      assert s[..j] == s;
    }
  }

  /** Trimming takes white space away at both ends until there is none, and nothing else. */
  lemma TrimMeans(s: string) returns (i: nat, j: nat)
    ensures i <= j <= |s| && Trim(s) == s[i..j]
    ensures forall k | 0 <= k < |s| && (k < i || j <= k) :: IsSpace(s[k])
    ensures i < j ==> !IsSpace(s[i]) && !IsSpace(s[j - 1])
  {
    i := TrimLeftMeans(s);
    var left := TrimLeft(s);
    var n := TrimRightMeans(left);
    j := i + n;
    assert s[i..][..n] == s[i..j];
    assert forall k | i <= k < |s| :: s[k] == left[k - i];
    if i < j {
      assert s[i] == left[0];
      assert s[j - 1] == TrimRight(left)[n - 1];
    }
  }

  lemma SpacesAre(c: char)
    ensures IsSpace(c) <==> c in {'\t', '\n', '\U{0B}', '\U{0C}', '\r', ' ', '\U{85}', '\U{A0}', '\U{1680}', '\U{2000}', '\U{2001}',
                                 '\U{2002}', '\U{2003}', '\U{2004}', '\U{2005}', '\U{2006}', '\U{2007}', '\U{2008}', '\U{2009}',
                                 '\U{200A}', '\U{2028}', '\U{2029}', '\U{202F}', '\U{205F}', '\U{3000}'}
  {
  }

  // The length of the text in bytes.
  function Size(s: string): nat {
    if s == "" then 0
    else
      var n := s[0] as int;
      (if n < 0x80 then 1 else if n < 0x800 then 2 else if n < 0x10000 then 3 else 4) + Size(s[1..])
  }

  lemma {:induction false} SizesAdd(s: string, t: string)
    ensures Size(s + t) == Size(s) + Size(t)
  {
    if s == "" {
      assert s + t == t;
    } else {
      assert (s + t)[0] == s[0] && (s + t)[1..] == s[1..] + t;
      SizesAdd(s[1..], t);
    }
  }

  lemma SizeOfOne(c: char)
    ensures Size([c]) == 1 <==> c <= '\U{7F}'
    ensures Size([c]) == 2 <==> '\U{80}' <= c <= '\U{7FF}'
    ensures Size([c]) == 3 <==> '\U{800}' <= c <= '\U{FFFF}'
    ensures Size([c]) == 4 <==> '\U{10000}' <= c
  {
    assert Size([c]) == (if c as int < 0x80 then 1 else if c as int < 0x800 then 2 else if c as int < 0x10000 then 3 else 4) + Size([c][1..]);
  }

  /** A text of plain letters is as long as it looks; other characters take two to four bytes. */
  lemma {:induction false} SizeBounds(s: string)
    ensures |s| <= Size(s) <= 4 * |s|
    ensures Size(s) == |s| <==> forall i | 0 <= i < |s| :: s[i] < '\U{80}'
  {
    if s != "" {
      SizeBounds(s[1..]);
      assert forall i | 0 < i < |s| :: s[i] == s[1..][i - 1];
    }
  }

  /** Two texts put together with a bar are equal exactly if their parts are, or if one bar stands in a part of the other. */
  lemma BarredTexts(a: string, b: string, c: string, d: string)
    ensures a + "|" + b == c + "|" + d <==>
            || (a == c && b == d)
            || (exists m: string :: a == c + "|" + m && d == m + "|" + b)
            || (exists m: string :: c == a + "|" + m && b == m + "|" + d)
  {
    if a + "|" + b == c + "|" + d {
      if |a| == |c| {
        assert a == (a + "|" + b)[..|a|] && c == (c + "|" + d)[..|c|];
        assert b == (a + "|" + b)[|a| + 1..] && d == (c + "|" + d)[|c| + 1..];
      } else if |a| > |c| {
        var m := LongerPart(a, b, c, d);
      } else {
        var m := LongerPart(c, d, a, b);
      }
    }
    if m: string :| a == c + "|" + m && d == m + "|" + b { assert a + "|" + b == c + "|" + (m + "|" + b); }
    if m: string :| c == a + "|" + m && b == m + "|" + d { assert c + "|" + d == a + "|" + (m + "|" + d); }
  }

  lemma LongerPart(a: string, b: string, c: string, d: string) returns (m: string)
    requires a + "|" + b == c + "|" + d && |a| > |c|
    ensures a == c + "|" + m && d == m + "|" + b
  {
    var x, y := a + "|" + b, c + "|" + d;
    m := a[|c| + 1..];
    assert x[..|a|] == a && y[..|c|] == c && y[|c|] == '|' && y[|c| + 1..] == d;
    assert a == a[..|c|] + [a[|c|]] + m && a[..|c|] == y[..|c|] && a[|c|] == y[|c|];
    assert x[|c| + 1..] == m + "|" + b;
  }

  lemma UnbarredTexts(a: string, b: string, c: string, d: string)
    requires '|' !in a && '|' !in c
    ensures a + "|" + b == c + "|" + d <==> a == c && b == d
  {
    BarredTexts(a, b, c, d);
    forall m: string
      ensures '|' in c + "|" + m && '|' in a + "|" + m
    {
      assert (c + "|" + m)[|c|] == '|' && (a + "|" + m)[|a|] == '|';
    }
  }

  // ----- references -----

  // How references are cleaned, which of them count, and by what name they are told apart.
  datatype Kind<!R> = Kind(clean: R -> R, counts: R -> bool, name: R -> string)

  ghost predicate CleansOnce<R(!new)>(kind: Kind<R>) { forall r: R :: kind.clean(kind.clean(r)) == kind.clean(r) }

  // The names of the references that count.
  function Names<R>(kind: Kind<R>, refs: seq<R>): set<string> {
    set i | 0 <= i < |refs| && kind.counts(kind.clean(refs[i])) :: kind.name(kind.clean(refs[i]))
  }

  // One after the other, cleaned, each name once, in the order of first appearance.
  function Gathered<R>(kind: Kind<R>, refs: seq<R>): seq<R> {
    if refs == [] then []
    else
      var before, r := Gathered(kind, refs[..|refs| - 1]), kind.clean(refs[|refs| - 1]);
      if !kind.counts(r) || kind.name(r) in Names(kind, refs[..|refs| - 1]) then before else before + [r]
  }

  // If one side is empty the other is taken over as it is.
  function Combined<R>(kind: Kind<R>, existing: seq<R>, incoming: seq<R>): seq<R> {
    if existing == [] then incoming
    else if incoming == [] then existing
    else Gathered(kind, existing + incoming)
  }

  lemma NamesOneMore<R>(kind: Kind<R>, refs: seq<R>, r: R)
    ensures Names(kind, refs + [r]) == Names(kind, refs) + if kind.counts(kind.clean(r)) then {kind.name(kind.clean(r))} else {}
  {
    var all := refs + [r];
    assert all[|refs|] == r && forall i | 0 <= i < |refs| :: all[i] == refs[i];
  }

  lemma {:induction false} NamesTogether<R>(kind: Kind<R>, a: seq<R>, b: seq<R>)
    ensures Names(kind, a + b) == Names(kind, a) + Names(kind, b)
  {
    if b == [] {
      assert a + b == a;
    } else {
      var init, r := b[..|b| - 1], b[|b| - 1];
      NamesTogether(kind, a, init);
      NamesOneMore(kind, a + init, r);
      NamesOneMore(kind, init, r);
      assert a + b == (a + init) + [r] && b == init + [r];
    }
  }

  lemma {:induction false} GatheredNames<R(!new)>(kind: Kind<R>, refs: seq<R>)
    requires CleansOnce(kind)
    ensures Names(kind, Gathered(kind, refs)) == Names(kind, refs)
  {
    if refs != [] {
      var init, r := refs[..|refs| - 1], refs[|refs| - 1];
      GatheredNames(kind, init);
      NamesOneMore(kind, init, r);
      NamesOneMore(kind, Gathered(kind, init), kind.clean(r));
      assert refs == init + [r];
    }
  }

  /** Combining loses no reference and invents none. */
  lemma CombinedNames<R(!new)>(kind: Kind<R>, existing: seq<R>, incoming: seq<R>)
    requires CleansOnce(kind)
    ensures Names(kind, Combined(kind, existing, incoming)) == Names(kind, existing) + Names(kind, incoming)
  {
    NamesTogether(kind, existing, incoming);
    GatheredNames(kind, existing + incoming);
    assert Names(kind, []) == {};
  }

  method Append<R>(kind: Kind<R>, merged: seq<R>, seen: set<string>, refs: seq<R>, ghost before: seq<R>)
    returns (merged': seq<R>, seen': set<string>)
    requires merged == Gathered(kind, before) && seen == Names(kind, before)
    ensures merged' == Gathered(kind, before + refs) && seen' == Names(kind, before + refs)
  {
    merged', seen' := merged, seen;
    assert before + refs[..0] == before;
    for i := 0 to |refs|
      invariant merged' == Gathered(kind, before + refs[..i]) && seen' == Names(kind, before + refs[..i])
    {
      ghost var sofar := before + refs[..i];
      assert before + refs[..i + 1] == sofar + [refs[i]] && (sofar + [refs[i]])[..|sofar|] == sofar;
      NamesOneMore(kind, sofar, refs[i]);
      var r := kind.clean(refs[i]);
      if kind.counts(r) && kind.name(r) !in seen' {
        seen' := seen' + {kind.name(r)};
        merged' := merged' + [r];
      }
    }
    assert refs[..|refs|] == refs;
  }

  /** mergeReferenceURLs and mergeKBRefs. */
  method Combine<R>(kind: Kind<R>, existing: seq<R>, incoming: seq<R>) returns (merged: seq<R>)
    ensures merged == Combined(kind, existing, incoming)
  {
    if |existing| == 0 { return incoming; }
    if |incoming| == 0 { return existing; }
    var seen: set<string>;
    merged, seen := Append(kind, [], {}, existing, []);
    assert [] + existing == existing;
    merged, seen := Append(kind, merged, seen, incoming, existing);
  }
}

/** The two kinds of records that are merged. */
module FindingMerge {
  import opened Wrappers
  import opened References
  import opened Severity
  import opened IndexedMerge
  import opened RepeatedMerge

  datatype Vulnerability = Vulnerability(vulnId: string, pkgName: string, installedVersion: string, fixedVersion: string,
                                         title: string, description: string, dataSource: string, severity: string,
                                         score: real, vector: string, references: seq<string>)

  const Urls := Kind((url: string) => Trim(url), (url: string) => url != "", (url: string) => url)

  function VulnerabilityKey(v: Vulnerability): string { Trim(v.vulnId) + "|" + Trim(v.pkgName) }

  function Filled(base: string, incoming: string): string { if incoming != "" && base == "" then incoming else base }

  function Longer(base: string, incoming: string): string {
    if Size(Trim(incoming)) > Size(Trim(base)) then incoming else base
  }

  function MoreSevere(base: string, incoming: string): string {
    if SeverityRank(incoming) > SeverityRank(base) then incoming else base
  }

  /** mergeVulnerabilityRecord. */
  function MergeVulnerability(base: Vulnerability, incoming: Vulnerability): Vulnerability {
    var scored := incoming.score > base.score;
    base.(installedVersion := Filled(base.installedVersion, incoming.installedVersion),
          fixedVersion := Filled(base.fixedVersion, incoming.fixedVersion),
          title := Filled(base.title, incoming.title),
          description := Longer(base.description, incoming.description),
          dataSource := Filled(base.dataSource, incoming.dataSource),
          severity := MoreSevere(base.severity, incoming.severity),
          score := if scored then incoming.score else base.score,
          vector := if scored then incoming.vector else base.vector,
          references := Combined(Urls, base.references, incoming.references))
  }

  // The incoming record has nothing left that the base would take over.
  predicate AbsorbsVulnerability(b: Vulnerability, v: Vulnerability) {
    && (v.installedVersion != "" ==> b.installedVersion != "") && (v.fixedVersion != "" ==> b.fixedVersion != "")
    && (v.title != "" ==> b.title != "") && (v.dataSource != "" ==> b.dataSource != "")
    && Size(Trim(v.description)) <= Size(Trim(b.description)) && SeverityRank(v.severity) <= SeverityRank(b.severity)
    && v.score <= b.score && Names(Urls, v.references) <= Names(Urls, b.references)
  }

  // The same record, if references are compared as trimmed, non-empty names without order.
  predicate SameVulnerability(b: Vulnerability, c: Vulnerability) {
    b.(references := c.references) == c && Names(Urls, b.references) == Names(Urls, c.references)
  }

  datatype Reference = Reference(url: string, source: string)

  datatype Entry = Entry(vulnId: string, description: string, severity: string, score: real, vector: string,
                         published: Option<int>, modified: Option<int>, references: seq<Reference>, exploit: bool)

  const Links := Kind((r: Reference) => Reference(Trim(r.url), Trim(r.source)), (r: Reference) => r.url != "",
                      (r: Reference) => r.url + "|" + r.source)

  function EntryKey(e: Entry): string { e.vulnId }

  /** mergeKBEntry. */
  function MergeEntry(base: Entry, incoming: Entry): Entry {
    var scored := incoming.score > base.score;
    base.(description := Longer(base.description, incoming.description),
          severity := MoreSevere(base.severity, incoming.severity),
          score := if scored then incoming.score else base.score,
          vector := if scored then incoming.vector else base.vector,
          published := if base.published.None? then incoming.published else base.published,
          modified := if base.modified.None? then incoming.modified else base.modified,
          references := Combined(Links, base.references, incoming.references),
          exploit := base.exploit || incoming.exploit)
  }

  predicate AbsorbsEntry(b: Entry, e: Entry) {
    && Size(Trim(e.description)) <= Size(Trim(b.description)) && SeverityRank(e.severity) <= SeverityRank(b.severity)
    && e.score <= b.score && (e.published.Some? ==> b.published.Some?) && (e.modified.Some? ==> b.modified.Some?)
    && Names(Links, e.references) <= Names(Links, b.references) && (e.exploit ==> b.exploit)
  }

  predicate SameEntry(b: Entry, c: Entry) {
    b.(references := c.references) == c && Names(Links, b.references) == Names(Links, c.references)
  }

  // ----- the merges -----

  method MergeLocalScannerFindings(existing: seq<Vulnerability>, incoming: seq<Vulnerability>) returns (merged: seq<Vulnerability>)
    ensures merged == Merged(VulnerabilityKey, MergeVulnerability, existing, incoming)
  {
    merged := Merge(VulnerabilityKey, MergeVulnerability, existing, incoming);
  }

  method MergeKBEntries(existing: seq<Entry>, incoming: seq<Entry>) returns (merged: seq<Entry>)
    ensures merged == Merged(EntryKey, MergeEntry, existing, incoming)
  {
    merged := Merge(EntryKey, MergeEntry, existing, incoming);
  }

  const SeverityOf := (v: Vulnerability) => Rating(SeverityRank(v.severity) as real, v.severity)
  const ScoreOf := (v: Vulnerability) => Rating(v.score, v.vector)
  const EntrySeverityOf := (e: Entry) => Rating(SeverityRank(e.severity) as real, e.severity)
  const EntryScoreOf := (e: Entry) => Rating(e.score, e.vector)
  const DescriptionOf := (v: Vulnerability) => Rating(Size(Trim(v.description)) as real, v.description)
  const EntryDescriptionOf := (e: Entry) => Rating(Size(Trim(e.description)) as real, e.description)

  // A text that is given outweighs one that is missing.
  function Given(text: string): Rating { Rating(if text == "" then 0.0 else 1.0, text) }

  const InstalledOf := (v: Vulnerability) => Given(v.installedVersion)
  const FixOf := (v: Vulnerability) => Given(v.fixedVersion)
  const TitleOf := (v: Vulnerability) => Given(v.title)
  const DataSourceOf := (v: Vulnerability) => Given(v.dataSource)

  /**
   What merging two findings keeps, field by field: the base keeps what it has, unless the incoming description
   is longer, its severity ranks higher, or its score is higher, which comes with its vector.
   */
  lemma WhatMergingKeeps(b: Vulnerability, v: Vulnerability)
    ensures var m := MergeVulnerability(b, v);
            && m.vulnId == b.vulnId && m.pkgName == b.pkgName
            && m.installedVersion == (if b.installedVersion == "" then v.installedVersion else b.installedVersion)
            && m.fixedVersion == (if b.fixedVersion == "" then v.fixedVersion else b.fixedVersion)
            && m.title == (if b.title == "" then v.title else b.title)
            && m.dataSource == (if b.dataSource == "" then v.dataSource else b.dataSource)
            && m.description == (if Size(Trim(b.description)) < Size(Trim(v.description)) then v.description else b.description)
            && m.severity == (if SeverityRank(b.severity) < SeverityRank(v.severity) then v.severity else b.severity)
            && (m.score, m.vector) == (if b.score < v.score then (v.score, v.vector) else (b.score, b.vector))
            && Names(Urls, m.references) == Names(Urls, b.references) + Names(Urls, v.references)
  {
    CombinedNames(Urls, b.references, v.references);
  }

  lemma WhatMergingEntriesKeeps(b: Entry, e: Entry)
    ensures var m := MergeEntry(b, e);
            && m.vulnId == b.vulnId
            && m.description == (if Size(Trim(b.description)) < Size(Trim(e.description)) then e.description else b.description)
            && m.severity == (if SeverityRank(b.severity) < SeverityRank(e.severity) then e.severity else b.severity)
            && (m.score, m.vector) == (if b.score < e.score then (e.score, e.vector) else (b.score, b.vector))
            && m.published == (if b.published == None then e.published else b.published)
            && m.modified == (if b.modified == None then e.modified else b.modified)
            && (m.exploit <==> b.exploit || e.exploit)
            && Names(Links, m.references) == Names(Links, b.references) + Names(Links, e.references)
  {
    CombinedNames(Links, b.references, e.references);
  }

  // ----- what the keys tell apart -----

  /**
   Findings are taken for one another exactly if vulnerability and package are the same, apart from white space
   around them, or if a bar in one of these names makes them look so.
   */
  lemma KeysAreEqualIff(v: Vulnerability, w: Vulnerability)
    ensures VulnerabilityKey(v) == VulnerabilityKey(w) <==>
            var (a, b, c, d) := (Trim(v.vulnId), Trim(v.pkgName), Trim(w.vulnId), Trim(w.pkgName));
            || (a == c && b == d)
            || (exists m: string :: a == c + "|" + m && d == m + "|" + b)
            || (exists m: string :: c == a + "|" + m && b == m + "|" + d)
  {
    BarredTexts(Trim(v.vulnId), Trim(v.pkgName), Trim(w.vulnId), Trim(w.pkgName));
  }

  /** Without a bar in the identifiers, different vulnerabilities and different packages are kept apart. */
  lemma KeysTellApart(v: Vulnerability, w: Vulnerability)
    requires '|' !in Trim(v.vulnId) && '|' !in Trim(w.vulnId)
    ensures VulnerabilityKey(v) == VulnerabilityKey(w) <==> Trim(v.vulnId) == Trim(w.vulnId) && Trim(v.pkgName) == Trim(w.pkgName)
  {
    UnbarredTexts(Trim(v.vulnId), Trim(v.pkgName), Trim(w.vulnId), Trim(w.pkgName));
  }

  /** With one they need not be: two findings of different packages that are merged into one. */
  lemma KeysCanCollide(v: Vulnerability, w: Vulnerability)
    requires v.vulnId == "A|B" && v.pkgName == "C" && w.vulnId == "A" && w.pkgName == "B|C"
    ensures VulnerabilityKey(v) == VulnerabilityKey(w)
    ensures |Merged(VulnerabilityKey, MergeVulnerability, [v], [w])| == 1
  {
    assert Trim("A|B") == "A|B" && Trim("C") == "C" && Trim("A") == "A" && Trim("B|C") == "B|C";
    assert "A|B" + "|" + "C" == "A|B|C" == "A" + "|" + "B|C";
    MergedOne([v], w);
    assert Slot(VulnerabilityKey, [v], VulnerabilityKey(w)) == Some(0);
  }

  lemma UrlNames(u: string)
    ensures Names(Urls, [u]) == if Trim(u) == "" then {} else {Trim(u)}
  {
    var one := [u];
    if Urls.counts(Urls.clean(one[0])) { assert Trim(u) in Names(Urls, one); }
  }

  lemma LinkNames(r: Reference)
    ensures Names(Links, [r]) == if Trim(r.url) == "" then {} else {Trim(r.url) + "|" + Trim(r.source)}
  {
    var one := [r];
    if Links.counts(Links.clean(one[0])) { assert Trim(r.url) + "|" + Trim(r.source) in Names(Links, one); }
  }


  // The ratings of a finding: text that is given, the longest description, the highest severity and score.
  ghost predicate Rated(existing: seq<Vulnerability>, incoming: seq<Vulnerability>, merged: seq<Vulnerability>, j: nat)
    requires j < |merged|
  {
    && IsLargest(VulnerabilityKey, SeverityOf, existing, incoming, merged, j)
    && IsLargest(VulnerabilityKey, ScoreOf, existing, incoming, merged, j)
    && IsLargest(VulnerabilityKey, DescriptionOf, existing, incoming, merged, j)
    && TextsGiven(existing, incoming, merged, j)
  }

  ghost predicate TextsGiven(existing: seq<Vulnerability>, incoming: seq<Vulnerability>, merged: seq<Vulnerability>, j: nat)
    requires j < |merged|
  {
    && IsLargest(VulnerabilityKey, InstalledOf, existing, incoming, merged, j)
    && IsLargest(VulnerabilityKey, FixOf, existing, incoming, merged, j)
    && IsLargest(VulnerabilityKey, TitleOf, existing, incoming, merged, j)
    && IsLargest(VulnerabilityKey, DataSourceOf, existing, incoming, merged, j)
  }

  lemma RanksTakeMax()
    ensures TakesMax(VulnerabilityKey, MergeVulnerability, SeverityOf) && TakesMax(VulnerabilityKey, MergeVulnerability, ScoreOf)
    ensures TakesMax(VulnerabilityKey, MergeVulnerability, DescriptionOf)
  {
  }

  lemma TextsTakeMax()
    ensures TakesMax(VulnerabilityKey, MergeVulnerability, InstalledOf) && TakesMax(VulnerabilityKey, MergeVulnerability, FixOf)
    ensures TakesMax(VulnerabilityKey, MergeVulnerability, TitleOf) && TakesMax(VulnerabilityKey, MergeVulnerability, DataSourceOf)
  {
  }

  lemma EntriesTakeMax()
    ensures TakesMax(EntryKey, MergeEntry, EntrySeverityOf) && TakesMax(EntryKey, MergeEntry, EntryScoreOf)
    ensures TakesMax(EntryKey, MergeEntry, EntryDescriptionOf)
  {
  }

  lemma KeysAreKept()
    ensures KeepsKey(VulnerabilityKey, MergeVulnerability) && KeepsKey(EntryKey, MergeEntry)
  {
  }

  lemma FindingRatings(existing: seq<Vulnerability>, incoming: seq<Vulnerability>, j: nat)
    requires j < |Merged(VulnerabilityKey, MergeVulnerability, existing, incoming)|
    ensures Rated(existing, incoming, Merged(VulnerabilityKey, MergeVulnerability, existing, incoming), j)
  {
    RanksTakeMax();
    KeysAreKept();
    LargestSurvives(VulnerabilityKey, MergeVulnerability, SeverityOf, existing, incoming, j);
    LargestSurvives(VulnerabilityKey, MergeVulnerability, ScoreOf, existing, incoming, j);
    LargestSurvives(VulnerabilityKey, MergeVulnerability, DescriptionOf, existing, incoming, j);
    FindingTexts(existing, incoming, j);
  }

  lemma FindingTexts(existing: seq<Vulnerability>, incoming: seq<Vulnerability>, j: nat)
    requires j < |Merged(VulnerabilityKey, MergeVulnerability, existing, incoming)|
    ensures TextsGiven(existing, incoming, Merged(VulnerabilityKey, MergeVulnerability, existing, incoming), j)
  {
    TextsTakeMax();
    KeysAreKept();
    LargestSurvives(VulnerabilityKey, MergeVulnerability, InstalledOf, existing, incoming, j);
    LargestSurvives(VulnerabilityKey, MergeVulnerability, FixOf, existing, incoming, j);
    LargestSurvives(VulnerabilityKey, MergeVulnerability, TitleOf, existing, incoming, j);
    LargestSurvives(VulnerabilityKey, MergeVulnerability, DataSourceOf, existing, incoming, j);
  }

  /**
   For every list of findings and every list merged into it: existing findings keep their places and
   keys, the rest are the new keys, each once and nothing else; the severity in a slot is the highest of
   everything that went into it, and so is the score, which keeps the vector it came with.
   */
  lemma FindingsAreUnited(existing: seq<Vulnerability>, incoming: seq<Vulnerability>)
    ensures var merged := Merged(VulnerabilityKey, MergeVulnerability, existing, incoming);
            && KeysFit(VulnerabilityKey, existing, incoming, merged)
            && forall j | 0 <= j < |merged| :: Rated(existing, incoming, merged, j)
  {
    var merged := Merged(VulnerabilityKey, MergeVulnerability, existing, incoming);
    MergedKeys(VulnerabilityKey, MergeVulnerability, existing, incoming);
    forall j | 0 <= j < |merged|
      ensures Rated(existing, incoming, merged, j)
    {
      FindingRatings(existing, incoming, j);
    }
  }

  lemma EntriesAreUnited(existing: seq<Entry>, incoming: seq<Entry>)
    ensures var merged := Merged(EntryKey, MergeEntry, existing, incoming);
            && KeysFit(EntryKey, existing, incoming, merged)
            && forall j | 0 <= j < |merged| ::
                 && IsLargest(EntryKey, EntrySeverityOf, existing, incoming, merged, j)
                 && IsLargest(EntryKey, EntryScoreOf, existing, incoming, merged, j)
                 && IsLargest(EntryKey, EntryDescriptionOf, existing, incoming, merged, j)
  {
    var merged := Merged(EntryKey, MergeEntry, existing, incoming);
    EntriesTakeMax();
    KeysAreKept();
    MergedKeys(EntryKey, MergeEntry, existing, incoming);
    forall j | 0 <= j < |merged|
      ensures IsLargest(EntryKey, EntrySeverityOf, existing, incoming, merged, j)
      ensures IsLargest(EntryKey, EntryScoreOf, existing, incoming, merged, j)
      ensures IsLargest(EntryKey, EntryDescriptionOf, existing, incoming, merged, j)
    {
      LargestSurvives(EntryKey, MergeEntry, EntrySeverityOf, existing, incoming, j);
      LargestSurvives(EntryKey, MergeEntry, EntryScoreOf, existing, incoming, j);
      LargestSurvives(EntryKey, MergeEntry, EntryDescriptionOf, existing, incoming, j);
    }
  }

  lemma VulnerabilitiesAbsorb(b: Vulnerability, v: Vulnerability)
    ensures AbsorbsVulnerability(MergeVulnerability(b, v), v)
    ensures AbsorbsVulnerability(b, v) ==> SameVulnerability(MergeVulnerability(b, v), b)
  {
    CombinedNames(Urls, b.references, v.references);
    assert AbsorbsVulnerability(b, v) ==> Names(Urls, b.references) + Names(Urls, v.references) == Names(Urls, b.references);
  }

  lemma VulnerabilitiesStayAbsorbed(b: Vulnerability, v: Vulnerability, w: Vulnerability)
    requires AbsorbsVulnerability(b, v)
    ensures AbsorbsVulnerability(MergeVulnerability(b, w), v)
  {
    CombinedNames(Urls, b.references, w.references);
  }

  lemma AllVulnerabilitiesAbsorb()
    ensures Absorption(VulnerabilityKey, MergeVulnerability, AbsorbsVulnerability, SameVulnerability)
  {
    forall b: Vulnerability, v: Vulnerability
      ensures AbsorbsVulnerability(MergeVulnerability(b, v), v) && (AbsorbsVulnerability(b, v) ==> SameVulnerability(MergeVulnerability(b, v), b))
    {
      VulnerabilitiesAbsorb(b, v);
    }
    forall b: Vulnerability, v: Vulnerability, w: Vulnerability | AbsorbsVulnerability(b, v)
      ensures AbsorbsVulnerability(MergeVulnerability(b, w), v)
    {
      VulnerabilitiesStayAbsorbed(b, v, w);
    }
    forall b: Vulnerability, c: Vulnerability, v: Vulnerability | SameVulnerability(c, b) && AbsorbsVulnerability(b, v)
      ensures AbsorbsVulnerability(c, v)
    {
    }
  }

  lemma EntriesAbsorb(b: Entry, v: Entry)
    ensures AbsorbsEntry(MergeEntry(b, v), v)
    ensures AbsorbsEntry(b, v) ==> SameEntry(MergeEntry(b, v), b)
  {
    CombinedNames(Links, b.references, v.references);
    assert AbsorbsEntry(b, v) ==> Names(Links, b.references) + Names(Links, v.references) == Names(Links, b.references);
  }

  lemma EntriesStayAbsorbed(b: Entry, v: Entry, w: Entry)
    requires AbsorbsEntry(b, v)
    ensures AbsorbsEntry(MergeEntry(b, w), v)
  {
    CombinedNames(Links, b.references, w.references);
  }

  lemma AllEntriesAbsorb()
    ensures Absorption(EntryKey, MergeEntry, AbsorbsEntry, SameEntry)
  {
    forall b: Entry, v: Entry
      ensures AbsorbsEntry(MergeEntry(b, v), v) && (AbsorbsEntry(b, v) ==> SameEntry(MergeEntry(b, v), b))
    {
      EntriesAbsorb(b, v);
    }
    forall b: Entry, v: Entry, w: Entry | AbsorbsEntry(b, v)
      ensures AbsorbsEntry(MergeEntry(b, w), v)
    {
      EntriesStayAbsorbed(b, v, w);
    }
    forall b: Entry, c: Entry, v: Entry | SameEntry(c, b) && AbsorbsEntry(b, v)
      ensures AbsorbsEntry(c, v)
    {
    }
  }

  /** Merging the same findings again changes no finding, up to the spelling and order of its references. */
  lemma FindingsMergeOnce(existing: seq<Vulnerability>, incoming: seq<Vulnerability>)
    ensures var once := Merged(VulnerabilityKey, MergeVulnerability, existing, incoming);
            AllSame(VulnerabilityKey, SameVulnerability, Merged(VulnerabilityKey, MergeVulnerability, once, incoming), once)
  {
    AllVulnerabilitiesAbsorb();
    MergingAgain(VulnerabilityKey, MergeVulnerability, AbsorbsVulnerability, SameVulnerability, existing, incoming);
  }

  lemma EntriesMergeOnce(existing: seq<Entry>, incoming: seq<Entry>)
    ensures var once := Merged(EntryKey, MergeEntry, existing, incoming);
            AllSame(EntryKey, SameEntry, Merged(EntryKey, MergeEntry, once, incoming), once)
  {
    AllEntriesAbsorb();
    MergingAgain(EntryKey, MergeEntry, AbsorbsEntry, SameEntry, existing, incoming);
  }

  const UrlsOf := (v: Vulnerability) => v.references
  const LinksOf := (e: Entry) => e.references

  lemma UrlsAreCleanedOnce()
    ensures CleansOnce(Urls)
  {
    forall url: string
      ensures Trim(Trim(url)) == Trim(url)
    {
    }
  }

  lemma LinksAreCleanedOnce()
    ensures CleansOnce(Links)
  {
    forall r: Reference
      ensures Links.clean(Links.clean(r)) == Links.clean(r)
    {
    }
  }

  /**
   Exactly when merging one finding into another a second time changes nothing at all: it brings no
   references, or there are references with a name, and they were tidy if they were taken over alone.
   */
  lemma FindingMergesAgainIff(b: Vulnerability, v: Vulnerability)
    ensures var once := MergeVulnerability(b, v);
            MergeVulnerability(once, v) == once <==>
            || v.references == []
            || if b.references == [] then Tidy(Urls, v.references) else Names(Urls, b.references) + Names(Urls, v.references) != {}
  {
    VulnerabilitiesAbsorb(b, v);
    VulnerabilitiesAbsorb(MergeVulnerability(b, v), v);
    UrlsAreCleanedOnce();
    CombinedAgainIff(Urls, b.references, v.references);
  }

  lemma EntryMergesAgainIff(b: Entry, e: Entry)
    ensures var once := MergeEntry(b, e);
            MergeEntry(once, e) == once <==>
            || e.references == []
            || if b.references == [] then Tidy(Links, e.references) else Names(Links, b.references) + Names(Links, e.references) != {}
  {
    EntriesAbsorb(b, e);
    EntriesAbsorb(MergeEntry(b, e), e);
    LinksAreCleanedOnce();
    CombinedAgainIff(Links, b.references, e.references);
  }

  /** Exactly when merging the same findings again changes nothing at all. */
  lemma FindingsMergeAgainIff(existing: seq<Vulnerability>, incoming: seq<Vulnerability>)
    ensures var once := Merged(VulnerabilityKey, MergeVulnerability, existing, incoming);
            Merged(VulnerabilityKey, MergeVulnerability, once, incoming) == once <==>
            AllSettle(VulnerabilityKey, UrlsOf, Urls, existing, incoming)
  {
    AllVulnerabilitiesAbsorb();
    UrlsAreCleanedOnce();
    MergingAgainIffSettled(VulnerabilityKey, MergeVulnerability, AbsorbsVulnerability, SameVulnerability, UrlsOf, Urls, existing, incoming);
  }

  /** Exactly when merging the same entries again changes nothing at all. */
  lemma EntriesMergeAgainIff(existing: seq<Entry>, incoming: seq<Entry>)
    ensures var once := Merged(EntryKey, MergeEntry, existing, incoming);
            Merged(EntryKey, MergeEntry, once, incoming) == once <==>
            AllSettle(EntryKey, LinksOf, Links, existing, incoming)
  {
    AllEntriesAbsorb();
    LinksAreCleanedOnce();
    MergingAgainIffSettled(EntryKey, MergeEntry, AbsorbsEntry, SameEntry, LinksOf, Links, existing, incoming);
  }

  // A blank reference combined with itself is dropped.
  lemma BlankIsDropped()
    ensures Combined(Urls, [" "], [" "]) == []
  {
    var two := [" ", " "];
    assert [" "] + [" "] == two && two[..1] == [" "] && [" "][..0] == [];
    assert TrimLeft(" "[1..]) == "" && Trim(" ") == "";
    assert Gathered(Urls, [" "]) == [];
  }

  lemma MergedOne(existing: seq<Vulnerability>, v: Vulnerability)
    ensures Merged(VulnerabilityKey, MergeVulnerability, existing, [v]) == TakeIn(VulnerabilityKey, MergeVulnerability, existing, v)
  {
    MergedOneMore(VulnerabilityKey, MergeVulnerability, existing, [v], 0);
    assert [v][..1] == [v] && [v][..0] == [];
  }

  /** The spelling can change: a single blank reference is taken over at first and dropped the second time. */
  lemma ReferencesAreRespelled(v: Vulnerability)
    requires v.references == [" "]
    ensures var once := Merged(VulnerabilityKey, MergeVulnerability, [], [v]);
            once == [v] && Merged(VulnerabilityKey, MergeVulnerability, once, [v]) != once
  {
    MergedOne([], v);
    MergedOne([v], v);
    BlankIsDropped();
    assert Slot(VulnerabilityKey, [v], VulnerabilityKey(v)) == Some(0);
    assert MergeVulnerability(v, v).references == [];
  }
}
