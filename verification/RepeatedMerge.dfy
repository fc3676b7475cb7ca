/**
 When merging the same input a second time leaves the reference lists exactly as they are. A list that meets
 an empty one is taken over uncleaned, and lists without a countable reference cancel each other out, so
 the answer depends on which lists of a key carry a name and on how many are not empty.
 */
module RepeatedMerge {
  import opened Wrappers
  import opened References
  import opened IndexedMerge

  // ----- lists that gathering leaves alone -----

  // Every reference is clean, counts, and is named once.
  ghost predicate Tidy<R>(kind: Kind<R>, refs: seq<R>) {
    && (forall i | 0 <= i < |refs| :: kind.clean(refs[i]) == refs[i] && kind.counts(refs[i]))
    && (forall i, j | 0 <= i < j < |refs| :: kind.name(refs[i]) != kind.name(refs[j]))
  }

  lemma NameIsListed<R>(kind: Kind<R>, refs: seq<R>, i: nat)
    requires i < |refs| && kind.counts(kind.clean(refs[i]))
    ensures kind.name(kind.clean(refs[i])) in Names(kind, refs)
  {
  }

  lemma {:induction false} GatheredIsTidy<R(!new)>(kind: Kind<R>, refs: seq<R>)
    requires CleansOnce(kind)
    ensures Tidy(kind, Gathered(kind, refs))
  {
    if refs != [] {
      var init, before := refs[..|refs| - 1], Gathered(kind, refs[..|refs| - 1]);
      GatheredIsTidy(kind, init);
      GatheredNames(kind, init);
      forall i | 0 <= i < |before|
        ensures kind.name(before[i]) in Names(kind, init)
      {
        NameIsListed(kind, before, i);
      }
    }
  }

  lemma {:induction false} TidyIsGathered<R>(kind: Kind<R>, refs: seq<R>)
    requires Tidy(kind, refs)
    ensures Gathered(kind, refs) == refs
  {
    if refs != [] {
      var init, last := refs[..|refs| - 1], refs[|refs| - 1];
      TidyIsGathered(kind, init);
      assert kind.name(last) !in Names(kind, init);
      assert refs == init + [last];
    }
  }

  /** Gathering leaves a list alone exactly if it is tidy. */
  lemma GatheredIsSameIffTidy<R(!new)>(kind: Kind<R>, refs: seq<R>)
    requires CleansOnce(kind)
    ensures Gathered(kind, refs) == refs <==> Tidy(kind, refs)
  {
    GatheredIsTidy(kind, refs);
    if Tidy(kind, refs) { TidyIsGathered(kind, refs); }
  }

  lemma {:induction false} KnownNamesAddNothing<R>(kind: Kind<R>, a: seq<R>, b: seq<R>)
    requires Names(kind, b) <= Names(kind, a)
    ensures Gathered(kind, a + b) == Gathered(kind, a)
  {
    if b == [] {
      assert a + b == a;
    } else {
      var init, r := b[..|b| - 1], b[|b| - 1];
      assert b == init + [r] && (a + b)[..|a + b| - 1] == a + init;
      NamesOneMore(kind, init, r);
      NamesTogether(kind, a, init);
      KnownNamesAddNothing(kind, a, init);
    }
  }

  lemma GatheredTwice<R(!new)>(kind: Kind<R>, refs: seq<R>)
    requires CleansOnce(kind)
    ensures Gathered(kind, Gathered(kind, refs)) == Gathered(kind, refs)
  {
    GatheredIsTidy(kind, refs);
    TidyIsGathered(kind, Gathered(kind, refs));
  }

  lemma NamelessIsDropped<R(!new)>(kind: Kind<R>, refs: seq<R>)
    requires CleansOnce(kind)
    ensures Names(kind, refs) == {} <==> Gathered(kind, refs) == []
  {
    GatheredIsTidy(kind, refs);
    GatheredNames(kind, refs);
    var g := Gathered(kind, refs);
    if g != [] { NameIsListed(kind, g, 0); }
  }

  // ----- one list after the other -----

  function Folded<R>(kind: Kind<R>, base: seq<R>, lists: seq<seq<R>>): seq<R> {
    if lists == [] then base
    else Combined(kind, Folded(kind, base, lists[..|lists| - 1]), lists[|lists| - 1])
  }

  function AllNames<R>(kind: Kind<R>, base: seq<R>, lists: seq<seq<R>>): set<string> {
    if lists == [] then Names(kind, base)
    else AllNames(kind, base, lists[..|lists| - 1]) + Names(kind, lists[|lists| - 1])
  }

  // The lists that are not empty; combining with an empty list changes nothing.
  function Full<R>(lists: seq<seq<R>>): (full: seq<seq<R>>)
    ensures forall i | 0 <= i < |full| :: full[i] != []
  {
    if lists == [] then []
    else Full(lists[..|lists| - 1]) + if lists[|lists| - 1] == [] then [] else [lists[|lists| - 1]]
  }

  lemma {:induction false} EmptyListsDoNotCount<R>(kind: Kind<R>, base: seq<R>, lists: seq<seq<R>>)
    ensures Folded(kind, base, Full(lists)) == Folded(kind, base, lists)
  {
    if lists != [] {
      var init, last := lists[..|lists| - 1], lists[|lists| - 1];
      EmptyListsDoNotCount(kind, base, init);
      if last != [] {
        var full := Full(init) + [last];
        assert Full(lists) == full && full[|full| - 1] == last && full[..|full| - 1] == Full(init);
      } else {
        assert Full(init) + [] == Full(init);
      }
    }
  }

  lemma {:induction false} FoldedNames<R(!new)>(kind: Kind<R>, base: seq<R>, lists: seq<seq<R>>)
    requires CleansOnce(kind)
    ensures Names(kind, Folded(kind, base, lists)) == AllNames(kind, base, lists)
  {
    if lists != [] {
      var init, last := lists[..|lists| - 1], lists[|lists| - 1];
      FoldedNames(kind, base, init);
      CombinedNames(kind, Folded(kind, base, init), last);
    }
  }

  function Parity<R>(base: seq<R>, lists: seq<seq<R>>): nat { ((if base == [] then 0 else 1) + |lists|) % 2 }

  // Lists without names replace one another: after an even number nothing is left, after an odd number the last.
  lemma {:induction false} NamelessListsAlternate<R(!new)>(kind: Kind<R>, base: seq<R>, full: seq<seq<R>>)
    requires CleansOnce(kind) && AllNames(kind, base, full) == {} && forall i | 0 <= i < |full| :: full[i] != []
    ensures Folded(kind, base, full) ==
            if Parity(base, full) == 0 then [] else if full == [] then base else full[|full| - 1]
  {
    if full != [] {
      var init, last := full[..|full| - 1], full[|full| - 1];
      NamelessListsAlternate(kind, base, init);
      var sofar := Folded(kind, base, init);
      FoldedNames(kind, base, init);
      NamesTogether(kind, sofar, last);
      NamelessIsDropped(kind, sofar + last);
    }
  }

  // A list that has all the names already is gathered once and then stays.
  lemma {:induction false} FoldedOntoAll<R(!new)>(kind: Kind<R>, all: seq<R>, full: seq<seq<R>>)
    requires CleansOnce(kind) && full != [] && Names(kind, all) != {}
    requires forall i | 0 <= i < |full| :: full[i] != [] && Names(kind, full[i]) <= Names(kind, all)
    ensures Folded(kind, all, full) == Gathered(kind, all)
  {
    var init, last := full[..|full| - 1], full[|full| - 1];
    assert Names(kind, []) == {};
    if init == [] {
      KnownNamesAddNothing(kind, all, last);
    } else {
      FoldedOntoAll(kind, all, init);
      GatheredNames(kind, all);
      KnownNamesAddNothing(kind, Gathered(kind, all), last);
      GatheredTwice(kind, all);
    }
  }

  lemma {:induction false} ListedNames<R>(kind: Kind<R>, base: seq<R>, lists: seq<seq<R>>, i: nat)
    requires i < |lists|
    ensures Names(kind, lists[i]) <= AllNames(kind, base, lists)
  {
    if i < |lists| - 1 { ListedNames(kind, base, lists[..|lists| - 1], i); }
  }

  /**
   Folding the same lists in again changes nothing: either no list is full; or no list carries a name and
   the full ones are even in number; or there are names, and the last full list is tidy or did not
   take the place of nothing.
   */
  ghost predicate Settles<R>(kind: Kind<R>, base: seq<R>, lists: seq<seq<R>>) {
    var full := Full(lists);
    full == [] ||
    (var n := |full| - 1;
     if AllNames(kind, base, full) == {} then |full| % 2 == 0
     else Tidy(kind, full[n]) || AllNames(kind, base, full[..n]) != {} || Parity(base, full[..n]) == 1)
  }

  // The state before the last full list is empty only if everything before it was without names.
  lemma EmptyBeforeLast<R(!new)>(kind: Kind<R>, base: seq<R>, full: seq<seq<R>>)
    requires CleansOnce(kind) && forall i | 0 <= i < |full| :: full[i] != []
    ensures Folded(kind, base, full) == [] <==> AllNames(kind, base, full) == {} && Parity(base, full) == 0
  {
    FoldedNames(kind, base, full);
    assert Names(kind, []) == {};
    if AllNames(kind, base, full) == {} { NamelessListsAlternate(kind, base, full); }
  }

  lemma {:induction false} AllNamesWithin<R>(kind: Kind<R>, base: seq<R>, lists: seq<seq<R>>, bound: set<string>)
    requires Names(kind, base) <= bound && forall i | 0 <= i < |lists| :: Names(kind, lists[i]) <= bound
    ensures AllNames(kind, base, lists) <= bound
  {
    if lists != [] { AllNamesWithin(kind, base, lists[..|lists| - 1], bound); }
  }

  lemma ParityOfBase<R>(base: seq<R>, lists: seq<seq<R>>)
    ensures Parity(base, lists) == 0 <==> (|lists| % 2 == 0 <==> base == [])
  {
  }

  lemma NamelessAgain<R(!new)>(kind: Kind<R>, base: seq<R>, full: seq<seq<R>>)
    requires CleansOnce(kind) && full != [] && forall i | 0 <= i < |full| :: full[i] != []
    requires AllNames(kind, base, full) == {}
    ensures Folded(kind, Folded(kind, base, full), full) == Folded(kind, base, full) <==> |full| % 2 == 0
  {
    var once := Folded(kind, base, full);
    NamelessListsAlternate(kind, base, full);
    assert once == [] || once == full[|full| - 1];
    NamelessThroughout(kind, base, full);
    NamelessListsAlternate(kind, once, full);
    ParityOfBase(once, full);
  }

  lemma NamelessThroughout<R(!new)>(kind: Kind<R>, base: seq<R>, full: seq<seq<R>>)
    requires CleansOnce(kind) && AllNames(kind, base, full) == {}
    ensures AllNames(kind, Folded(kind, base, full), full) == {}
  {
    FoldedNames(kind, base, full);
    forall i | 0 <= i < |full|
      ensures Names(kind, full[i]) <= {}
    {
      ListedNames(kind, base, full, i);
    }
    AllNamesWithin(kind, Folded(kind, base, full), full, {});
  }

  lemma NamedAgain<R(!new)>(kind: Kind<R>, base: seq<R>, full: seq<seq<R>>)
    requires CleansOnce(kind) && full != [] && forall i | 0 <= i < |full| :: full[i] != []
    requires AllNames(kind, base, full) != {}
    ensures var n := |full| - 1;
            Folded(kind, Folded(kind, base, full), full) == Folded(kind, base, full) <==>
            Tidy(kind, full[n]) || AllNames(kind, base, full[..n]) != {} || Parity(base, full[..n]) == 1
  {
    var n, once := |full| - 1, Folded(kind, base, full);
    var sofar := Folded(kind, base, full[..n]);
    FoldedNames(kind, base, full);
    forall i | 0 <= i < |full|
      ensures Names(kind, full[i]) <= Names(kind, once)
    {
      ListedNames(kind, base, full, i);
    }
    FoldedOntoAll(kind, once, full);
    EmptyBeforeLast(kind, base, full[..n]);
    GatheredIsSameIffTidy(kind, once);
    if sofar != [] { GatheredIsTidy(kind, sofar + full[n]); }
  }

  /** The exact condition, for any number of lists of any contents. */
  lemma FoldedAgainIffSettles<R(!new)>(kind: Kind<R>, base: seq<R>, lists: seq<seq<R>>)
    requires CleansOnce(kind)
    ensures Folded(kind, Folded(kind, base, lists), lists) == Folded(kind, base, lists) <==> Settles(kind, base, lists)
  {
    var full := Full(lists);
    EmptyListsDoNotCount(kind, base, lists);
    EmptyListsDoNotCount(kind, Folded(kind, base, lists), lists);
    if full != [] {
      if AllNames(kind, base, full) == {} { NamelessAgain(kind, base, full); } else { NamedAgain(kind, base, full); }
    }
  }

  // What has been gathered from a list survives a list without new names exactly if it has any name itself.
  lemma GatheredOntoItself<R(!new)>(kind: Kind<R>, all: seq<R>, refs: seq<R>)
    requires CleansOnce(kind) && refs != [] && Names(kind, refs) <= Names(kind, all)
    ensures Combined(kind, Gathered(kind, all), refs) == Gathered(kind, all) <==> Names(kind, all) != {}
  {
    NamelessIsDropped(kind, all);
    GatheredNames(kind, all);
    KnownNamesAddNothing(kind, Gathered(kind, all), refs);
    GatheredTwice(kind, all);
  }

  /** For a single list the condition is short. */
  lemma CombinedAgainIff<R(!new)>(kind: Kind<R>, base: seq<R>, refs: seq<R>)
    requires CleansOnce(kind)
    ensures Combined(kind, Combined(kind, base, refs), refs) == Combined(kind, base, refs) <==>
            refs == [] || if base == [] then Tidy(kind, refs) else Names(kind, base) + Names(kind, refs) != {}
  {
    if refs != [] {
      if base == [] {
        KnownNamesAddNothing(kind, refs, refs);
        GatheredIsSameIffTidy(kind, refs);
      } else {
        NamesTogether(kind, base, refs);
        GatheredOntoItself(kind, base + refs, refs);
      }
    }
  }

  // ----- the merge -----

  // What the slot of a key holds; nothing if there is none.
  function BaseOf<T, R>(key: T -> string, refs: T -> seq<R>, records: seq<T>, k: string): seq<R> {
    var slot := Slot(key, records, k);
    if slot.Some? then refs(records[slot.value]) else []
  }

  // The lists that come in for a key, in order.
  function ListsOf<T, R>(key: T -> string, refs: T -> seq<R>, incoming: seq<T>, k: string): seq<seq<R>> {
    if incoming == [] then []
    else
      var last := incoming[|incoming| - 1];
      ListsOf(key, refs, incoming[..|incoming| - 1], k) + if key(last) == k then [refs(last)] else []
  }

  ghost predicate Combines<T(!new), R>(key: T -> string, merge: (T, T) -> T, refs: T -> seq<R>, kind: Kind<R>) {
    forall b, v | key(b) == key(v) :: refs(merge(b, v)) == Combined(kind, refs(b), refs(v))
  }

  lemma BaseAfterTakeIn<T(!new), R>(key: T -> string, merge: (T, T) -> T, refs: T -> seq<R>, kind: Kind<R>,
                                    records: seq<T>, v: T, k: string)
    requires KeepsKey(key, merge) && Combines(key, merge, refs, kind)
    ensures BaseOf(key, refs, TakeIn(key, merge, records, v), k) ==
            if key(v) == k then Combined(kind, BaseOf(key, refs, records, k), refs(v)) else BaseOf(key, refs, records, k)
  {
    var slot := Slot(key, records, key(v));
    if slot.Some? {
      assert key(merge(records[slot.value], v)) == key(records[slot.value]);
      SlotAfterUpdate(key, records, slot.value, merge(records[slot.value], v), k);
    } else {
      SlotAfterAppend(key, records, v, k);
    }
  }

  /** The references in a slot are those it had, combined with every list of its key in turn. */
  lemma {:induction false} SlotIsFolded<T(!new), R>(key: T -> string, merge: (T, T) -> T, refs: T -> seq<R>, kind: Kind<R>,
                                                   existing: seq<T>, incoming: seq<T>, k: string)
    requires KeepsKey(key, merge) && Combines(key, merge, refs, kind)
    ensures BaseOf(key, refs, Merged(key, merge, existing, incoming), k) ==
            Folded(kind, BaseOf(key, refs, existing, k), ListsOf(key, refs, incoming, k))
  {
    if incoming != [] {
      var init, v := incoming[..|incoming| - 1], incoming[|incoming| - 1];
      var lists := ListsOf(key, refs, init, k);
      SlotIsFolded(key, merge, refs, kind, existing, init, k);
      BaseAfterTakeIn(key, merge, refs, kind, Merged(key, merge, existing, init), v, k);
      if key(v) == k {
        assert (lists + [refs(v)])[..|lists|] == lists;
      } else {
        assert lists + [] == lists;
      }
    }
  }

  lemma {:induction false} NoListsOfOtherKeys<T, R>(key: T -> string, refs: T -> seq<R>, incoming: seq<T>, k: string)
    requires forall v | v in incoming :: key(v) != k
    ensures ListsOf(key, refs, incoming, k) == []
  {
    if incoming != [] {
      assert incoming[|incoming| - 1] in incoming;
      NoListsOfOtherKeys(key, refs, incoming[..|incoming| - 1], k);
    }
  }

  // Only the last slot of a key is ever written.
  lemma {:induction false} OthersUntouched<T(!new)>(key: T -> string, merge: (T, T) -> T, records: seq<T>, incoming: seq<T>, j: nat)
    requires KeepsKey(key, merge) && j < |records| && Slot(key, records, key(records[j])) != Some(j)
    ensures var merged := Merged(key, merge, records, incoming);
            j < |merged| && merged[j] == records[j] && Slot(key, merged, key(records[j])) == Slot(key, records, key(records[j]))
  {
    if incoming != [] {
      var init := incoming[..|incoming| - 1];
      OthersUntouched(key, merge, records, init, j);
      TakeInKeys(key, merge, Merged(key, merge, records, init), incoming[|incoming| - 1]);
    }
  }

  ghost predicate AllSettle<T, R>(key: T -> string, refs: T -> seq<R>, kind: Kind<R>, existing: seq<T>, incoming: seq<T>) {
    forall v | v in incoming :: Settles(kind, BaseOf(key, refs, existing, key(v)), ListsOf(key, refs, incoming, key(v)))
  }

  // The references in the slot of a key survive a second merge exactly if its lists settle.
  lemma SlotAgain<T(!new), R(!new)>(key: T -> string, merge: (T, T) -> T, refs: T -> seq<R>, kind: Kind<R>,
                                   existing: seq<T>, incoming: seq<T>, k: string)
    requires KeepsKey(key, merge) && Combines(key, merge, refs, kind) && CleansOnce(kind)
    ensures var once := Merged(key, merge, existing, incoming);
            BaseOf(key, refs, Merged(key, merge, once, incoming), k) == BaseOf(key, refs, once, k) <==>
            Settles(kind, BaseOf(key, refs, existing, k), ListsOf(key, refs, incoming, k))
  {
    SlotIsFolded(key, merge, refs, kind, existing, incoming, k);
    SlotIsFolded(key, merge, refs, kind, Merged(key, merge, existing, incoming), incoming, k);
    FoldedAgainIffSettles(kind, BaseOf(key, refs, existing, k), ListsOf(key, refs, incoming, k));
  }

  lemma SameReferencesAgain<T(!new), R(!new)>(key: T -> string, merge: (T, T) -> T, absorbs: (T, T) -> bool, same: (T, T) -> bool,
                                             refs: T -> seq<R>, kind: Kind<R>, existing: seq<T>, incoming: seq<T>, j: nat)
    requires KeepsKey(key, merge) && Combines(key, merge, refs, kind) && CleansOnce(kind)
    requires AllSettle(key, refs, kind, existing, incoming) && j < |Merged(key, merge, existing, incoming)|
    requires var once := Merged(key, merge, existing, incoming);
             AllSame(key, same, Merged(key, merge, once, incoming), once)
    ensures var once := Merged(key, merge, existing, incoming);
            refs(Merged(key, merge, once, incoming)[j]) == refs(once[j])
  {
    var once := Merged(key, merge, existing, incoming);
    var twice := Merged(key, merge, once, incoming);
    var k := key(once[j]);
    if Slot(key, once, k) == Some(j) {
      SameSlots(key, same, twice, once, k);
      SlotAgain(key, merge, refs, kind, existing, incoming, k);
      if forall v | v in incoming :: key(v) != k { NoListsOfOtherKeys(key, refs, incoming, k); }
    } else {
      OthersUntouched(key, merge, once, incoming, j);
    }
  }

  /**
   Merging the same input a second time changes nothing at all if and only if the reference lists of every
   incoming key settle. Nothing is assumed about repeated keys on either side.
   */
  lemma MergingAgainIffSettled<T(!new), R(!new)>(key: T -> string, merge: (T, T) -> T, absorbs: (T, T) -> bool, same: (T, T) -> bool,
                                                refs: T -> seq<R>, kind: Kind<R>, existing: seq<T>, incoming: seq<T>)
    requires KeepsKey(key, merge) && Absorption(key, merge, absorbs, same) && Combines(key, merge, refs, kind) && CleansOnce(kind)
    requires forall b, c | same(b, c) && refs(b) == refs(c) :: b == c
    ensures var once := Merged(key, merge, existing, incoming);
            Merged(key, merge, once, incoming) == once <==> AllSettle(key, refs, kind, existing, incoming)
  {
    var once := Merged(key, merge, existing, incoming);
    var twice := Merged(key, merge, once, incoming);
    MergingAgain(key, merge, absorbs, same, existing, incoming);
    if AllSettle(key, refs, kind, existing, incoming) {
      forall j | 0 <= j < |once|
        ensures twice[j] == once[j]
      {
        SameReferencesAgain(key, merge, absorbs, same, refs, kind, existing, incoming, j);
      }
    }
    if twice == once {
      forall v | v in incoming
        ensures Settles(kind, BaseOf(key, refs, existing, key(v)), ListsOf(key, refs, incoming, key(v)))
      {
        SlotAgain(key, merge, refs, kind, existing, incoming, key(v));
      }
    }
  }
}
