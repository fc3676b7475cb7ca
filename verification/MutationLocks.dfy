/**
 The advisory locks that serialize changes to vulnerabilities: every transaction locks the scans it
 touches in the order of their identifiers, each through a hash of the identifier.

 A scan identifier is a UUID read as a 128-bit number; the canonical text form has the same order.
 The nil UUID is 0. The hash is an arbitrary function from identifiers to lock keys.
 */
module MutationLocks {
  import opened Wrappers

  type ScanId = nat
  const NIL: ScanId := 0

  predicate StrictlyIncreasing(s: seq<ScanId>) {
    forall i, j | 0 <= i < j < |s| :: s[i] < s[j]
  }

  // ----- sortedUniqueScanIDs -----

  lemma InsertedInOrder(sorted: seq<ScanId>, k: nat, id: ScanId)
    requires StrictlyIncreasing(sorted) && id !in sorted && k <= |sorted|
    requires (forall i | 0 <= i < k :: sorted[i] < id) && (k < |sorted| ==> id <= sorted[k])
    ensures StrictlyIncreasing(sorted[..k] + [id] + sorted[k..])
  {
    assert forall i | k <= i < |sorted| :: sorted[i] > id;
  }

  lemma InsertedOneMore(sorted: seq<ScanId>, k: nat, id: ScanId)
    requires k <= |sorted|
    ensures forall x :: x in sorted[..k] + [id] + sorted[k..] <==> x == id || x in sorted
  {
    assert sorted == sorted[..k] + sorted[k..];
  }

  // Puts one identifier in its place; the library sort is represented by repeated insertion.
  method Insert(sorted: seq<ScanId>, id: ScanId) returns (r: seq<ScanId>)
    requires StrictlyIncreasing(sorted) && id !in sorted
    ensures StrictlyIncreasing(r)
    ensures forall x :: x in r <==> x == id || x in sorted
  {
    var k := 0;
    while k < |sorted| && sorted[k] < id
      invariant 0 <= k <= |sorted|
      invariant forall i | 0 <= i < k :: sorted[i] < id
    {
      k := k + 1;
    }
    r := sorted[..k] + [id] + sorted[k..];
    InsertedInOrder(sorted, k, id);
    InsertedOneMore(sorted, k, id);
  }

  /** The given identifiers without the nil one, each once, in increasing order. */
  method SortedUniqueScanIds(scanIds: seq<ScanId>) returns (ordered: seq<ScanId>)
    ensures StrictlyIncreasing(ordered)
    ensures forall id :: id in ordered <==> id in scanIds && id != 0
  {
    var unique: set<ScanId> := {};
    for i := 0 to |scanIds|
      invariant forall id :: id in unique <==> id in scanIds[..i] && id != NIL
    {
      TakeOneMore(scanIds, i);
      if scanIds[i] != NIL {
        unique := unique + {scanIds[i]};
      }
    }
    assert scanIds[..|scanIds|] == scanIds;
    ordered := [];
    ghost var all := unique;
    while unique != {}
      invariant StrictlyIncreasing(ordered)
      invariant forall id :: id in all <==> id in unique || id in ordered
      invariant forall id | id in unique :: id !in ordered
      decreases unique
    {
      var id :| id in unique;
      unique := unique - {id};
      ordered := Insert(ordered, id);
    }
  }

  lemma FirstIsLeast(a: seq<ScanId>, id: ScanId)
    requires StrictlyIncreasing(a) && id in a
    ensures a[0] <= id
  {
    var i :| 0 <= i < |a| && a[i] == id;
  }

  /** The order is forced: there is only one such list for a given set of identifiers. */
  lemma {:induction false} OrderIsUnique(a: seq<ScanId>, b: seq<ScanId>)
    requires StrictlyIncreasing(a) && StrictlyIncreasing(b)
    requires forall id :: id in a <==> id in b
    ensures a == b
  {
    EmptyTogether(a, b);
    if a != [] {
      FirstIsLeast(a, b[0]);
      FirstIsLeast(b, a[0]);
      SameTails(a, b);
      OrderIsUnique(a[1..], b[1..]);
      assert a == [a[0]] + a[1..] && b == [b[0]] + b[1..];
    }
  }

  // ----- transactions taking the locks -----

  // A transaction takes the locks of `ids` one by one; `next` of them have been taken. It holds all of
  // them until it commits.
  datatype Transaction = Transaction(ids: seq<ScanId>, next: nat, committed: bool)

  type Hash = ScanId -> int

  ghost predicate Proper(t: Transaction) {
    StrictlyIncreasing(t.ids) && t.next <= |t.ids|
  }

  ghost predicate Holds(hash: Hash, t: Transaction, key: int) {
    !t.committed && exists i | 0 <= i < t.next && i < |t.ids| :: hash(t.ids[i]) == key
  }

  // Another transaction holds the lock that transaction i wants next. A lock one holds oneself never blocks.
  ghost predicate Blocked(hash: Hash, s: seq<Transaction>, i: nat)
    requires i < |s| && s[i].next < |s[i].ids|
  {
    exists j | 0 <= j < |s| && j != i :: Holds(hash, s[j], hash(s[i].ids[s[i].next]))
  }

  ghost predicate CanStep(hash: Hash, s: seq<Transaction>, i: nat) {
    i < |s| && !s[i].committed && (s[i].next < |s[i].ids| ==> !Blocked(hash, s, i))
  }

  /** Transaction i takes its next lock, or commits when it has them all. */
  ghost function Step(hash: Hash, s: seq<Transaction>, i: nat): seq<Transaction> {
    if !CanStep(hash, s, i) then s
    else if s[i].next < |s[i].ids| then s[i := s[i].(next := s[i].next + 1)]
    else s[i := s[i].(committed := true)]
  }

  ghost function Run(hash: Hash, s: seq<Transaction>, schedule: seq<nat>): seq<Transaction>
    decreases |schedule|
  {
    if schedule == [] then s else Run(hash, Step(hash, s, schedule[0]), schedule[1..])
  }

  ghost predicate Fresh(s: seq<Transaction>) {
    forall i | 0 <= i < |s| :: StrictlyIncreasing(s[i].ids) && s[i].next == 0 && !s[i].committed
  }

  ghost predicate Stuck(hash: Hash, s: seq<Transaction>) {
    && (exists i | 0 <= i < |s| :: !s[i].committed)
    && forall i | 0 <= i < |s| :: !CanStep(hash, s, i)
  }

  // What every reachable state satisfies: no lock is held twice.
  ghost predicate Inv(hash: Hash, s: seq<Transaction>) {
    && (forall i | 0 <= i < |s| :: Proper(s[i]))
    && forall i, j, key | 0 <= i < j < |s| && Holds(hash, s[i], key) :: !Holds(hash, s[j], key)
  }

  lemma StepKeepsInv(hash: Hash, s: seq<Transaction>, k: nat)
    requires Inv(hash, s)
    ensures Inv(hash, Step(hash, s, k))
  {
    var s' := Step(hash, s, k);
    if CanStep(hash, s, k) {
      forall i, key | 0 <= i < |s'| && Holds(hash, s'[i], key)
        ensures Holds(hash, s[i], key) || (i == k && s[k].next < |s[k].ids| && key == hash(s[k].ids[s[k].next]))
      {
        if i == k {
          var x :| 0 <= x < s'[k].next && hash(s'[k].ids[x]) == key;
        }
      }
    }
  }

  lemma {:induction false} RunKeepsInv(hash: Hash, s: seq<Transaction>, schedule: seq<nat>)
    requires Inv(hash, s)
    ensures Inv(hash, Run(hash, s, schedule))
    decreases |schedule|
  {
    if schedule != [] {
      StepKeepsInv(hash, s, schedule[0]);
      RunKeepsInv(hash, Step(hash, s, schedule[0]), schedule[1..]);
    }
  }

  // ----- the scans that are touched -----

  // Every transaction locks only scans in `ids`.
  ghost predicate Within(s: seq<Transaction>, ids: iset<ScanId>) {
    forall i, k | 0 <= i < |s| && 0 <= k < |s[i].ids| :: s[i].ids[k] in ids
  }

  lemma {:induction false} RunKeepsWithin(hash: Hash, s: seq<Transaction>, ids: iset<ScanId>, schedule: seq<nat>)
    requires Within(s, ids)
    ensures Within(Run(hash, s, schedule), ids)
    decreases |schedule|
  {
    if schedule != [] {
      RunKeepsWithin(hash, Step(hash, s, schedule[0]), ids, schedule[1..]);
    }
  }

  /**
   Between two of the given scans with the same lock key there is none of them with another key. Other
   scans may collide in any way.
   */
  ghost predicate ConvexOn(hash: Hash, ids: iset<ScanId>) {
    forall a, b, d | a in ids && b in ids && d in ids && a < b < d && hash(a) == hash(d) :: hash(b) == hash(a)
  }

  // The waiting transaction that wants the greatest identifier.
  lemma {:induction false} GreatestWaiter(s: seq<Transaction>, n: nat) returns (m: nat)
    requires n <= |s| && exists i | 0 <= i < n :: !s[i].committed
    requires forall i | 0 <= i < n && !s[i].committed :: s[i].next < |s[i].ids|
    ensures m < n && !s[m].committed
    ensures forall i | 0 <= i < n && !s[i].committed :: s[i].ids[s[i].next] <= s[m].ids[s[m].next]
  {
    if exists i :: 0 <= i < n - 1 && !s[i].committed {
      m := GreatestWaiter(s, n - 1);
      if !s[n - 1].committed && s[n - 1].ids[s[n - 1].next] > s[m].ids[s[m].next] {
        m := n - 1;
      }
    } else {
      m := n - 1;
    }
  }

  // A lock one holds is held by nobody else.
  lemma OwnLockDoesNotBlock(hash: Hash, s: seq<Transaction>, j: nat)
    requires Inv(hash, s) && j < |s| && !s[j].committed && s[j].next < |s[j].ids|
    requires Holds(hash, s[j], hash(s[j].ids[s[j].next]))
    ensures CanStep(hash, s, j)
  {
  }

  // The holder of a lock wants a scan between one it has locked through it and the greatest one wanted.
  lemma HolderGoesOn(hash: Hash, s: seq<Transaction>, ids: iset<ScanId>, j: nat, wanted: ScanId)
    requires ConvexOn(hash, ids) && Within(s, ids) && Inv(hash, s) && wanted in ids
    requires j < |s| && !s[j].committed && s[j].next < |s[j].ids| && s[j].ids[s[j].next] <= wanted
    requires Holds(hash, s[j], hash(wanted))
    ensures CanStep(hash, s, j)
  {
    var t, other := s[j], s[j].ids[s[j].next];
    var k :| 0 <= k < t.next && hash(t.ids[k]) == hash(wanted);
    assert t.ids[k] in ids && other in ids && t.ids[k] < other;
    assert hash(other) == hash(t.ids[k]);
    OwnLockDoesNotBlock(hash, s, j);
  }

  lemma NeverStuck(hash: Hash, s: seq<Transaction>, ids: iset<ScanId>)
    requires ConvexOn(hash, ids) && Within(s, ids) && Inv(hash, s)
    ensures !Stuck(hash, s)
  {
    if i :| 0 <= i < |s| && !s[i].committed && s[i].next == |s[i].ids| {
      assert CanStep(hash, s, i);
    } else if exists i :: 0 <= i < |s| && !s[i].committed {
      var m := GreatestWaiter(s, |s|);
      var wanted := s[m].ids[s[m].next];
      if j :| 0 <= j < |s| && j != m && Holds(hash, s[j], hash(wanted)) {
        HolderGoesOn(hash, s, ids, j, wanted);
      } else {
        assert CanStep(hash, s, m);
      }
    }
  }

  /** If the hash is convex on the scans they touch, transactions in this order never come to a standstill. */
  lemma ConvexHashNeverStuck(hash: Hash, ids: iset<ScanId>, s: seq<Transaction>, schedule: seq<nat>)
    requires ConvexOn(hash, ids) && Fresh(s) && Within(s, ids)
    ensures !Stuck(hash, Run(hash, s, schedule))
  {
    RunKeepsInv(hash, s, schedule);
    RunKeepsWithin(hash, s, ids, schedule);
    NeverStuck(hash, Run(hash, s, schedule), ids);
  }

  /**
   Any three scans on which it is not convex let two transactions block each other: by themselves neither
   can take another step.
   */
  lemma OtherHashGetsStuck(hash: Hash, a: ScanId, b: ScanId, d: ScanId) returns (s: seq<Transaction>, schedule: seq<nat>)
    requires a < b < d && hash(a) == hash(d) && hash(b) != hash(a)
    ensures Fresh(s) && Within(s, iset{a, b, d}) && Stuck(hash, Run(hash, s, schedule))
  {
    s := [Transaction([a, b], 0, false), Transaction([b, d], 0, false)];
    schedule := [0, 1];
    var s1 := Step(hash, s, 0);
    assert s1 == [Transaction([a, b], 1, false), Transaction([b, d], 0, false)];
    assert CanStep(hash, s1, 1) by {
      forall j | 0 <= j < |s1| && j != 1
        ensures !Holds(hash, s1[j], hash(b))
      {
      }
    }
    var s2 := Step(hash, s1, 1);
    assert s2 == [Transaction([a, b], 1, false), Transaction([b, d], 1, false)];
    assert Holds(hash, s2[0], hash(d)) by { assert hash(s2[0].ids[0]) == hash(d); }
    assert Holds(hash, s2[1], hash(b)) by { assert hash(s2[1].ids[0]) == hash(b); }
    assert Run(hash, s, schedule) == s2 by {
      assert schedule[1..] == [1] && [1 as nat][1..] == [];
      assert Run(hash, s1, [1]) == Run(hash, s2, []);
    }
  }

  // Transactions on the given scans never come to a standstill, whichever of them they touch and
  // however they interleave.
  ghost predicate DeadlockFree(hash: Hash, ids: iset<ScanId>) {
    forall s: seq<Transaction>, schedule: seq<nat> | Fresh(s) && Within(s, ids) :: !Stuck(hash, Run(hash, s, schedule))
  }

  /** Locking the given scans in identifier order excludes deadlock exactly if the hash is convex on them. */
  lemma DeadlockFreeIffConvex(hash: Hash, ids: iset<ScanId>)
    ensures DeadlockFree(hash, ids) <==> ConvexOn(hash, ids)
  {
    if ConvexOn(hash, ids) {
      forall s: seq<Transaction>, schedule: seq<nat> | Fresh(s) && Within(s, ids)
        ensures !Stuck(hash, Run(hash, s, schedule))
      {
        ConvexHashNeverStuck(hash, ids, s, schedule);
      }
    } else {
      var a, b, d :| a in ids && b in ids && d in ids && a < b < d && hash(a) == hash(d) && hash(b) != hash(a);
      var s, schedule := OtherHashGetsStuck(hash, a, b, d);
      assert Within(s, ids);
    }
  }

  /** In particular scans that do not collide among themselves are safe, whatever collides elsewhere. */
  lemma NoCollisionNoDeadlock(hash: Hash, ids: iset<ScanId>)
    requires forall a, b | a in ids && b in ids && hash(a) == hash(b) :: a == b
    ensures DeadlockFree(hash, ids)
  {
    DeadlockFreeIffConvex(hash, ids);
  }

  /** Transactions that touch at most two scans between them are safe with any hash. */
  lemma TwoScansNeverDeadlock(hash: Hash, a: ScanId, b: ScanId)
    ensures DeadlockFree(hash, iset{a, b})
  {
    DeadlockFreeIffConvex(hash, iset{a, b});
  }
}
