/**
 Which intelligence records count for a finding: after the scan, one per source, chosen by a fixed
 order of preference, and whether the chosen records contradict one another.

 Sources are canonical and stand for their rank in Go's string order; rank 0 is the empty name. Record
 identifiers are ranks too. A JSON value is a number that identifies it. Times count from Go's zero time.
 */
module Evidence {
  import opened Wrappers
  import opened StringOrder

  type Json = nat

  datatype Assessment = Assessment(cveState: string, severity: string, score: real, vector: string,
                                   ranges: seq<Json>, fixedVersions: seq<string>, signals: seq<Json>)

  datatype Record = Record(id: Rank, source: Rank, feed: bool, assessment: Assessment, observedAt: nat, createdAt: nat,
                           version: nat, changeEvent: Option<nat>)

  datatype Candidate = Candidate(record: Record, specificity: nat)

  // ----- preference -----

  predicate Newer(a: Record, b: Record) {
    if a.observedAt > b.observedAt then true
    else if a.observedAt < b.observedAt then false
    else if a.createdAt > b.createdAt then true
    else a.createdAt == b.createdAt && a.id > b.id
  }

  predicate Preferred(a: Candidate, b: Candidate) {
    if a.record.feed != b.record.feed then a.record.feed
    else if a.specificity != b.specificity then a.specificity > b.specificity
    else Newer(a.record, b.record)
  }

  /** Preference is a strict order, and it decides between any two candidates with different identifiers. */
  lemma PreferenceIsStrictOrder(a: Candidate, b: Candidate, c: Candidate)
    ensures !(Preferred(a, b) && Preferred(b, a))
    ensures Preferred(a, b) && Preferred(b, c) ==> Preferred(a, c)
    ensures a.record.id != b.record.id ==> Preferred(a, b) || Preferred(b, a)
  {
  }

  // ----- selection -----

  // The records with a source, as candidates of one specificity.
  ghost function Lifted(records: seq<Record>, specificity: nat): set<Candidate> {
    set r | r in records && r.source > 0.0 :: Candidate(r, specificity)
  }

  ghost function Candidates(exact: seq<Record>, wildcard: seq<Record>): set<Candidate> {
    Lifted(wildcard, 0) + Lifted(exact, 1)
  }

  lemma LiftedOneMore(records: seq<Record>, i: nat, specificity: nat)
    requires i < |records|
    ensures Lifted(records[..i + 1], specificity) ==
            Lifted(records[..i], specificity) + if records[i].source > 0.0 then {Candidate(records[i], specificity)} else {}
  {
    TakeOneMore(records, i);
  }

  ghost predicate Best(candidates: set<Candidate>, c: Candidate) {
    c in candidates && forall d | d in candidates && d.record.source == c.record.source && d != c :: Preferred(c, d)
  }

  // Identifiers are primary keys: two candidates with the same one are the same record.
  ghost predicate KeyedById(candidates: set<Candidate>) {
    forall c, d | c in candidates && d in candidates && c.record.id == d.record.id :: c == d
  }

  ghost predicate IsBestRecord(candidates: set<Candidate>, r: Record) {
    exists c :: Best(candidates, c) && c.record == r
  }

  ghost predicate HasSource(chosen: seq<Record>, source: Rank) {
    exists r :: r in chosen && r.source == source
  }

  /** One record per source that has any, in the order of the sources, each the best of its source. */
  ghost predicate IsSelection(candidates: set<Candidate>, chosen: seq<Record>) {
    && SortedBySource(chosen)
    && (forall r | r in chosen :: IsBestRecord(candidates, r))
    && (forall c | c in candidates :: HasSource(chosen, c.record.source))
  }

  // What the map from source to candidate holds once the candidates in `done` have been considered.
  ghost predicate HoldsBest(done: set<Candidate>, bySource: map<Rank, Candidate>) {
    && (forall s | s in bySource :: bySource[s].record.source == s && Best(done, bySource[s]))
    && (forall c | c in done :: c.record.source in bySource)
  }

  lemma ConsideredOneMore(done: set<Candidate>, bySource: map<Rank, Candidate>, c: Candidate)
    requires HoldsBest(done, bySource) && KeyedById(done + {c})
    ensures var s := c.record.source;
            HoldsBest(done + {c}, if s !in bySource || Preferred(c, bySource[s]) then bySource[s := c] else bySource)
  {
    var s := c.record.source;
    if s in bySource {
      var b := bySource[s];
      if Preferred(c, b) {
        forall d | d in done && d.record.source == s && d != c
          ensures Preferred(c, d)
        {
          if d != b { PreferenceIsStrictOrder(c, b, d); }
        }
      } else if c != b {
        PreferenceIsStrictOrder(b, c, b);
      }
    }
  }

  // The map after one more record has been looked at.
  function Considered(bySource: map<Rank, Candidate>, c: Candidate): map<Rank, Candidate> {
    var s := c.record.source;
    if s > 0.0 && (s !in bySource || Preferred(c, bySource[s])) then bySource[s := c] else bySource
  }

  lemma ConsideredNext(records: seq<Record>, i: nat, specificity: nat, done: set<Candidate>, bySource: map<Rank, Candidate>)
    requires i < |records| && HoldsBest(done + Lifted(records[..i], specificity), bySource)
    requires KeyedById(done + Lifted(records, specificity))
    ensures HoldsBest(done + Lifted(records[..i + 1], specificity), Considered(bySource, Candidate(records[i], specificity)))
  {
    var before, c := done + Lifted(records[..i], specificity), Candidate(records[i], specificity);
    LiftedOneMore(records, i, specificity);
    if c.record.source > 0.0 {
      assert before + {c} <= done + Lifted(records, specificity);
      ConsideredOneMore(before, bySource, c);
      assert done + Lifted(records[..i + 1], specificity) == before + {c};
    } else {
      assert done + Lifted(records[..i + 1], specificity) == before;
    }
  }

  lemma NothingConsidered(records: seq<Record>, specificity: nat, done: set<Candidate>)
    ensures done + Lifted(records[..0], specificity) == done && records[..|records|] == records
  {
  }

  method Consider(records: seq<Record>, specificity: nat, bySource: map<Rank, Candidate>, ghost done: set<Candidate>)
    returns (bySource': map<Rank, Candidate>)
    requires HoldsBest(done, bySource) && KeyedById(done + Lifted(records, specificity))
    ensures HoldsBest(done + Lifted(records, specificity), bySource')
  {
    bySource' := bySource;
    NothingConsidered(records, specificity, done);
    for i := 0 to |records|
      invariant HoldsBest(done + Lifted(records[..i], specificity), bySource')
    {
      var record := records[i];
      ConsideredNext(records, i, specificity, done, bySource');
      if record.source > 0.0 {
        var candidate := Candidate(record, specificity);
        if record.source !in bySource' || Preferred(candidate, bySource'[record.source]) {
          bySource' := bySource'[record.source := candidate];
        }
      }
    }
  }

  predicate SortedBySource(records: seq<Record>) {
    forall i, j | 0 <= i < j < |records| :: records[i].source < records[j].source
  }

  lemma InsertedInOrder(before: seq<Record>, record: Record, after: seq<Record>)
    requires SortedBySource(before + after)
    requires forall i | 0 <= i < |before| :: before[i].source < record.source
    requires after == [] || record.source < after[0].source
    ensures SortedBySource(before + [record] + after)
  {
    var all := before + after;
    assert forall i | 0 <= i < |before| :: all[i] == before[i];
    assert forall i | 0 <= i < |after| :: all[|before| + i] == after[i];
    forall i | 0 < i < |after|
      ensures after[0].source < after[i].source
    {
      assert all[|before|].source < all[|before| + i].source;
    }
  }

  method InsertBySource(records: seq<Record>, record: Record) returns (r: seq<Record>)
    requires SortedBySource(records) && forall x | x in records :: x.source != record.source
    ensures SortedBySource(r) && forall x :: x in r <==> x in records || x == record
  {
    var k := 0;
    while k < |records| && records[k].source < record.source
      invariant 0 <= k <= |records|
      invariant forall i | 0 <= i < k :: records[i].source < record.source
    {
      k := k + 1;
    }
    assert records == records[..k] + records[k..];
    InsertedInOrder(records[..k], record, records[k..]);
    r := records[..k] + [record] + records[k..];
  }

  method AnyOf<T(==)>(s: set<T>) returns (x: T)
    requires s != {}
    ensures x in s
  {
    x :| x in s;
  }

  // The chosen records sorted by source; the library sort is represented by repeated insertion.
  method SortBySource(bySource: map<Rank, Candidate>) returns (chosen: seq<Record>)
    requires forall s | s in bySource :: bySource[s].record.source == s
    ensures SortedBySource(chosen)
    ensures forall r :: r in chosen <==> r.source in bySource && r == bySource[r.source].record
  {
    chosen := [];
    var left := bySource.Keys;
    while left != {}
      invariant left <= bySource.Keys && SortedBySource(chosen)
      invariant forall r :: r in chosen <==> r.source in bySource && r.source !in left && r == bySource[r.source].record
      decreases left
    {
      var s := AnyOf(left);
      chosen := InsertBySource(chosen, bySource[s].record);
      left := left - {s};
    }
  }

  // ----- what the selection means for the records -----

  /** Feed before snapshot, then exact before wildcard, then the later observed, later created, greater identifier. */
  ghost predicate NotBehind(c: Candidate, d: Candidate) {
    var x, y := c.record, d.record;
    && (y.feed ==> x.feed)
    && (x.feed == y.feed ==> c.specificity >= d.specificity)
    && (x.feed == y.feed && c.specificity == d.specificity ==> x.observedAt >= y.observedAt)
    && (x.feed == y.feed && c.specificity == d.specificity && x.observedAt == y.observedAt ==> x.createdAt >= y.createdAt)
    && (x.feed == y.feed && c.specificity == d.specificity && x.observedAt == y.observedAt && x.createdAt == y.createdAt ==> x.id >= y.id)
  }

  // A record counts unless the scan completed at a later or the same time; a change event is dated by its creation here.
  ghost predicate Counts(r: Record, completedAt: Option<nat>) {
    completedAt.Some? && completedAt.value > 0 ==>
      if r.changeEvent.None? || r.createdAt == 0 then r.observedAt > completedAt.value else r.createdAt > completedAt.value
  }

  ghost predicate Offered(exact: seq<Record>, wildcard: seq<Record>, completedAt: Option<nat>, c: Candidate) {
    && c.record.source > 0.0 && Counts(c.record, completedAt)
    && ((c.specificity == 1 && c.record in exact) || (c.specificity == 0 && c.record in wildcard))
  }

  // The record is behind no other one that counts for its source.
  ghost predicate Foremost(exact: seq<Record>, wildcard: seq<Record>, completedAt: Option<nat>, c: Candidate) {
    && Offered(exact, wildcard, completedAt, c)
    && forall d | Offered(exact, wildcard, completedAt, d) && d.record.source == c.record.source :: NotBehind(c, d)
  }

  ghost predicate IsForemost(exact: seq<Record>, wildcard: seq<Record>, completedAt: Option<nat>, r: Record) {
    exists c: Candidate :: c.record == r && Foremost(exact, wildcard, completedAt, c)
  }

  /** One record per named source with any that counts, in the order of the sources, each the foremost of its source. */
  ghost predicate ChosenWell(exact: seq<Record>, wildcard: seq<Record>, completedAt: Option<nat>, chosen: seq<Record>) {
    && (forall i, j | 0 <= i < j < |chosen| :: chosen[i].source < chosen[j].source)
    && (forall r | r in chosen :: IsForemost(exact, wildcard, completedAt, r))
    && (forall c | Offered(exact, wildcard, completedAt, c) :: HasSource(chosen, c.record.source))
  }

  lemma OfferedIsCandidate(exact: seq<Record>, wildcard: seq<Record>, completedAt: Option<nat>, c: Candidate)
    ensures Offered(exact, wildcard, completedAt, c) <==> c in PostScan(exact, wildcard, completedAt)
  {
  }

  lemma PreferredIsAhead(c: Candidate, d: Candidate)
    ensures Preferred(c, d) ==> NotBehind(c, d)
  {
  }

  lemma SelectionIsChosenWell(exact: seq<Record>, wildcard: seq<Record>, completedAt: Option<nat>, chosen: seq<Record>)
    requires IsSelection(PostScan(exact, wildcard, completedAt), chosen)
    ensures ChosenWell(exact, wildcard, completedAt, chosen)
  {
    var candidates := PostScan(exact, wildcard, completedAt);
    forall r | r in chosen
      ensures IsForemost(exact, wildcard, completedAt, r)
    {
      var c :| Best(candidates, c) && c.record == r;
      OfferedIsCandidate(exact, wildcard, completedAt, c);
      forall d | Offered(exact, wildcard, completedAt, d) && d.record.source == c.record.source
        ensures NotBehind(c, d)
      {
        OfferedIsCandidate(exact, wildcard, completedAt, d);
        PreferredIsAhead(c, d);
      }
      assert Foremost(exact, wildcard, completedAt, c);
    }
    forall c | Offered(exact, wildcard, completedAt, c)
      ensures HasSource(chosen, c.record.source)
    {
      OfferedIsCandidate(exact, wildcard, completedAt, c);
    }
  }

  /**
   What is never passed over: a feed record for a snapshot, an exact record for a wildcard of the same kind,
   and a newer record for an older one of the same kind and list.
   */
  lemma NothingBetterIsPassedOver(exact: seq<Record>, wildcard: seq<Record>, completedAt: Option<nat>, chosen: seq<Record>, r: Record, d: Record)
    requires ChosenWell(exact, wildcard, completedAt, chosen) && r in chosen
    requires (d in exact || d in wildcard) && d.source == r.source && Counts(d, completedAt)
    ensures d.feed ==> r.feed
    ensures d.feed == r.feed && d in exact ==> r in exact
    ensures d.feed == r.feed && (d in exact || r !in exact) ==> d.observedAt <= r.observedAt
  {
    assert IsForemost(exact, wildcard, completedAt, r);
    var c: Candidate :| c.record == r && Foremost(exact, wildcard, completedAt, c);
    if d in exact { AheadOf(exact, wildcard, completedAt, c, Candidate(d, 1)); }
    if d in wildcard { AheadOf(exact, wildcard, completedAt, c, Candidate(d, 0)); }
  }

  lemma AheadOf(exact: seq<Record>, wildcard: seq<Record>, completedAt: Option<nat>, c: Candidate, d: Candidate)
    requires Foremost(exact, wildcard, completedAt, c) && Offered(exact, wildcard, completedAt, d)
    requires d.record.source == c.record.source
    ensures NotBehind(c, d) && Offered(exact, wildcard, completedAt, c)
  {
  }

  /** latestEvidenceForFinding. */
  method LatestEvidence(exact: seq<Record>, wildcard: seq<Record>) returns (chosen: seq<Record>)
    requires KeyedById(Candidates(exact, wildcard))
    ensures IsSelection(Candidates(exact, wildcard), chosen)
    ensures ChosenWell(exact, wildcard, None, chosen)
  {
    var bySource := Consider(wildcard, 0, map[], {});
    assert {} + Lifted(wildcard, 0) == Lifted(wildcard, 0);
    bySource := Consider(exact, 1, bySource, Lifted(wildcard, 0));
    chosen := SortBySource(bySource);
    forall c | c in Candidates(exact, wildcard)
      ensures HasSource(chosen, c.record.source)
    {
      assert bySource[c.record.source].record in chosen;
    }
    SelectionIsChosenWell(exact, wildcard, None, chosen);
  }

  lemma BestIsUnique(candidates: set<Candidate>, c: Candidate, d: Candidate)
    requires Best(candidates, c) && Best(candidates, d) && c.record.source == d.record.source
    ensures c == d
  {
    PreferenceIsStrictOrder(c, d, c);
  }

  // A record of one selection belongs to every other one.
  lemma SelectedByBoth(candidates: set<Candidate>, a: seq<Record>, b: seq<Record>, r: Record)
    requires IsSelection(candidates, a) && IsSelection(candidates, b) && r in a
    ensures r in b
  {
    var c :| Best(candidates, c) && c.record == r;
    var t :| t in b && t.source == c.record.source;
    var d :| Best(candidates, d) && d.record == t;
    BestIsUnique(candidates, c, d);
  }

  lemma FirstIsLeast(a: seq<Record>, r: Record)
    requires SortedBySource(a) && r in a
    ensures a[0] == r || a[0].source < r.source
  {
    var i :| 0 <= i < |a| && a[i] == r;
    if i > 0 { assert a[0].source < a[i].source; }
  }

  lemma {:induction false} SortedListIsUnique(a: seq<Record>, b: seq<Record>)
    requires SortedBySource(a) && SortedBySource(b) && forall r :: r in a <==> r in b
    ensures a == b
  {
    EmptyTogether(a, b);
    if a != [] {
      FirstIsLeast(a, b[0]);
      FirstIsLeast(b, a[0]);
      SameTails(a, b);
      SortedListIsUnique(a[1..], b[1..]);
      assert a == [a[0]] + a[1..] && b == [b[0]] + b[1..];
    }
  }

  /** The selection is determined by the set of candidates; the order of arrival plays no part. */
  lemma SelectionIsUnique(candidates: set<Candidate>, a: seq<Record>, b: seq<Record>)
    requires IsSelection(candidates, a) && IsSelection(candidates, b)
    ensures a == b
  {
    forall r
      ensures r in a <==> r in b
    {
      if r in a { SelectedByBoth(candidates, a, b, r); }
      if r in b { SelectedByBoth(candidates, b, a, r); }
    }
    SortedListIsUnique(a, b);
  }

  /** So it is a function of that set. */
  ghost function Selected(candidates: set<Candidate>): seq<Record> {
    if exists s :: IsSelection(candidates, s) then
      var s :| IsSelection(candidates, s);
      s
    else []
  }

  lemma SelectedIs(candidates: set<Candidate>, chosen: seq<Record>)
    requires IsSelection(candidates, chosen)
    ensures Selected(candidates) == chosen
  {
    SelectionIsUnique(candidates, Selected(candidates), chosen);
  }

  // ----- records known only after the scan -----

  function DetectedAt(r: Record): nat { if r.changeEvent.Some? && r.createdAt != 0 then r.createdAt else r.observedAt }

  function After(records: seq<Record>, t: nat): (late: seq<Record>)
    ensures forall r :: r in late <==> r in records && DetectedAt(r) > t
  {
    if records == [] then []
    else After(records[..|records| - 1], t) + if DetectedAt(records[|records| - 1]) > t then [records[|records| - 1]] else []
  }

  method FilterAfter(records: seq<Record>, t: nat) returns (late: seq<Record>)
    ensures late == After(records, t)
  {
    late := [];
    for i := 0 to |records|
      invariant late == After(records[..i], t)
    {
      assert records[..i + 1][..i] == records[..i];
      if DetectedAt(records[i]) > t {
        late := late + [records[i]];
      }
    }
    assert records[..|records|] == records;
  }

  // The candidates that count: all of them while the scan has not completed, later ones once it has.
  ghost function PostScan(exact: seq<Record>, wildcard: seq<Record>, completedAt: Option<nat>): set<Candidate> {
    if completedAt.None? || completedAt.value == 0 then Candidates(exact, wildcard)
    else set c | c in Candidates(exact, wildcard) && DetectedAt(c.record) > completedAt.value
  }

  /**
   latestPostScanEvidenceForFinding: the selection from the candidates that were detected after the scan
   completed, or from all of them while it has not.
   */
  method LatestPostScanEvidence(exact: seq<Record>, wildcard: seq<Record>, completedAt: Option<nat>) returns (chosen: seq<Record>)
    requires KeyedById(Candidates(exact, wildcard))
    ensures IsSelection(PostScan(exact, wildcard, completedAt), chosen)
    ensures ChosenWell(exact, wildcard, completedAt, chosen)
  {
    if completedAt.None? || completedAt.value == 0 {
      chosen := LatestEvidence(exact, wildcard);
      SelectionIsChosenWell(exact, wildcard, completedAt, chosen);
      return;
    }
    var lateExact := FilterAfter(exact, completedAt.value);
    var lateWildcard := FilterAfter(wildcard, completedAt.value);
    assert Candidates(lateExact, lateWildcard) == PostScan(exact, wildcard, completedAt);
    chosen := LatestEvidence(lateExact, lateWildcard);
    SelectionIsChosenWell(exact, wildcard, completedAt, chosen);
  }

  // ----- conflicts -----

  /** Two assessments agree; fixed versions are compared without regard to their order. */
  predicate Agree(a: Assessment, b: Assessment) {
    && a.cveState == b.cveState && a.severity == b.severity && a.score == b.score && a.vector == b.vector
    && a.ranges == b.ranges && multiset(a.fixedVersions) == multiset(b.fixedVersions) && a.signals == b.signals
  }

  // Equal but for the order of the fixed versions.
  ghost predicate SaysTheSame(a: Assessment, b: Assessment) {
    a.(fixedVersions := b.fixedVersions) == b && forall v :: multiset(a.fixedVersions)[v] == multiset(b.fixedVersions)[v]
  }

  lemma AgreeingSaysTheSame(a: Assessment, b: Assessment)
    ensures Agree(a, b) <==> SaysTheSame(a, b)
  {
    if forall v :: multiset(a.fixedVersions)[v] == multiset(b.fixedVersions)[v] {
      assert multiset(a.fixedVersions) == multiset(b.fixedVersions);
    }
  }

  /** intelligenceEvidenceConflicts compares with the first record only, and that finds every disagreement. */
  method Conflicts(records: seq<Record>) returns (conflict: bool)
    ensures conflict <==> exists i, j :: 0 <= i < j < |records| && !Agree(records[i].assessment, records[j].assessment)
    ensures !conflict <==> forall i, j | 0 <= i < j < |records| :: SaysTheSame(records[i].assessment, records[j].assessment)
  {
    forall i, j | 0 <= i < j < |records|
      ensures Agree(records[i].assessment, records[j].assessment) <==> SaysTheSame(records[i].assessment, records[j].assessment)
    {
      AgreeingSaysTheSame(records[i].assessment, records[j].assessment);
    }
    if |records| < 2 { return false; }
    var base := records[0];
    for i := 1 to |records|
      invariant forall j | 0 <= j < i :: Agree(base.assessment, records[j].assessment)
    {
      if !Agree(base.assessment, records[i].assessment) {
        return true;
      }
    }
    return false;
  }
}
