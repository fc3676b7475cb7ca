/**
 What the current intelligence says about a finding (its posture), derived from the chosen evidence, and
 the append-only log of posture changes that has to tell the same story as the current rows.

 The explanatory reason text is left out. Affected ranges, fixed versions, version names and the
 spelling of a version or a source list are looked up through `Reading`.
 */
module Posture {
  import opened Wrappers
  import opened StringOrder
  import opened Severity
  import opened Evidence
  import R = AffectedRanges

  datatype State = NeedsRescan | Disputed | Rejected | NotAffected | FixAvailable
                 | SeverityIncreased | SeverityReduced | Unchanged

  datatype Finding = Finding(id: nat, severity: string, score: real, knownFixes: set<string>, identity: R.Identity)

  datatype Reading = Reading(range: Json -> R.Range,
                             fixes: (R.Identity, seq<Json>, seq<string>) -> seq<string>,
                             versionName: nat -> string,
                             normal: string -> string,
                             join: seq<Rank> -> string)

  datatype Posture = Posture(state: State, assessment: Assessment, source: string, observedAt: nat,
                             version: Option<nat>, versionName: string, conflictSources: seq<Rank>, changeEvent: Option<nat>)

  // ----- the state -----

  function RangesOf(reading: Reading, ranges: seq<Json>): (rs: seq<R.Range>)
    ensures |rs| == |ranges| && forall i | 0 <= i < |rs| :: rs[i] == reading.range(ranges[i])
  {
    seq(|ranges|, i requires 0 <= i < |ranges| => reading.range(ranges[i]))
  }

  predicate FixesAreNew(reading: Reading, known: set<string>, current: seq<string>) {
    exists v | v in current :: reading.normal(v) !in known
  }

  /** derivePostureStateForIdentity. */
  function DeriveState(reading: Reading, f: Finding, a: Assessment): State {
    if a.cveState == "disputed" then Disputed
    else if a.cveState == "rejected" then Rejected
    else if a.cveState == "not_affected" then NotAffected
    else if a.cveState != "affected" then NeedsRescan
    else
      var applies := if a.ranges == [] then R.Affected else R.Aggregate(f.identity, RangesOf(reading, a.ranges));
      var before, now := SeverityRank(f.severity), SeverityRank(a.severity);
      if applies == R.Unknown then NeedsRescan
      else if applies == R.NotAffected then NotAffected
      else if FixesAreNew(reading, f.knownFixes, a.fixedVersions) then FixAvailable
      else if now > before || (now == before && a.score > f.score) then SeverityIncreased
      else if now < before || (now == before && a.score > 0.0 && a.score < f.score) then SeverityReduced
      else Unchanged
  }

  /**
   A finding is cleared only on a clear statement: the source says so, or it gives ranges and every one
   of them that concerns this package is known to leave its version out.
   */
  lemma ClearedOnlyWithoutDoubt(reading: Reading, f: Finding, a: Assessment)
    ensures DeriveState(reading, f, a) == NotAffected <==>
            || a.cveState == "not_affected"
            || (&& a.cveState == "affected" && a.ranges != []
                && forall i | 0 <= i < |a.ranges| ::
                     var r := R.EvaluateRange(f.identity, reading.range(a.ranges[i]));
                     r.relevant ==> r.state == R.NotAffected)
  {
    var ranges := RangesOf(reading, a.ranges);
    R.NotAffectedOnlyWithoutDoubt(f.identity, ranges);
    assert forall i | 0 <= i < |ranges| :: ranges[i] == reading.range(a.ranges[i]);
  }

  // Some range given by the source hits the package; none does, and some is in doubt.
  ghost predicate SomeHit(reading: Reading, f: Finding, a: Assessment) {
    exists i | 0 <= i < |a.ranges| :: R.Hits(f.identity, reading.range(a.ranges[i]))
  }

  ghost predicate SomeDoubt(reading: Reading, f: Finding, a: Assessment) {
    exists i | 0 <= i < |a.ranges| :: R.InDoubt(f.identity, reading.range(a.ranges[i]))
  }

  /** Each state, by what the source says about the vulnerability, the package, the fix and the severity. */
  lemma WhatStatesMean(reading: Reading, f: Finding, a: Assessment)
    ensures var state, before, now := DeriveState(reading, f, a), SeverityRank(f.severity), SeverityRank(a.severity);
            var open := a.cveState == "affected" && (a.ranges == [] || SomeHit(reading, f, a));
            var fix := exists v :: v in a.fixedVersions && reading.normal(v) !in f.knownFixes;
            && (state == Disputed <==> a.cveState == "disputed")
            && (state == Rejected <==> a.cveState == "rejected")
            && (state == NotAffected <==> a.cveState == "not_affected"
                                          || (a.cveState == "affected" && !open && !SomeDoubt(reading, f, a)))
            && (state == NeedsRescan <==> a.cveState !in {"affected", "not_affected", "disputed", "rejected"}
                                          || (a.cveState == "affected" && !open && SomeDoubt(reading, f, a)))
            && (state == FixAvailable <==> open && fix)
            && (state == SeverityIncreased <==> open && !fix && (before < now || (before == now && f.score < a.score)))
            && (state == SeverityReduced <==> open && !fix && (now < before || (before == now && 0.0 < a.score < f.score)))
  {
    var ranges := RangesOf(reading, a.ranges);
    assert forall i | 0 <= i < |ranges| :: ranges[i] == reading.range(a.ranges[i]);
    R.AggregateSays(f.identity, ranges);
  }

  predicate Exceeds(rank: nat, score: real, rank': nat, score': real) { rank > rank' || (rank == rank' && score > score') }

  // For a finding that is affected and has no new fix the state compares severity first and score second.
  lemma SeverityStateCompares(reading: Reading, f: Finding, a: Assessment)
    requires a.cveState == "affected" && !FixesAreNew(reading, f.knownFixes, a.fixedVersions)
    requires a.ranges == [] || R.Aggregate(f.identity, RangesOf(reading, a.ranges)) == R.Affected
    ensures var state, before, now := DeriveState(reading, f, a), SeverityRank(f.severity), SeverityRank(a.severity);
            && (state == SeverityIncreased <==> Exceeds(now, a.score, before, f.score))
            && (state == SeverityReduced <==> Exceeds(before, f.score, now, a.score) && (now == before ==> a.score > 0.0))
            && (state == SeverityIncreased || state == SeverityReduced || state == Unchanged)
  {
  }

  function Standing(s: State): int { if s == SeverityIncreased then 1 else if s == SeverityReduced then -1 else 0 }

  /**
   A worse assessment is not always the worse news. The one exception: within the severity of the finding, an
   assessment without a score leaves the state unchanged, while any score below the finding's own reduces it.
   */
  lemma WorseIsWorseIff(reading: Reading, f: Finding, a: Assessment, worse: Assessment)
    requires a.cveState == "affected" && worse.cveState == "affected" && a.ranges == [] && worse.ranges == []
    requires !FixesAreNew(reading, f.knownFixes, a.fixedVersions) && !FixesAreNew(reading, f.knownFixes, worse.fixedVersions)
    requires Exceeds(SeverityRank(worse.severity), worse.score, SeverityRank(a.severity), a.score)
    ensures Standing(DeriveState(reading, f, a)) <= Standing(DeriveState(reading, f, worse)) <==>
            !(&& SeverityRank(a.severity) == SeverityRank(f.severity) == SeverityRank(worse.severity)
              && a.score <= 0.0 < worse.score < f.score)
  {
    SeverityStateCompares(reading, f, a);
    SeverityStateCompares(reading, f, worse);
  }

  /** Sources that agree lead to the same state, whichever of them is taken to represent the rest. */
  lemma AgreementFixesState(reading: Reading, f: Finding, a: Assessment, b: Assessment)
    requires Agree(a, b)
    ensures DeriveState(reading, f, a) == DeriveState(reading, f, b)
  {
    forall v
      ensures v in a.fixedVersions <==> v in b.fixedVersions
    {
      assert v in a.fixedVersions <==> v in multiset(a.fixedVersions);
      assert v in b.fixedVersions <==> v in multiset(b.fixedVersions);
    }
  }

  // ----- the posture -----

  ghost predicate Disagree(latest: seq<Record>) {
    exists i, j :: 0 <= i < j < |latest| && !Agree(latest[i].assessment, latest[j].assessment)
  }

  function Sources(latest: seq<Record>): seq<Rank> {
    seq(|latest|, i requires 0 <= i < |latest| => latest[i].source)
  }

  function NewestObserved(latest: seq<Record>): (t: nat)
    ensures forall i | 0 <= i < |latest| :: latest[i].observedAt <= t
    ensures t == 0 || exists i | 0 <= i < |latest| :: latest[i].observedAt == t
  {
    if latest == [] then 0 else
    var earlier, last := NewestObserved(latest[..|latest| - 1]), latest[|latest| - 1].observedAt;
    if last > earlier then last else earlier
  }

  // The last of the newest records that stem from a change event.
  function NewestWithEvent(latest: seq<Record>): (r: Option<Record>)
    ensures r.Some? ==> r.value in latest && r.value.changeEvent.Some?
    ensures forall i | 0 <= i < |latest| && latest[i].changeEvent.Some? :: r.Some? && latest[i].observedAt <= r.value.observedAt
  {
    if latest == [] then None else
    var earlier, last := NewestWithEvent(latest[..|latest| - 1]), latest[|latest| - 1];
    if last.changeEvent.Some? && (earlier.None? || earlier.value.observedAt <= last.observedAt) then Some(last) else earlier
  }

  const NO_ASSESSMENT := Assessment("unknown", "UNKNOWN", 0.0, "", [], [], [])

  /** What the evidence says, all sources together; sources that contradict one another leave it open. */
  ghost function Derived(reading: Reading, f: Finding, latest: seq<Record>): Posture
    requires latest != []
  {
    var sources := Sources(latest);
    if Disagree(latest) then
      Posture(NeedsRescan, NO_ASSESSMENT, reading.join(sources), NewestObserved(latest), None, "", sources, None)
    else
      var first := latest[0];
      var a := first.assessment;
      var fixes := if a.cveState == "affected" && a.ranges != [] then reading.fixes(f.identity, a.ranges, a.fixedVersions)
                   else a.fixedVersions;
      var state, shown := DeriveState(reading, f, a), a.(fixedVersions := fixes);
      if |latest| == 1 then
        Posture(state, shown, reading.join(sources), first.observedAt, Some(first.version), reading.versionName(first.version),
                [], first.changeEvent)
      else
        Posture(state, shown, reading.join(sources), NewestObserved(latest), None, "", [],
                if NewestWithEvent(latest).Some? then NewestWithEvent(latest).value.changeEvent else None)
  }

  method NewestOf(latest: seq<Record>, start: nat) returns (t: nat)
    ensures t == Max(start, NewestObserved(latest))
  {
    t := start;
    for i := 0 to |latest|
      invariant t == Max(start, NewestObserved(latest[..i]))
    {
      assert latest[..i + 1][..i] == latest[..i];
      if latest[i].observedAt > t { t := latest[i].observedAt; }
    }
    assert latest[..|latest|] == latest;
  }

  method NewestEvent(latest: seq<Record>) returns (event: Option<nat>)
    ensures event == if NewestWithEvent(latest).Some? then NewestWithEvent(latest).value.changeEvent else None
  {
    event := None;
    var at := 0;
    for i := 0 to |latest|
      invariant var r := NewestWithEvent(latest[..i]);
                if r.Some? then event == r.value.changeEvent && at == r.value.observedAt else event == None && at == 0
    {
      assert latest[..i + 1][..i] == latest[..i];
      if latest[i].changeEvent.Some? && !(latest[i].observedAt < at) {
        at := latest[i].observedAt;
        event := latest[i].changeEvent;
      }
    }
    assert latest[..|latest|] == latest;
  }

  /** derivePostureForIdentity. */
  method DerivePosture(reading: Reading, f: Finding, latest: seq<Record>) returns (p: Posture)
    requires latest != []
    ensures p == Derived(reading, f, latest)
  {
    var sources := Sources(latest);
    var conflict := Conflicts(latest);
    if |latest| > 1 && conflict {
      var at := NewestOf(latest, 0);
      return Posture(NeedsRescan, NO_ASSESSMENT, reading.join(sources), at, None, "", sources, None);
    }
    var first := latest[0];
    var a := first.assessment;
    p := Posture(DeriveState(reading, f, a), a, reading.join(sources), first.observedAt, Some(first.version),
                 reading.versionName(first.version), [], first.changeEvent);
    if a.cveState == "affected" && |a.ranges| > 0 {
      p := p.(assessment := a.(fixedVersions := reading.fixes(f.identity, a.ranges, a.fixedVersions)));
    }
    if |latest| > 1 {
      var at := NewestOf(latest, first.observedAt);
      var event := NewestEvent(latest);
      p := p.(observedAt := at, version := None, versionName := "", changeEvent := event);
    }
  }

  // Of the records with a change event none is newer, and none as new comes later.
  ghost predicate IsNewestEvent(latest: seq<Record>, i: int) {
    && 0 <= i < |latest| && latest[i].changeEvent.Some?
    && forall j | 0 <= j < |latest| && latest[j].changeEvent.Some? ::
         latest[j].observedAt < latest[i].observedAt || (latest[j].observedAt == latest[i].observedAt && j <= i)
  }

  lemma {:induction false} NewestHasPlace(latest: seq<Record>) returns (i: nat)
    requires NewestWithEvent(latest).Some?
    ensures IsNewestEvent(latest, i) && latest[i] == NewestWithEvent(latest).value
  {
    var init, last := latest[..|latest| - 1], latest[|latest| - 1];
    if last.changeEvent.Some? && (NewestWithEvent(init).None? || NewestWithEvent(init).value.observedAt <= last.observedAt) {
      i := |latest| - 1;
    } else {
      i := NewestHasPlace(init);
    }
  }

  /**
   What a posture says holds for all of its sources. If they contradict one another it names them and asks
   for a new scan; otherwise state, severity and score are the same whichever source is asked. It is as
   recent as the newest record, and its change event is that of the newest record which has one.
   */
  lemma PostureSpeaksForAll(reading: Reading, f: Finding, latest: seq<Record>)
    requires latest != []
    ensures var p := Derived(reading, f, latest);
            && (Disagree(latest) ==> p.state == NeedsRescan && p.conflictSources == Sources(latest) && p.changeEvent.None?)
            && (!Disagree(latest) ==> p.conflictSources == [] && forall i | 0 <= i < |latest| ::
                  var a := latest[i].assessment;
                  p.state == DeriveState(reading, f, a) && p.assessment.severity == a.severity && p.assessment.score == a.score)
            && (forall i | 0 <= i < |latest| :: latest[i].observedAt <= p.observedAt)
            && (exists i | 0 <= i < |latest| :: latest[i].observedAt == p.observedAt)
            && (!Disagree(latest) && (exists i | 0 <= i < |latest| :: latest[i].changeEvent.Some?) ==> p.changeEvent.Some?)
            && (p.changeEvent.Some? ==> exists i :: IsNewestEvent(latest, i) && latest[i].changeEvent == p.changeEvent)
  {
    if |latest| > 1 && NewestWithEvent(latest).Some? { var i := NewestHasPlace(latest); }
    if |latest| == 1 && latest[0].changeEvent.Some? { assert IsNewestEvent(latest, 0); }
    if !Disagree(latest) {
      forall i | 0 <= i < |latest|
        ensures Agree(latest[0].assessment, latest[i].assessment)
        ensures DeriveState(reading, f, latest[0].assessment) == DeriveState(reading, f, latest[i].assessment)
      {
        if i > 0 { assert Agree(latest[0].assessment, latest[i].assessment); }
        AgreementFixesState(reading, f, latest[0].assessment, latest[i].assessment);
      }
    }
    assert latest[0].observedAt <= NewestObserved(latest);
  }

  /** The posture field by field, from the records alone. */
  lemma WhatPosturesShow(reading: Reading, f: Finding, latest: seq<Record>)
    requires latest != []
    ensures var p, first := Derived(reading, f, latest), latest[0];
            var a, several := first.assessment, |latest| > 1;
            var conflict := exists i, j :: 0 <= i < j < |latest| && !SaysTheSame(latest[i].assessment, latest[j].assessment);
            && p.source == reading.join(seq(|latest|, i requires 0 <= i < |latest| => latest[i].source))
            && (conflict ==>
                  && p.state == NeedsRescan && p.assessment == Assessment("unknown", "UNKNOWN", 0.0, "", [], [], [])
                  && p.version == None && p.versionName == "" && p.changeEvent == None
                  && p.conflictSources == seq(|latest|, i requires 0 <= i < |latest| => latest[i].source))
            && (!conflict ==>
                  && p.state == DeriveState(reading, f, a) && p.conflictSources == []
                  && p.assessment == Assessment(a.cveState, a.severity, a.score, a.vector, a.ranges,
                                                if a.cveState == "affected" && a.ranges != []
                                                then reading.fixes(f.identity, a.ranges, a.fixedVersions) else a.fixedVersions,
                                                a.signals)
                  && p.version == (if several then None else Some(first.version))
                  && p.versionName == (if several then "" else reading.versionName(first.version))
                  && (!several ==> p.changeEvent == first.changeEvent))
  {
    forall i, j | 0 <= i < j < |latest|
      ensures Agree(latest[i].assessment, latest[j].assessment) <==> SaysTheSame(latest[i].assessment, latest[j].assessment)
    {
      AgreeingSaysTheSame(latest[i].assessment, latest[j].assessment);
    }
    assert Sources(latest) == seq(|latest|, i requires 0 <= i < |latest| => latest[i].source);
  }

  /** The posture is determined by the set of evidence records, in whatever order they arrive. */
  lemma DerivedIgnoresOrder(reading: Reading, f: Finding, candidates: set<Candidate>, a: seq<Record>, b: seq<Record>)
    requires IsSelection(candidates, a) && IsSelection(candidates, b) && a != [] && b != []
    ensures Derived(reading, f, a) == Derived(reading, f, b)
  {
    SelectionIsUnique(candidates, a, b);
  }

  // ----- the log -----

  /** postureChanged: the change event is not compared, nor the order of the fixed versions. */
  predicate Changed(before: Posture, after: Posture) {
    || before.state != after.state || !Agree(before.assessment, after.assessment) || before.source != after.source
    || before.observedAt != after.observedAt || before.versionName != after.versionName
    || before.version != after.version || before.conflictSources != after.conflictSources
  }

  /** Only the change event and the order of the fixed versions can differ without counting as a change. */
  lemma WhatCountsAsChange(before: Posture, after: Posture)
    ensures !Changed(before, after) <==>
              && SaysTheSame(before.assessment, after.assessment)
              && before.(changeEvent := after.changeEvent, assessment := after.assessment) == after
  {
    AgreeingSaysTheSame(before.assessment, after.assessment);
  }

  // The part of an assessment that an event records.
  datatype Shown = Shown(cveState: string, severity: string, score: real, vector: string,
                         ranges: seq<Json>, fixedVersions: seq<string>)

  const NOTHING := Shown("", "", 0.0, "", [], [])

  function ShownOf(a: Assessment): Shown {
    Shown(a.cveState, a.severity, a.score, a.vector, a.ranges, a.fixedVersions)
  }

  datatype Event = Event(finding: nat, previousState: Option<State>, previous: Shown, state: State, shown: Shown,
                         source: string, observedAt: nat, version: Option<nat>, conflictSources: seq<Rank>,
                         changeEvent: Option<nat>)

  /** postureEventForTransition. */
  function TransitionEvent(finding: nat, before: Option<Posture>, after: Posture): Event {
    Event(finding, if before.Some? then Some(before.value.state) else None,
          if before.Some? then ShownOf(before.value.assessment) else NOTHING,
          after.state, ShownOf(after.assessment), after.source, after.observedAt, after.version,
          after.conflictSources, after.changeEvent)
  }

  /** An event field by field: what was shown before, if anything, and what is shown now. */
  lemma WhatEventsShow(finding: nat, before: Option<Posture>, after: Posture)
    ensures var e, a := TransitionEvent(finding, before, after), after.assessment;
            && e.finding == finding && e.state == after.state && e.source == after.source && e.observedAt == after.observedAt
            && e.version == after.version && e.conflictSources == after.conflictSources && e.changeEvent == after.changeEvent
            && e.shown == Shown(a.cveState, a.severity, a.score, a.vector, a.ranges, a.fixedVersions)
            && (before.None? ==> e.previousState == None && e.previous == Shown("", "", 0.0, "", [], []))
            && (before.Some? ==>
                  var b := before.value.assessment;
                  && e.previousState == Some(before.value.state)
                  && e.previous == Shown(b.cveState, b.severity, b.score, b.vector, b.ranges, b.fixedVersions))
  {
  }

  function History(events: seq<Event>, finding: nat): seq<Event> {
    if events == [] then []
    else
      var last := events[|events| - 1];
      History(events[..|events| - 1], finding) + if last.finding == finding then [last] else []
  }

  // An event takes up where the event before it left off.
  predicate Follows(previous: Event, next: Event) {
    next.previousState == Some(previous.state) && next.previous == previous.shown
  }

  // An event shows a row.
  predicate Describes(e: Event, p: Posture) {
    && e.state == p.state && e.shown == ShownOf(p.assessment) && e.source == p.source && e.observedAt == p.observedAt
    && e.version == p.version && e.conflictSources == p.conflictSources && e.changeEvent == p.changeEvent
  }

  /** A finding's events begin from nothing, follow one another, and end at its row. */
  ghost predicate TellsStory(history: seq<Event>, row: Option<Posture>) {
    && (history != [] ==> history[0].previousState == None && history[0].previous == NOTHING)
    && (forall i | 0 < i < |history| :: Follows(history[i - 1], history[i]))
    && (row.None? <==> history == [])
    && (row.Some? ==> Describes(history[|history| - 1], row.value))
  }

  lemma HistoryGrows(events: seq<Event>, e: Event, finding: nat)
    ensures History(events + [e], finding) == History(events, finding) + if e.finding == finding then [e] else []
  {
    assert (events + [e])[..|events|] == events;
  }

  // One finding of a refresh with the evidence loaded for it.
  datatype Case = Case(finding: Finding, requested: bool, exact: seq<Record>, wildcard: seq<Record>, completedAt: Option<nat>)

  ghost predicate Loaded(cases: seq<Case>) {
    && (forall i, j | 0 <= i < j < |cases| :: cases[i].finding.id != cases[j].finding.id)
    && (forall i | 0 <= i < |cases| :: KeyedById(Candidates(cases[i].exact, cases[i].wildcard)))
  }

  function FindingsOf(cases: seq<Case>): set<nat> { set i | 0 <= i < |cases| :: cases[i].finding.id }

  // What the evidence of a requested finding says, if there is any.
  ghost function Expected(reading: Reading, c: Case): Option<Posture> {
    var latest := Selected(PostScan(c.exact, c.wildcard, c.completedAt));
    if c.requested && latest != [] then Some(Derived(reading, c.finding, latest)) else None
  }

  // It is what the records chosen from those at hand lead to.
  ghost predicate ExpectedFrom(reading: Reading, c: Case, chosen: seq<Record>) {
    && ChosenWell(c.exact, c.wildcard, c.completedAt, chosen)
    && Expected(reading, c) == if chosen == [] then None else Some(Derived(reading, c.finding, chosen))
  }

  ghost predicate UpToDate(reading: Reading, c: Case, row: Option<Posture>) {
    Expected(reading, c).Some? ==> row.Some? && !Changed(row.value, Expected(reading, c).value)
  }

  function RowIn(rows: map<nat, Posture>, finding: nat): Option<Posture> {
    if finding in rows then Some(rows[finding]) else None
  }

  // Case by case; EachIsUpToDate says what it amounts to.
  ghost predicate AllUpToDate(reading: Reading, cases: seq<Case>, rows: map<nat, Posture>) {
    cases == [] ||
    (var last := cases[|cases| - 1];
     AllUpToDate(reading, cases[..|cases| - 1], rows) && UpToDate(reading, last, RowIn(rows, last.finding.id)))
  }

  lemma {:induction false} EachIsUpToDate(reading: Reading, cases: seq<Case>, rows: map<nat, Posture>)
    ensures AllUpToDate(reading, cases, rows) <==>
            forall i | 0 <= i < |cases| :: UpToDate(reading, cases[i], RowIn(rows, cases[i].finding.id))
  {
    if cases != [] {
      EachIsUpToDate(reading, cases[..|cases| - 1], rows);
      assert forall i | 0 <= i < |cases| - 1 :: cases[i] == cases[..|cases| - 1][i];
    }
  }

  lemma {:induction false} OthersStayUpToDate(reading: Reading, cases: seq<Case>, rows: map<nat, Posture>, rows': map<nat, Posture>)
    requires AllUpToDate(reading, cases, rows)
    requires forall i | 0 <= i < |cases| :: RowIn(rows', cases[i].finding.id) == RowIn(rows, cases[i].finding.id)
    ensures AllUpToDate(reading, cases, rows')
  {
    if cases != [] { OthersStayUpToDate(reading, cases[..|cases| - 1], rows, rows'); }
  }

  lemma OneMoreUpToDate(reading: Reading, cases: seq<Case>, k: nat, rows: map<nat, Posture>)
    requires k < |cases|
    ensures AllUpToDate(reading, cases[..k + 1], rows) <==>
            AllUpToDate(reading, cases[..k], rows) && UpToDate(reading, cases[k], RowIn(rows, cases[k].finding.id))
  {
    assert cases[..k + 1][..k] == cases[..k];
  }

  datatype Change = Change(finding: nat, previousState: Option<State>, state: State, changeEvent: Option<nat>)

  // The change that an event reports to the projection of policy impacts.
  function ChangeOf(e: Event): Change { Change(e.finding, e.previousState, e.state, e.changeEvent) }

  ghost predicate Reports(changes: seq<Change>, before: seq<Event>, after: seq<Event>) {
    && before <= after && |changes| == |after| - |before|
    && forall i | 0 <= i < |changes| :: changes[i] == ChangeOf(after[|before| + i])
  }

  lemma ReportsJoin(changes: seq<Change>, more: seq<Change>, before: seq<Event>, middle: seq<Event>, after: seq<Event>)
    requires Reports(changes, before, middle) && Reports(more, middle, after)
    ensures Reports(changes + more, before, after)
  {
  }

  class PostureStore {
    var rows: map<nat, Posture>
    var events: seq<Event>

    function Row(finding: nat): Option<Posture>
      reads this
    {
      RowIn(rows, finding)
    }

    ghost predicate Valid()
      reads this
    {
      forall f :: TellsStory(History(events, f), Row(f))
    }

    constructor ()
      ensures Valid() && rows == map[] && events == []
    {
      rows, events := map[], [];
    }

    // Writes a row and the event that leads to it.
    method Transition(finding: nat, posture: Posture)
      requires Valid()
      modifies this
      ensures Valid() && rows == old(rows)[finding := posture]
      ensures events == old(events) + [TransitionEvent(finding, old(Row(finding)), posture)]
    {
      ghost var was := events;
      var event := TransitionEvent(finding, Row(finding), posture);
      rows := rows[finding := posture];
      events := events + [event];
      forall f
        ensures TellsStory(History(events, f), Row(f))
      {
        HistoryGrows(was, event, f);
        assert TellsStory(History(was, f), old(Row(f)));
      }
    }

    /** The body of the refresh loop: a row is written, and an event appended, only for a change. */
    method RefreshFinding(reading: Reading, c: Case) returns (changes: seq<Change>)
      requires Valid() && KeyedById(Candidates(c.exact, c.wildcard))
      modifies this
      ensures Valid() && UpToDate(reading, c, Row(c.finding.id)) && Reports(changes, old(events), events)
      ensures !c.requested ==> Expected(reading, c) == None
      ensures c.requested ==> exists chosen :: ExpectedFrom(reading, c, chosen)
      ensures forall f | f != c.finding.id :: Row(f) == old(Row(f))
      ensures if old(UpToDate(reading, c, Row(c.finding.id))) then events == old(events) && rows == old(rows)
              else && rows == old(rows)[c.finding.id := Expected(reading, c).value]
                   && events == old(events) + [TransitionEvent(c.finding.id, old(Row(c.finding.id)), Expected(reading, c).value)]
                   && changes == [Change(c.finding.id,
                                         if old(Row(c.finding.id)).Some? then Some(old(Row(c.finding.id)).value.state) else None,
                                         Expected(reading, c).value.state, Expected(reading, c).value.changeEvent)]
    {
      if !c.requested { return []; }
      var latest := LatestPostScanEvidence(c.exact, c.wildcard, c.completedAt);
      SelectedIs(PostScan(c.exact, c.wildcard, c.completedAt), latest);
      assert ExpectedFrom(reading, c, latest);
      if |latest| == 0 { return []; }
      var posture := DerivePosture(reading, c.finding, latest);
      var existing := Row(c.finding.id);
      if existing.Some? && !Changed(existing.value, posture) { return []; }
      Transition(c.finding.id, posture);
      return [Change(c.finding.id, if existing.Some? then Some(existing.value.state) else None, posture.state, posture.changeEvent)];
    }

    // One turn of the refresh loop.
    method RefreshNext(reading: Reading, cases: seq<Case>, k: nat) returns (changes: seq<Change>)
      requires Valid() && Loaded(cases) && k < |cases| && AllUpToDate(reading, cases[..k], rows)
      modifies this
      ensures Valid() && Reports(changes, old(events), events) && AllUpToDate(reading, cases[..k + 1], rows)
      ensures forall f | f != cases[k].finding.id :: Row(f) == old(Row(f))
      ensures UpToDate(reading, cases[k], old(Row(cases[k].finding.id))) ==>
                changes == [] && events == old(events) && rows == old(rows)
    {
      changes := RefreshFinding(reading, cases[k]);
      OthersStayUpToDate(reading, cases[..k], old(rows), rows);
      OneMoreUpToDate(reading, cases, k, rows);
    }

    // The refresh loop, with what it achieves told case by case.
    method RefreshCases(reading: Reading, cases: seq<Case>) returns (changes: seq<Change>)
      requires Valid() && Loaded(cases)
      modifies this
      ensures Valid() && Reports(changes, old(events), events)
      ensures AllUpToDate(reading, cases, rows)
      ensures forall f | f !in FindingsOf(cases) :: Row(f) == old(Row(f))
      ensures AllUpToDate(reading, cases, old(rows)) ==> changes == [] && events == old(events) && rows == old(rows)
    {
      changes := [];
      for k := 0 to |cases|
        invariant Valid() && Reports(changes, old(events), events)
        invariant AllUpToDate(reading, cases[..k], rows)
        invariant forall i | k <= i < |cases| :: Row(cases[i].finding.id) == old(Row(cases[i].finding.id))
        invariant forall f | f !in FindingsOf(cases) :: Row(f) == old(Row(f))
        invariant AllUpToDate(reading, cases[..k], old(rows)) ==> changes == [] && events == old(events) && rows == old(rows)
      {
        OneMoreUpToDate(reading, cases, k, old(rows));
        ghost var logged := events;
        var more := RefreshNext(reading, cases, k);
        ReportsJoin(changes, more, old(events), logged, events);
        changes := changes + more;
      }
      assert cases[..|cases|] == cases;
    }

    /**
     refreshPosturesWithChanges: afterwards every row says what the evidence says, other rows are as
     before, and one event has been appended for each change. If the rows were up to date nothing is written.
     */
    method RefreshPostures(reading: Reading, cases: seq<Case>) returns (changes: seq<Change>)
      requires Valid() && Loaded(cases)
      modifies this
      ensures Valid() && Reports(changes, old(events), events)
      ensures forall i | 0 <= i < |cases| :: UpToDate(reading, cases[i], RowIn(rows, cases[i].finding.id))
      ensures forall f | f !in FindingsOf(cases) :: Row(f) == old(Row(f))
      ensures (forall i | 0 <= i < |cases| :: UpToDate(reading, cases[i], RowIn(old(rows), cases[i].finding.id))) ==>
                changes == [] && events == old(events) && rows == old(rows)
    {
      changes := RefreshCases(reading, cases);
      EachIsUpToDate(reading, cases, rows);
      EachIsUpToDate(reading, cases, old(rows));
    }

    /** A second refresh without new evidence leaves rows and log as the first one left them, and reports nothing. */
    method RefreshTwice(reading: Reading, cases: seq<Case>)
      returns (first: seq<Change>, second: seq<Change>, ghost rows1: map<nat, Posture>, ghost events1: seq<Event>)
      requires Valid() && Loaded(cases)
      modifies this
      ensures Reports(first, old(events), events1)
      ensures forall i | 0 <= i < |cases| :: UpToDate(reading, cases[i], RowIn(rows1, cases[i].finding.id))
      ensures Valid() && second == [] && rows == rows1 && events == events1
    {
      first := RefreshPostures(reading, cases);
      rows1, events1 := rows, events;
      second := RefreshPostures(reading, cases);
    }
  }
}
