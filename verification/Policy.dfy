/**
 Compliance policies: which findings break which rules, and what becomes of the verdict when findings are
 suppressed or shown through their current postures.

 Severities and CVE identifiers are compared without regard to case in the program; here they are in one
 case. The wording of a violation is left out.
 */
module Policy {
  import opened Wrappers
  import P = Posture

  datatype Rule = MaxCvss(value: real) | MaxCount(severity: string, value: real) | MaxTotal(value: real)
                | RequireFix(severity: string) | BlockedCve(cveId: string) | XrayPolicyBlock | UnknownRule

  datatype Finding = Finding(id: nat, cveId: string, severity: string, score: real, vector: string, fixedVersion: string,
                             xrayBlocking: bool, posture: Option<P.Posture>)

  // A violation of a rule about the number of findings names no CVE.
  datatype Violation = Violation(rule: Rule, cveId: string)

  // ----- what a rule forbids -----

  // The rule forbids this finding by itself.
  predicate Offends(rule: Rule, f: Finding) {
    match rule
    case MaxCvss(value) => f.score > 0.0 && f.score >= value
    case RequireFix(severity) => f.severity == severity && f.fixedVersion == ""
    case BlockedCve(cveId) => f.cveId == cveId
    case XrayPolicyBlock => f.xrayBlocking
    case _ => false
  }

  function CountOf(findings: seq<Finding>, severity: string): nat {
    if findings == [] then 0
    else CountOf(findings[..|findings| - 1], severity) + if findings[|findings| - 1].severity == severity then 1 else 0
  }

  /** A rule is broken by too many findings, or by a single one that it forbids. */
  ghost predicate Broken(rule: Rule, findings: seq<Finding>) {
    match rule
    case MaxCount(severity, value) => CountOf(findings, severity) as real > value
    case MaxTotal(value) => |findings| as real > value
    case _ => exists f :: f in findings && Offends(rule, f)
  }

  ghost predicate Passes(rules: seq<Rule>, findings: seq<Finding>) {
    forall rule | rule in rules :: !Broken(rule, findings)
  }

  // ----- evaluation -----

  function Offences(rule: Rule, findings: seq<Finding>): seq<Violation> {
    if findings == [] then []
    else
      var f := findings[|findings| - 1];
      Offences(rule, findings[..|findings| - 1]) + if Offends(rule, f) then [Violation(rule, f.cveId)] else []
  }

  function ViolationsOf(rule: Rule, findings: seq<Finding>): seq<Violation> {
    match rule
    case MaxCount(severity, value) => if CountOf(findings, severity) as real > value then [Violation(rule, "")] else []
    case MaxTotal(value) => if |findings| as real > value then [Violation(rule, "")] else []
    case _ => Offences(rule, findings)
  }

  function AllViolations(rules: seq<Rule>, findings: seq<Finding>): seq<Violation> {
    if rules == [] then []
    else AllViolations(rules[..|rules| - 1], findings) + ViolationsOf(rules[|rules| - 1], findings)
  }

  lemma {:induction false} OffencesIffForbidden(rule: Rule, findings: seq<Finding>)
    ensures Offences(rule, findings) != [] <==> exists f :: f in findings && Offends(rule, f)
  {
    if findings != [] {
      var init, last := findings[..|findings| - 1], findings[|findings| - 1];
      OffencesIffForbidden(rule, init);
      assert findings == init + [last];
    }
  }

  lemma {:induction false} ViolationsIffBroken(rules: seq<Rule>, findings: seq<Finding>)
    ensures AllViolations(rules, findings) == [] <==> Passes(rules, findings)
  {
    if rules != [] {
      var init, last := rules[..|rules| - 1], rules[|rules| - 1];
      ViolationsIffBroken(init, findings);
      OffencesIffForbidden(last, findings);
      assert ViolationsOf(last, findings) == [] <==> !Broken(last, findings);
      assert forall rule :: rule in rules <==> rule in init || rule == last by { assert rules == init + [last]; }
    }
  }

  datatype Status = Pass | Fail | NeedsValidation

  method CollectOffences(rule: Rule, findings: seq<Finding>, violations: seq<Violation>) returns (violations': seq<Violation>)
    ensures violations' == violations + Offences(rule, findings)
  {
    violations' := violations;
    for i := 0 to |findings|
      invariant violations' == violations + Offences(rule, findings[..i])
    {
      assert findings[..i + 1][..i] == findings[..i];
      if Offends(rule, findings[i]) {
        violations' := violations' + [Violation(rule, findings[i].cveId)];
      }
    }
    assert findings[..|findings|] == findings;
  }

  method CountSeverity(findings: seq<Finding>, severity: string) returns (count: nat)
    ensures count == CountOf(findings, severity)
  {
    count := 0;
    for i := 0 to |findings|
      invariant count == CountOf(findings[..i], severity)
    {
      assert findings[..i + 1][..i] == findings[..i];
      if findings[i].severity == severity { count := count + 1; }
    }
    assert findings[..|findings|] == findings;
  }

  // ----- what a broken rule means for the findings -----

  // How many findings have the severity, counted by their places in the list.
  ghost function Places(findings: seq<Finding>, severity: string): set<int> {
    set i | 0 <= i < |findings| && findings[i].severity == severity
  }

  ghost predicate IsAbout(rule: Rule, f: Finding) {
    || (rule.MaxCvss? && f.score > 0.0 && !(f.score < rule.value))
    || (rule.RequireFix? && f.severity == rule.severity && |f.fixedVersion| == 0)
    || (rule.BlockedCve? && f.cveId == rule.cveId)
    || (rule.XrayPolicyBlock? && f.xrayBlocking)
  }

  /** A violation is justified by too many findings, or by one of the findings, which it names. */
  ghost predicate Justified(v: Violation, findings: seq<Finding>) {
    || (v.rule.MaxCount? && v.cveId == "" && |Places(findings, v.rule.severity)| as real > v.rule.value)
    || (v.rule.MaxTotal? && v.cveId == "" && |findings| as real > v.rule.value)
    || exists f :: f in findings && IsAbout(v.rule, f) && v.cveId == f.cveId
  }

  lemma PlaceOneMore(findings: seq<Finding>, severity: string)
    requires findings != []
    ensures var n := |findings| - 1;
            && Places(findings, severity) == Places(findings[..n], severity) + (if findings[n].severity == severity then {n} else {})
            && n !in Places(findings[..n], severity)
  {
    var n := |findings| - 1;
    assert forall i | 0 <= i < n :: findings[..n][i] == findings[i];
  }

  lemma {:induction false} CountedByPlaces(findings: seq<Finding>, severity: string)
    ensures |Places(findings, severity)| == CountOf(findings, severity)
  {
    if findings != [] {
      CountedByPlaces(findings[..|findings| - 1], severity);
      PlaceOneMore(findings, severity);
    }
  }

  lemma AboutOffends(rule: Rule, f: Finding)
    ensures IsAbout(rule, f) <==> Offends(rule, f)
  {
  }

  lemma {:induction false} OffencesListed(rule: Rule, findings: seq<Finding>, v: Violation)
    ensures v in Offences(rule, findings) <==> v.rule == rule && exists f :: f in findings && IsAbout(rule, f) && v.cveId == f.cveId
  {
    if findings != [] {
      var init, last := findings[..|findings| - 1], findings[|findings| - 1];
      OffencesListed(rule, init, v);
      AboutOffends(rule, last);
      assert findings == init + [last];
    }
  }

  lemma ViolationsListed(rule: Rule, findings: seq<Finding>, v: Violation)
    ensures v in ViolationsOf(rule, findings) <==> v.rule == rule && Justified(v, findings)
  {
    OffencesListed(rule, findings, v);
    if rule.MaxCount? { CountedByPlaces(findings, rule.severity); }
  }

  lemma {:induction false} AllListed(rules: seq<Rule>, findings: seq<Finding>, v: Violation)
    ensures v in AllViolations(rules, findings) <==> v.rule in rules && Justified(v, findings)
  {
    if rules != [] {
      var init, last := rules[..|rules| - 1], rules[|rules| - 1];
      AllListed(init, findings, v);
      ViolationsListed(last, findings, v);
      InitOrLast(rules, v.rule);
      assert AllViolations(rules, findings) == AllViolations(init, findings) + ViolationsOf(last, findings);
    }
  }

  /** EvaluatePolicy: the policy fails exactly if one of its rules is broken, and every offence is listed. */
  method EvaluatePolicy(rules: seq<Rule>, findings: seq<Finding>) returns (status: Status, violations: seq<Violation>)
    ensures violations == AllViolations(rules, findings)
    ensures status == if Passes(rules, findings) then Pass else Fail
    ensures forall v :: v in violations <==> v.rule in rules && Justified(v, findings)
    ensures status == if exists v: Violation :: v.rule in rules && Justified(v, findings) then Fail else Pass
  {
    violations := [];
    for k := 0 to |rules|
      invariant violations == AllViolations(rules[..k], findings)
    {
      assert rules[..k + 1][..k] == rules[..k];
      var rule := rules[k];
      match rule
      case MaxCount(severity, value) =>
        var count := CountSeverity(findings, severity);
        if count as real > value { violations := violations + [Violation(rule, "")]; }
      case MaxTotal(value) =>
        if |findings| as real > value { violations := violations + [Violation(rule, "")]; }
      case _ =>
        violations := CollectOffences(rule, findings, violations);
    }
    assert rules[..|rules|] == rules;
    ViolationsIffBroken(rules, findings);
    forall v
      ensures v in violations <==> v.rule in rules && Justified(v, findings)
    {
      AllListed(rules, findings, v);
    }
    if violations != [] { assert violations[0] in violations; }
    status := if |violations| > 0 then Fail else Pass;
  }

  // ----- when a change of the findings cannot make a policy fail -----

  ghost predicate ScoreReaches(findings: seq<Finding>, score: real) { exists f :: f in findings && f.score >= score > 0.0 }

  ghost predicate HasUnfixed(findings: seq<Finding>, severity: string) {
    exists f :: f in findings && f.severity == severity && f.fixedVersion == ""
  }

  ghost predicate HasCve(findings: seq<Finding>, cveId: string) { exists f :: f in findings && f.cveId == cveId }

  ghost predicate HasBlocking(findings: seq<Finding>) { exists f :: f in findings && f.xrayBlocking }

  // Nothing a rule can look at has got worse.
  ghost predicate NoWorse(before: seq<Finding>, after: seq<Finding>) {
    && |after| <= |before|
    && (forall severity :: CountOf(after, severity) <= CountOf(before, severity))
    && (forall f | f in after && f.score > 0.0 :: ScoreReaches(before, f.score))
    && (forall f | f in after && f.fixedVersion == "" :: HasUnfixed(before, f.severity))
    && (forall f | f in after :: HasCve(before, f.cveId))
    && (HasBlocking(after) ==> HasBlocking(before))
  }

  lemma NoWorseBreaksNothing(before: seq<Finding>, after: seq<Finding>, rule: Rule)
    requires NoWorse(before, after) && Broken(rule, after)
    ensures Broken(rule, before)
  {
    match rule
    case MaxCount(severity, value) =>
    case MaxTotal(value) =>
    case MaxCvss(value) =>
      var f :| f in after && Offends(rule, f);
      var g :| g in before && g.score >= f.score > 0.0;
      assert Offends(rule, g);
    case RequireFix(severity) =>
      var f :| f in after && Offends(rule, f);
      var g :| g in before && g.severity == f.severity && g.fixedVersion == "";
      assert Offends(rule, g);
    case BlockedCve(cveId) =>
      var f :| f in after && Offends(rule, f);
      var g :| g in before && g.cveId == f.cveId;
      assert Offends(rule, g);
    case XrayPolicyBlock =>
      var f :| f in after && Offends(rule, f);
      var g :| g in before && g.xrayBlocking;
      assert Offends(rule, g);
    case UnknownRule =>
  }

  ghost predicate NeverNewlyFails(before: seq<Finding>, after: seq<Finding>) {
    forall rules: seq<Rule> | Passes(rules, before) :: Passes(rules, after)
  }

  lemma SingleRule(before: seq<Finding>, after: seq<Finding>, rule: Rule)
    requires NeverNewlyFails(before, after) && Broken(rule, after)
    ensures Broken(rule, before)
  {
    assert Passes([rule], before) ==> Passes([rule], after);
    assert rule in [rule];
  }

  lemma EachRuleMatters(before: seq<Finding>, after: seq<Finding>)
    requires NeverNewlyFails(before, after)
    ensures NoWorse(before, after)
  {
    forall severity
      ensures CountOf(after, severity) <= CountOf(before, severity)
    {
      if CountOf(after, severity) > CountOf(before, severity) {
        SingleRule(before, after, MaxCount(severity, CountOf(before, severity) as real));
      }
    }
    if |after| > |before| { SingleRule(before, after, MaxTotal(|before| as real)); }
    forall f | f in after && f.score > 0.0
      ensures ScoreReaches(before, f.score)
    {
      assert Offends(MaxCvss(f.score), f);
      SingleRule(before, after, MaxCvss(f.score));
    }
    forall f | f in after && f.fixedVersion == ""
      ensures HasUnfixed(before, f.severity)
    {
      assert Offends(RequireFix(f.severity), f);
      SingleRule(before, after, RequireFix(f.severity));
    }
    forall f | f in after
      ensures HasCve(before, f.cveId)
    {
      assert Offends(BlockedCve(f.cveId), f);
      SingleRule(before, after, BlockedCve(f.cveId));
    }
    if HasBlocking(after) {
      var f :| f in after && f.xrayBlocking;
      assert Offends(XrayPolicyBlock, f);
      SingleRule(before, after, XrayPolicyBlock);
    }
  }

  /**
   A change of the findings leaves every passing policy passing if and only if it makes nothing worse:
   no severity more frequent, no score out of reach, no new unfixed severity, CVE or block.
   */
  lemma NeverNewlyFailsIffNoWorse(before: seq<Finding>, after: seq<Finding>)
    ensures NeverNewlyFails(before, after) <==> NoWorse(before, after)
  {
    if NoWorse(before, after) {
      forall rules: seq<Rule> | Passes(rules, before)
        ensures Passes(rules, after)
      {
        forall rule | rule in rules
          ensures !Broken(rule, after)
        {
          if Broken(rule, after) { NoWorseBreaksNothing(before, after, rule); }
        }
      }
    }
    if NeverNewlyFails(before, after) { EachRuleMatters(before, after); }
  }

  // ----- removing and reordering findings -----

  lemma {:induction false} CountsAdd(a: seq<Finding>, b: seq<Finding>, severity: string)
    ensures CountOf(a + b, severity) == CountOf(a, severity) + CountOf(b, severity)
  {
    if b == [] {
      assert a + b == a;
    } else {
      CountsAdd(a, b[..|b| - 1], severity);
      assert (a + b)[..|a + b| - 1] == a + b[..|b| - 1];
    }
  }

  lemma CountOfOne(f: Finding, severity: string)
    ensures CountOf([f], severity) == if f.severity == severity then 1 else 0
  {
    assert [f][..0] == [] && CountOf([], severity) == 0;
  }

  // The list with one occurrence of a finding taken out.
  lemma Without(all: seq<Finding>, f: Finding) returns (rest: seq<Finding>)
    requires f in all
    ensures multiset(all) == multiset(rest) + multiset{f} && |all| == |rest| + 1
    ensures forall severity :: CountOf(all, severity) == CountOf(rest, severity) + if f.severity == severity then 1 else 0
  {
    var i :| 0 <= i < |all| && all[i] == f;
    rest := all[..i] + all[i + 1..];
    assert all == all[..i] + [f] + all[i + 1..];
    forall severity
      ensures CountOf(all, severity) == CountOf(rest, severity) + if f.severity == severity then 1 else 0
    {
      CountsAdd(all[..i], all[i + 1..], severity);
      CountsAdd(all[..i] + [f], all[i + 1..], severity);
      CountsAdd(all[..i], [f], severity);
      CountOfOne(f, severity);
    }
  }

  lemma {:induction false} FewerCounts(before: seq<Finding>, after: seq<Finding>, severity: string)
    requires multiset(after) <= multiset(before)
    ensures |after| <= |before| && CountOf(after, severity) <= CountOf(before, severity)
    decreases |after|
  {
    if after != [] {
      var init, f := after[..|after| - 1], after[|after| - 1];
      assert after == init + [f];
      assert f in multiset(after);
      var rest := Without(before, f);
      assert multiset(init) == multiset(after) - multiset{f} && multiset(rest) == multiset(before) - multiset{f};
      FewerCounts(rest, init, severity);
    }
  }

  lemma RemovalIsNoWorse(before: seq<Finding>, after: seq<Finding>)
    requires multiset(after) <= multiset(before)
    ensures NoWorse(before, after)
  {
    forall severity
      ensures |after| <= |before| && CountOf(after, severity) <= CountOf(before, severity)
    {
      FewerCounts(before, after, severity);
    }
    FewerCounts(before, after, "");
    forall f | f in after
      ensures f in before
    {
      assert f in multiset(after);
      assert f in multiset(before);
    }
  }

  /** Removing findings, and no less reordering them, turns no policy from pass to fail. */
  lemma RemovalNeverFails(rules: seq<Rule>, before: seq<Finding>, after: seq<Finding>)
    requires multiset(after) <= multiset(before) && Passes(rules, before)
    ensures Passes(rules, after)
  {
    RemovalIsNoWorse(before, after);
    NeverNewlyFailsIffNoWorse(before, after);
  }

  /** The verdict depends neither on the order of the findings nor on that of the rules. */
  lemma OrderIsIrrelevant(rules: seq<Rule>, rules': seq<Rule>, findings: seq<Finding>, findings': seq<Finding>)
    requires multiset(rules) == multiset(rules') && multiset(findings) == multiset(findings')
    ensures Passes(rules, findings) <==> Passes(rules', findings')
  {
    forall rule
      ensures rule in rules <==> rule in rules'
    {
      assert rule in rules <==> rule in multiset(rules);
      assert rule in rules' <==> rule in multiset(rules');
    }
    if Passes(rules, findings) { RemovalNeverFails(rules, findings, findings'); }
    if Passes(rules, findings') { RemovalNeverFails(rules, findings', findings); }
  }

  // ----- suppressions -----

  function Kept(findings: seq<Finding>, suppressed: string -> bool): seq<Finding> {
    if findings == [] then []
    else
      var last := findings[|findings| - 1];
      Kept(findings[..|findings| - 1], suppressed) + if suppressed(last.cveId) then [] else [last]
  }

  lemma {:induction false} KeptArePart(findings: seq<Finding>, suppressed: string -> bool)
    ensures multiset(Kept(findings, suppressed)) <= multiset(findings)
    ensures forall f :: f in Kept(findings, suppressed) <==> f in findings && !suppressed(f.cveId)
  {
    if findings != [] {
      var init, last := findings[..|findings| - 1], findings[|findings| - 1];
      assert findings == init + [last];
      KeptArePart(init, suppressed);
    }
  }

  /** filterSuppressedVulnerabilities. */
  method FilterSuppressed(findings: seq<Finding>, suppressed: string -> bool) returns (filtered: seq<Finding>)
    ensures filtered == Kept(findings, suppressed)
    ensures forall f :: f in filtered <==> f in findings && !suppressed(f.cveId)
  {
    KeptArePart(findings, suppressed);
    filtered := [];
    for i := 0 to |findings|
      invariant filtered == Kept(findings[..i], suppressed)
    {
      assert findings[..i + 1][..i] == findings[..i];
      if !suppressed(findings[i].cveId) { filtered := filtered + [findings[i]]; }
    }
    assert findings[..|findings|] == findings;
  }

  /** Suppressing findings cannot make a policy fail. */
  lemma SuppressionNeverFails(rules: seq<Rule>, findings: seq<Finding>, suppressed: string -> bool)
    requires Passes(rules, findings)
    ensures Passes(rules, Kept(findings, suppressed))
  {
    KeptArePart(findings, suppressed);
    RemovalNeverFails(rules, findings, Kept(findings, suppressed));
  }

  // ----- current intelligence -----

  predicate Excludes(p: P.Posture) {
    p.state == P.Rejected || p.state == P.NotAffected || p.assessment.cveState == "rejected" || p.assessment.cveState == "not_affected"
  }

  predicate InDoubt(p: P.Posture) {
    || p.state == P.Disputed || p.state == P.NeedsRescan
    || p.assessment.cveState == "disputed" || p.assessment.cveState == "unknown" || p.conflictSources != []
  }

  function Joined(versions: seq<string>): string {
    if versions == [] then "" else if |versions| == 1 then versions[0]
    else Joined(versions[..|versions| - 1]) + ", " + versions[|versions| - 1]
  }

  /** Joining puts a comma and a blank between any two neighbours and nothing anywhere else. */
  lemma {:induction false} JoinedInParts(a: seq<string>, b: seq<string>)
    requires a != [] && b != []
    ensures Joined(a + b) == Joined(a) + ", " + Joined(b)
    ensures forall v :: Joined([v]) == v
  {
    var init, last := b[..|b| - 1], b[|b| - 1];
    assert (a + b)[..|a + b| - 1] == a + init;
    if init == [] {
      assert a + init == a;
    } else {
      JoinedInParts(a, init);
      assert Joined(a) + ", " + Joined(init) + ", " + last == Joined(a) + ", " + (Joined(init) + ", " + last);
    }
  }

  // The finding as its posture shows it, field by field.
  ghost predicate ShownAs(f: Finding, p: P.Posture, g: Finding) {
    var a := p.assessment;
    && g.id == f.id && g.cveId == f.cveId && g.xrayBlocking == f.xrayBlocking && g.posture == f.posture
    && (if a.severity in {"", "UNKNOWN"} then g.severity == f.severity else g.severity == a.severity)
    && (if a.score > 0.0 then g.score == a.score else g.score == f.score)
    && (if a.vector == "" then g.vector == f.vector else g.vector == a.vector)
    && (a.fixedVersions != [] ==> g.fixedVersion == Joined(a.fixedVersions))
    && (a.fixedVersions == [] && (p.state == P.FixAvailable || a.cveState == "affected") ==> g.fixedVersion == "")
    && (a.fixedVersions == [] && p.state != P.FixAvailable && a.cveState != "affected" ==> g.fixedVersion == f.fixedVersion)
  }

  // A posture that takes its finding out of view.
  ghost predicate Hides(f: Finding) {
    f.posture.Some? &&
    (f.posture.value.state in {P.Rejected, P.NotAffected} || f.posture.value.assessment.cveState in {"rejected", "not_affected"})
  }

  // A changed finding in view whose posture is disputed, unknown, contradicted, or asks for a new scan.
  ghost predicate AsksForValidation(f: Finding, changed: set<nat>) {
    && f.id in changed && f.posture.Some? && !Hides(f)
    && (|| f.posture.value.state in {P.Disputed, P.NeedsRescan}
        || f.posture.value.assessment.cveState in {"disputed", "unknown"}
        || f.posture.value.conflictSources != [])
  }

  lemma WhatPosturesDo(f: Finding, changed: set<nat>)
    ensures f.posture.Some? ==> (Excludes(f.posture.value) <==> Hides(f))
    ensures f.posture.Some? ==> ShownAs(f, f.posture.value, Overlay(f, f.posture.value))
    ensures Doubtful(f, changed) <==> AsksForValidation(f, changed)
  {
  }

  /**
   The current view place by place: `places` are the findings that are not hidden, in order, and each is shown
   as its posture says, or as it is if it has none.
   */
  ghost predicate IsView(findings: seq<Finding>, view: seq<Finding>, places: seq<int>) {
    && |places| == |view|
    && (forall k | 0 <= k < |places| :: 0 <= places[k] < |findings| && !Hides(findings[places[k]]))
    && (forall k | 0 <= k < |places| :: IsShown(findings[places[k]], view[k]))
    && (forall k, l | 0 <= k < l < |places| :: places[k] < places[l])
    && (forall i | 0 <= i < |findings| && !Hides(findings[i]) :: i in places)
  }

  ghost predicate IsShown(f: Finding, g: Finding) { if f.posture.None? then g == f else ShownAs(f, f.posture.value, g) }

  lemma PlacesOneMore(places: seq<int>, n: int)
    requires forall k | 0 <= k < |places| :: places[k] < n
    requires forall k, l | 0 <= k < l < |places| :: places[k] < places[l]
    ensures forall k, l | 0 <= k < l < |places| + 1 :: (places + [n])[k] < (places + [n])[l]
    ensures forall i :: i in places + [n] <==> i in places || i == n
  {
  }

  lemma ViewOneMore(findings: seq<Finding>, view: seq<Finding>, places: seq<int>, f: Finding, g: Finding)
    requires IsView(findings, view, places) && !Hides(f) && IsShown(f, g)
    ensures IsView(findings + [f], view + [g], places + [|findings|])
  {
    var all, more := findings + [f], places + [|findings|];
    PlacesOneMore(places, |findings|);
    forall k | 0 <= k < |more|
      ensures 0 <= more[k] < |all| && !Hides(all[more[k]]) && IsShown(all[more[k]], (view + [g])[k])
    {
      if k < |places| { assert all[places[k]] == findings[places[k]]; }
    }
    forall i | 0 <= i < |all| && !Hides(all[i])
      ensures i in more
    {
      if i < |findings| { assert all[i] == findings[i]; }
    }
  }

  lemma ViewSkips(findings: seq<Finding>, view: seq<Finding>, places: seq<int>, f: Finding)
    requires IsView(findings, view, places) && Hides(f)
    ensures IsView(findings + [f], view, places)
  {
    var all := findings + [f];
    assert forall i | 0 <= i < |findings| :: all[i] == findings[i];
  }

  lemma {:induction false} CurrentIsView(findings: seq<Finding>) returns (places: seq<int>)
    ensures IsView(findings, Current(findings), places)
  {
    places := [];
    if findings != [] {
      var init, f := findings[..|findings| - 1], findings[|findings| - 1];
      assert findings == init + [f];
      places := CurrentIsView(init);
      WhatPosturesDo(f, {});
      if Hides(f) {
        ViewSkips(init, Current(init), places, f);
        assert Current(findings) == Current(init);
      } else {
        ViewOneMore(init, Current(init), places, f, if f.posture.None? then f else Overlay(f, f.posture.value));
        places := places + [|init|];
      }
    }
  }

  /** overlayVulnerability. */
  function Overlay(f: Finding, p: P.Posture): Finding {
    var a := p.assessment;
    f.(severity := if a.severity != "" && a.severity != "UNKNOWN" then a.severity else f.severity,
       score := if a.score > 0.0 then a.score else f.score,
       vector := if a.vector != "" then a.vector else f.vector,
       fixedVersion := if a.fixedVersions != [] then Joined(a.fixedVersions)
                       else if p.state == P.FixAvailable || a.cveState == "affected" then "" else f.fixedVersion)
  }

  // What the posture says about fixed versions is what the finding says.
  predicate SameFix(f: Finding, p: P.Posture) {
    if p.assessment.fixedVersions != [] then Joined(p.assessment.fixedVersions) == f.fixedVersion
    else p.state == P.FixAvailable || p.assessment.cveState == "affected" ==> f.fixedVersion == ""
  }

  /**
   A posture leaves a finding as it is exactly if it repeats the severity, the score and the vector of the
   finding or is silent about them, and says the same about fixed versions.
   */
  lemma OverlayIsSilentIff(f: Finding, p: P.Posture)
    ensures var a := p.assessment;
            Overlay(f, p) == f <==>
            && (a.severity == "" || a.severity == "UNKNOWN" || a.severity == f.severity)
            && (a.score <= 0.0 || a.score == f.score) && (a.vector == "" || a.vector == f.vector) && SameFix(f, p)
  {
  }

  // The findings as current intelligence shows them.
  function Current(findings: seq<Finding>): seq<Finding> {
    if findings == [] then []
    else
      var f := findings[|findings| - 1];
      Current(findings[..|findings| - 1])
      + if f.posture.None? then [f] else if Excludes(f.posture.value) then [] else [Overlay(f, f.posture.value)]
  }

  // A changed finding that stays in view, although its posture is in doubt.
  predicate Doubtful(f: Finding, changed: set<nat>) {
    f.id in changed && f.posture.Some? && !Excludes(f.posture.value) && InDoubt(f.posture.value)
  }

  datatype Evaluation = Evaluation(status: Status, violations: seq<Violation>, needsValidation: bool, changedIds: seq<nat>)

  ghost predicate HasId(findings: seq<Finding>, id: nat) { exists f :: f in findings && f.id == id }

  ghost predicate AnyDoubtful(findings: seq<Finding>, changed: set<nat>) { exists f :: f in findings && Doubtful(f, changed) }

  // What the loop has noted about changed findings: each one that occurs, once.
  ghost predicate NotesChanged(findings: seq<Finding>, changed: set<nat>, ids: seq<nat>) {
    && (forall i, j | 0 <= i < j < |ids| :: ids[i] != ids[j])
    && (forall id :: id in ids <==> id in changed && HasId(findings, id))
  }

  lemma OneMoreFinding(findings: seq<Finding>, f: Finding, changed: set<nat>)
    ensures forall id :: HasId(findings + [f], id) <==> HasId(findings, id) || id == f.id
    ensures AnyDoubtful(findings + [f], changed) <==> AnyDoubtful(findings, changed) || Doubtful(f, changed)
  {
    assert forall g :: g in findings + [f] <==> g in findings || g == f;
  }

  lemma NotesOneMore(findings: seq<Finding>, f: Finding, changed: set<nat>, ids: seq<nat>)
    requires NotesChanged(findings, changed, ids)
    ensures NotesChanged(findings + [f], changed, if f.id in changed && f.id !in ids then ids + [f.id] else ids)
  {
    OneMoreFinding(findings, f, changed);
  }

  // The part of the loop body that builds the current view.
  lemma CurrentOneMore(findings: seq<Finding>, i: nat)
    requires i < |findings|
    ensures findings[..i + 1] == findings[..i] + [findings[i]]
    ensures var f := findings[i];
            Current(findings[..i + 1]) == Current(findings[..i])
              + if f.posture.None? then [f] else if Excludes(f.posture.value) then [] else [Overlay(f, f.posture.value)]
  {
    assert findings[..i + 1][..i] == findings[..i];
  }

  /** EvaluatePolicyWithCurrentIntelligence; without a policy there is nothing to break. */
  method EvaluateCurrent(policy: Option<seq<Rule>>, findings: seq<Finding>, changed: set<nat>) returns (e: Evaluation)
    ensures policy.None? ==> e == Evaluation(Pass, [], false, [])
    ensures policy.Some? ==>
              && e.violations == AllViolations(policy.value, Current(findings))
              && (e.needsValidation <==> AnyDoubtful(findings, changed))
              && e.status == (if e.needsValidation then NeedsValidation
                              else if Passes(policy.value, Current(findings)) then Pass else Fail)
              && NotesChanged(findings, changed, e.changedIds)
              && (e.needsValidation <==> exists f :: f in findings && AsksForValidation(f, changed))
              && exists view, places :: IsView(findings, view, places) && e.violations == AllViolations(policy.value, view)
                   && (!e.needsValidation ==> e.status == if Passes(policy.value, view) then Pass else Fail)
  {
    if policy.None? { return Evaluation(Pass, [], false, []); }
    var effective: seq<Finding> := [];
    var ids: seq<nat> := [];
    var needsValidation := false;
    for i := 0 to |findings|
      invariant effective == Current(findings[..i]) && NotesChanged(findings[..i], changed, ids)
      invariant needsValidation <==> AnyDoubtful(findings[..i], changed)
    {
      var f := findings[i];
      CurrentOneMore(findings, i);
      NotesOneMore(findings[..i], f, changed, ids);
      OneMoreFinding(findings[..i], f, changed);
      if f.id in changed && f.id !in ids { ids := ids + [f.id]; }
      if f.posture.Some? && Excludes(f.posture.value) { continue; }
      if f.posture.Some? {
        effective := effective + [Overlay(f, f.posture.value)];
        if f.id in changed && InDoubt(f.posture.value) { needsValidation := true; }
      } else {
        effective := effective + [f];
      }
    }
    assert findings[..|findings|] == findings;
    var status, violations := EvaluatePolicy(policy.value, effective);
    ghost var places := CurrentIsView(findings);
    assert IsView(findings, effective, places);
    forall f
      ensures Doubtful(f, changed) <==> AsksForValidation(f, changed)
    {
      WhatPosturesDo(f, changed);
    }
    return Evaluation(if needsValidation then NeedsValidation else status, violations, needsValidation, ids);
  }

  // Every posture either takes its finding out or says nothing new about it.
  predicate OnlyExcludes(findings: seq<Finding>) {
    forall f | f in findings && f.posture.Some? :: Excludes(f.posture.value) || Overlay(f, f.posture.value) == f
  }

  lemma {:induction false} ExclusionRemoves(findings: seq<Finding>)
    requires OnlyExcludes(findings)
    ensures multiset(Current(findings)) <= multiset(findings)
    ensures (forall f | f in findings :: f.posture.None? || !Excludes(f.posture.value)) ==> Current(findings) == findings
  {
    if findings != [] {
      var init, last := findings[..|findings| - 1], findings[|findings| - 1];
      assert findings == init + [last];
      ExclusionRemoves(init);
    }
  }

  /** Without postures the current view is the finding list itself, so it is judged as usual. */
  lemma NoPosturesNoDifference(findings: seq<Finding>)
    requires forall f | f in findings :: f.posture.None?
    ensures Current(findings) == findings
  {
    ExclusionRemoves(findings);
  }

  /** Intelligence that only excludes findings cannot make a policy fail. */
  lemma ExclusionNeverFails(rules: seq<Rule>, findings: seq<Finding>)
    requires OnlyExcludes(findings) && Passes(rules, findings)
    ensures Passes(rules, Current(findings))
  {
    ExclusionRemoves(findings);
    RemovalNeverFails(rules, findings, Current(findings));
  }

  /** Any other overlay can: a finding whose severity is reduced counts against the lower severity. */
  lemma ReducedSeverityCanFail(f: Finding, p: P.Posture)
    requires f.severity == "HIGH" && f.posture == Some(p) && !Excludes(p) && p.assessment.severity == "LOW"
    ensures Passes([MaxCount("LOW", 0.0)], [f]) && !Passes([MaxCount("LOW", 0.0)], Current([f]))
  {
    assert [f][..0] == [] && Current([f]) == [Overlay(f, p)] && |"UNKNOWN"| == 7;
    CountOfOne(f, "LOW");
    CountOfOne(Overlay(f, p), "LOW");
    assert MaxCount("LOW", 0.0) in [MaxCount("LOW", 0.0)];
  }

  // ----- impact -----

  datatype Impact = NoImpact | Validate | Resolved | NewFailure | StillFailed

  /** classifyPolicyImpact. */
  function Classify(historical: Status, current: Status, violationsDiffer: bool, needsValidation: bool, affected: bool): Impact {
    if needsValidation || current == NeedsValidation then Validate
    else if historical == Fail && current == Pass then Resolved
    else if historical == Pass && current == Fail then NewFailure
    else if historical == Fail && current == Fail && (violationsDiffer || affected) then StillFailed
    else NoImpact
  }

  /** Each impact, by the two verdicts: doubt comes first, and an unchanged failure counts only if something is new about it. */
  lemma WhatImpactsMean(historical: Status, current: Status, violationsDiffer: bool, needsValidation: bool, affected: bool)
    ensures var impact := Classify(historical, current, violationsDiffer, needsValidation, affected);
            var sure := !needsValidation && current != NeedsValidation;
            && (impact == Validate <==> !sure)
            && (impact == Resolved <==> sure && historical == Fail && current == Pass)
            && (impact == NewFailure <==> sure && historical == Pass && current == Fail)
            && (impact == StillFailed <==> sure && historical == Fail && current == Fail && (violationsDiffer || affected))
  {
  }

  /** A new failure is always the doing of some posture that rewrites a finding instead of excluding it. */
  lemma NewFailureHasCause(rules: seq<Rule>, findings: seq<Finding>, violationsDiffer: bool, needsValidation: bool, affected: bool)
    returns (f: Finding)
    requires Classify(if Passes(rules, findings) then Pass else Fail, if Passes(rules, Current(findings)) then Pass else Fail,
                      violationsDiffer, needsValidation, affected) == NewFailure
    ensures f in findings && f.posture.Some? && !Excludes(f.posture.value) && Overlay(f, f.posture.value) != f
  {
    if OnlyExcludes(findings) { ExclusionNeverFails(rules, findings); }
    f :| f in findings && f.posture.Some? && !Excludes(f.posture.value) && Overlay(f, f.posture.value) != f;
  }
}
