/**
 Whether a finding's package version is affected by the version ranges of an advisory.

 Parsing is not modelled: a version is its place in the precedence order, represented by a rational
 number so that any such order fits, and a version constraint is a function on those places. Package
 URLs and names are taken as already normalized, status words as trimmed and in lower case.
 */
module AffectedRanges {
  import opened Wrappers

  type Version = real

  datatype Applicability = Unknown | Affected | NotAffected

  datatype VersionText = Absent | Malformed | Parsed(version: Version)

  datatype Constraint = Unconstrained | Invalid | Admits(check: Version -> bool)

  datatype Change = Change(at: VersionText, status: string)

  datatype Range = NilRange
                 | Range(status: string, purl: Option<string>, cpe: bool, package: string, constraint: Constraint, changes: seq<Change>)

  datatype Identity = Identity(package: string, installed: VersionText, purls: seq<string>)

  // ----- one range -----

  predicate StatusIsUnaffected(status: string) {
    status == "unaffected" || status == "not_affected" || status == "notaffected" || status == "fixed"
  }

  function Classify(status: string): Applicability {
    if status == "" then Unknown
    else if status == "affected" || status == "vulnerable" then Affected
    else NotAffected
  }

  datatype IdentityMatch = IdentityMatch(matched: bool, unknown: bool, constrained: bool)

  /** rangeIdentityMatch: an unknown identity is never reported as a match. */
  function MatchIdentity(identity: Identity, r: Range): (m: IdentityMatch)
    requires r.Range?
    ensures m.unknown ==> !m.matched && m.constrained
    ensures !m.constrained ==> m.matched && !m.unknown
    ensures m.matched <==> Concerns(identity, r)
    ensures m.unknown <==> MayConcern(identity, r)
    ensures m.constrained <==> r.purl.Some? || r.cpe || r.package != ""
  {
    if r.purl.Some? then
      if identity.purls == [] then IdentityMatch(false, true, true)
      else IdentityMatch(r.purl.value != "" && r.purl.value in identity.purls, false, true)
    else if r.cpe then IdentityMatch(false, true, true)
    else if r.package == "" then IdentityMatch(true, false, false)
    else if r.package == identity.package then IdentityMatch(true, false, true)
    else IdentityMatch(false, identity.package == "", true)
  }

  // ----- the timeline of status changes -----

  // A change whose version has been parsed.
  datatype VersionChange = VersionChange(at: Version, status: string)

  function ParseChanges(changes: seq<Change>): (t: seq<VersionChange>)
    requires forall i | 0 <= i < |changes| :: changes[i].at.Parsed?
    ensures |t| == |changes|
    ensures forall i | 0 <= i < |t| :: t[i] == VersionChange(changes[i].at.version, changes[i].status)
  {
    seq(|changes|, i requires 0 <= i < |changes| => VersionChange(changes[i].at.version, changes[i].status))
  }

  /**
   The change in force at a version: among the changes at or below it the one at the greatest version,
   and the last in the list if several share that version.
   */
  function InForce(t: seq<VersionChange>, v: Version): Option<VersionChange> {
    if t == [] then None else
    var earlier, last := InForce(t[..|t| - 1], v), t[|t| - 1];
    if last.at <= v && (earlier.None? || earlier.value.at <= last.at) then Some(last) else earlier
  }

  lemma {:induction false} InForceIsGreatest(t: seq<VersionChange>, v: Version)
    ensures InForce(t, v).Some? ==> InForce(t, v).value in t && InForce(t, v).value.at <= v
    ensures forall i | 0 <= i < |t| && t[i].at <= v :: InForce(t, v).Some? && t[i].at <= InForce(t, v).value.at
  {
    if t != [] { InForceIsGreatest(t[..|t| - 1], v); }
  }

  function StatusAt(t: seq<VersionChange>, status: string, v: Version): string {
    if InForce(t, v).Some? then InForce(t, v).value.status else status
  }

  predicate AllParse(changes: seq<Change>) {
    forall i | 0 <= i < |changes| :: changes[i].at.Parsed? && changes[i].status != ""
  }

  function Timeline(changes: seq<Change>, status: string, v: Version): Applicability {
    if AllParse(changes) then Classify(StatusAt(ParseChanges(changes), status, v)) else Unknown
  }

  predicate Sorted(t: seq<VersionChange>) {
    forall i, j | 0 <= i < j < |t| :: t[i].at <= t[j].at
  }

  lemma InForceTakesLast(t: seq<VersionChange>, c: VersionChange, v: Version)
    ensures InForce(t + [c], v) ==
            if c.at <= v && (InForce(t, v).None? || InForce(t, v).value.at <= c.at) then Some(c) else InForce(t, v)
  {
    assert (t + [c])[..|t|] == t;
  }

  // A change put before changes at later versions is in force as if it had been put at the end.
  lemma {:induction false} InForceAfterInsertion(a: seq<VersionChange>, c: VersionChange, b: seq<VersionChange>, v: Version)
    requires forall i | 0 <= i < |b| :: c.at < b[i].at
    ensures InForce(a + [c] + b, v) == InForce(a + b + [c], v)
    decreases |b|
  {
    if b == [] {
      assert a + [c] + b == a + b + [c];
    } else {
      var init, last := b[..|b| - 1], b[|b| - 1];
      InForceAfterInsertion(a, c, init, v);
      assert b == init + [last];
      assert a + [c] + b == (a + [c] + init) + [last];
      assert a + b == (a + init) + [last];
      InForceTakesLast(a + [c] + init, last, v);
      InForceTakesLast(a + init, last, v);
      InForceTakesLast(a + init, c, v);
      InForceTakesLast(a + b, c, v);
    }
  }

  lemma InsertionKeepsOrder(a: seq<VersionChange>, c: VersionChange, b: seq<VersionChange>)
    requires Sorted(a + b) && (a != [] ==> a[|a| - 1].at <= c.at) && (b != [] ==> c.at < b[0].at)
    ensures Sorted(a + [c] + b) && forall i | 0 <= i < |b| :: c.at < b[i].at
  {
    var all := a + b;
    assert forall i | 0 <= i < |a| :: all[i] == a[i] && a[i].at <= a[|a| - 1].at;
    forall i | 0 <= i < |b|
      ensures c.at < b[i].at
    {
      assert all[|a|].at <= all[|a| + i].at;
    }
    forall i, j | 0 <= i < j < |b|
      ensures b[i].at <= b[j].at
    {
      assert all[|a| + i].at <= all[|a| + j].at;
    }
  }

  lemma InsertionAddsOne(a: seq<VersionChange>, c: VersionChange, b: seq<VersionChange>)
    ensures multiset(a + [c] + b) == multiset(a + b) + multiset{c}
  {
  }

  // One insertion of a stable sort.
  method InsertStably(t: seq<VersionChange>, c: VersionChange, ghost v: Version) returns (r: seq<VersionChange>)
    requires Sorted(t)
    ensures Sorted(r) && multiset(r) == multiset(t) + multiset{c} && InForce(r, v) == InForce(t + [c], v)
  {
    var k := |t|;
    while k > 0 && t[k - 1].at > c.at
      invariant 0 <= k <= |t|
      invariant k < |t| ==> c.at < t[k].at
    {
      k := k - 1;
    }
    r := Inserted(t[..k], c, t[k..], v);
    assert t[..k] + t[k..] == t;
  }

  method Inserted(a: seq<VersionChange>, c: VersionChange, b: seq<VersionChange>, ghost v: Version) returns (r: seq<VersionChange>)
    requires Sorted(a + b) && (a != [] ==> a[|a| - 1].at <= c.at) && (b != [] ==> c.at < b[0].at)
    ensures Sorted(r) && multiset(r) == multiset(a + b) + multiset{c} && InForce(r, v) == InForce(a + b + [c], v)
  {
    InsertionKeepsOrder(a, c, b);
    InForceAfterInsertion(a, c, b, v);
    InsertionAddsOne(a, c, b);
    r := a + [c] + b;
  }

  // The stable library sort: it changes neither the elements nor what is in force.
  method SortStably(changes: seq<VersionChange>, ghost v: Version) returns (t: seq<VersionChange>)
    ensures Sorted(t) && multiset(t) == multiset(changes) && InForce(t, v) == InForce(changes, v)
  {
    t := [];
    for i := 0 to |changes|
      invariant Sorted(t) && multiset(t) == multiset(changes[..i])
      invariant InForce(t, v) == InForce(changes[..i], v)
    {
      TakeOneMore(changes, i);
      InForceTakesLast(t, changes[i], v);
      InForceTakesLast(changes[..i], changes[i], v);
      t := InsertStably(t, changes[i], v);
    }
    assert changes[..|changes|] == changes;
  }

  lemma {:induction false} LaterChangesDoNotCount(t: seq<VersionChange>, k: nat, v: Version)
    requires Sorted(t) && k <= |t| && (k < |t| ==> v < t[k].at)
    ensures InForce(t, v) == InForce(t[..k], v)
    decreases |t|
  {
    if k < |t| {
      var init := t[..|t| - 1];
      assert t == init + [t[|t| - 1]] && init[..k] == t[..k];
      LaterChangesDoNotCount(init, k, v);
      InForceTakesLast(init, t[|t| - 1], v);
    } else {
      assert t[..k] == t;
    }
  }

  // The first loop: a change without a readable version or without a status spoils the timeline.
  method ParseAll(changes: seq<Change>) returns (timeline: Option<seq<VersionChange>>)
    ensures timeline == if AllParse(changes) then Some(ParseChanges(changes)) else None
  {
    var parsed: seq<VersionChange> := [];
    for i := 0 to |changes|
      invariant |parsed| == i
      invariant forall j | 0 <= j < i :: changes[j].at.Parsed? && changes[j].status != ""
                                         && parsed[j] == VersionChange(changes[j].at.version, changes[j].status)
    {
      var change := changes[i];
      if !change.at.Parsed? || change.status == "" {
        return None;
      }
      parsed := parsed + [VersionChange(change.at.version, change.status)];
    }
    assert parsed == ParseChanges(changes);
    return Some(parsed);
  }

  // The second loop: take over every status up to the version.
  method Replay(timeline: seq<VersionChange>, status: string, v: Version) returns (current: string)
    requires Sorted(timeline)
    ensures current == StatusAt(timeline, status, v)
  {
    current := status;
    var k := 0;
    while k < |timeline| && !(v < timeline[k].at)
      invariant 0 <= k <= |timeline|
      invariant k > 0 ==> timeline[k - 1].at <= v
      invariant InForce(timeline[..k], v) == if k == 0 then None else Some(timeline[k - 1])
      invariant current == if k == 0 then status else timeline[k - 1].status
    {
      current := timeline[k].status;
      TakeOneMore(timeline, k);
      InForceTakesLast(timeline[..k], timeline[k], v);
      k := k + 1;
    }
    LaterChangesDoNotCount(timeline, k, v);
  }

  /** evaluateRangeChangeTimeline: parse the changes, sort them, and replay them up to the version. */
  method EvaluateTimeline(changes: seq<Change>, status: string, v: Version) returns (r: Applicability)
    ensures r == Affected <==> SaysAffected(changes, status, v)
    ensures r == Unknown <==> !Readable(changes) || (status == "" && NoneDecides(changes, v))
    ensures r == Timeline(changes, status, v)
  {
    TimelineSays(changes, status, v);
    var parsed := ParseAll(changes);
    if parsed.None? { return Unknown; }
    var timeline := SortStably(parsed.value, v);
    var current := Replay(timeline, status, v);
    return Classify(current);
  }

  // ----- when the order of the changes does not matter -----

  // All changes at the greatest version at or below v mean the same.
  ghost predicate AgreeInForce(t: seq<VersionChange>, v: Version) {
    forall c | c in t && InForce(t, v).Some? && c.at == InForce(t, v).value.at ::
      Classify(c.status) == Classify(InForce(t, v).value.status)
  }

  ghost predicate OrderIrrelevant(t: seq<VersionChange>, status: string, v: Version) {
    forall p: seq<VersionChange> | multiset(p) == multiset(t) ::
      Classify(StatusAt(p, status, v)) == Classify(StatusAt(t, status, v))
  }

  lemma SameMembers(p: seq<VersionChange>, t: seq<VersionChange>)
    requires multiset(p) == multiset(t)
    ensures forall c :: c in p <==> c in t
  {
    forall c
      ensures c in p <==> c in t
    {
      assert c in p <==> c in multiset(p);
      assert c in t <==> c in multiset(t);
    }
  }

  lemma AgreementDecides(p: seq<VersionChange>, t: seq<VersionChange>, status: string, v: Version)
    requires AgreeInForce(t, v) && forall c :: c in p <==> c in t
    ensures Classify(StatusAt(p, status, v)) == Classify(StatusAt(t, status, v))
  {
    InForceIsGreatest(p, v);
    InForceIsGreatest(t, v);
    if InForce(t, v).Some? {
      var j :| 0 <= j < |p| && p[j] == InForce(t, v).value;
      assert p[j].at <= v;
    }
    if InForce(p, v).Some? {
      var i :| 0 <= i < |t| && t[i] == InForce(p, v).value;
      assert t[i] in t && t[i].at <= v;
    }
  }

  lemma InForceBounds(t: seq<VersionChange>, c: VersionChange, v: Version)
    requires c in t && c.at <= v
    ensures InForce(t, v).Some? && c.at <= InForce(t, v).value.at
  {
    InForceIsGreatest(t, v);
    var i :| 0 <= i < |t| && t[i] == c;
    assert t[i].at <= v;
  }

  // Moving a change of the deciding version to the end puts it in force.
  lemma LastDecides(t: seq<VersionChange>, i: nat, v: Version)
    requires i < |t| && InForce(t, v).Some? && t[i].at == InForce(t, v).value.at
    ensures InForce(t[..i] + t[i + 1..] + [t[i]], v) == Some(t[i])
  {
    var others := t[..i] + t[i + 1..];
    InForceIsGreatest(t, v);
    InForceIsGreatest(others, v);
    InForceTakesLast(others, t[i], v);
    assert forall o | o in others :: o in t;
    if InForce(others, v).Some? { InForceBounds(t, InForce(others, v).value, v); }
  }

  lemma PutLast(t: seq<VersionChange>, c: VersionChange, v: Version) returns (p: seq<VersionChange>)
    requires c in t && InForce(t, v).Some? && c.at == InForce(t, v).value.at
    ensures multiset(p) == multiset(t) && InForce(p, v) == Some(c)
  {
    var i :| 0 <= i < |t| && t[i] == c;
    p := t[..i] + t[i + 1..] + [c];
    assert t == t[..i] + [c] + t[i + 1..];
    LastDecides(t, i, v);
  }

  /**
   The timeline gives the same answer for every order of its changes if and only if the changes that
   share the deciding version agree. Distinct versions are enough for that.
   */
  lemma OrderIrrelevantIffAgreement(t: seq<VersionChange>, status: string, v: Version)
    ensures OrderIrrelevant(t, status, v) <==> AgreeInForce(t, v)
  {
    if AgreeInForce(t, v) {
      forall p: seq<VersionChange> | multiset(p) == multiset(t)
        ensures Classify(StatusAt(p, status, v)) == Classify(StatusAt(t, status, v))
      {
        SameMembers(p, t);
        AgreementDecides(p, t, status, v);
      }
    } else {
      var c :| c in t && InForce(t, v).Some? && c.at == InForce(t, v).value.at
               && Classify(c.status) != Classify(InForce(t, v).value.status);
      var p := PutLast(t, c, v);
      assert Classify(StatusAt(p, status, v)) != Classify(StatusAt(t, status, v));
    }
  }

  /** Changes at distinct versions can be listed in any order. */
  lemma DistinctVersionsNeedNoOrder(t: seq<VersionChange>, status: string, v: Version)
    requires forall i, j | 0 <= i < j < |t| :: t[i].at != t[j].at
    ensures OrderIrrelevant(t, status, v)
  {
    InForceIsGreatest(t, v);
    forall c | c in t && InForce(t, v).Some? && c.at == InForce(t, v).value.at
      ensures c == InForce(t, v).value
    {
      var i :| 0 <= i < |t| && t[i] == c;
      var j :| 0 <= j < |t| && t[j] == InForce(t, v).value;
      assert i == j;
    }
    OrderIrrelevantIffAgreement(t, status, v);
  }

  // The same for the changes as they are received, read or not.
  ghost predicate AnyOrderDoes(changes: seq<Change>, status: string, v: Version) {
    forall p: seq<Change> | multiset(p) == multiset(changes) :: Timeline(p, status, v) == Timeline(changes, status, v)
  }

  lemma SameChanges(p: seq<Change>, changes: seq<Change>)
    requires multiset(p) == multiset(changes)
    ensures AllParse(p) <==> AllParse(changes)
    ensures AllParse(changes) ==> forall c :: c in ParseChanges(p) <==> c in ParseChanges(changes)
  {
    forall c
      ensures c in p <==> c in changes
    {
      assert c in p <==> c in multiset(p);
      assert c in changes <==> c in multiset(changes);
    }
    assert AllParse(p) <==> forall c | c in p :: c.at.Parsed? && c.status != "";
    assert AllParse(changes) <==> forall c | c in changes :: c.at.Parsed? && c.status != "";
    if AllParse(changes) {
      ParsedMembers(p, changes);
      ParsedMembers(changes, p);
    }
  }

  lemma ParsedMembers(p: seq<Change>, q: seq<Change>)
    requires AllParse(p) && AllParse(q) && forall c | c in p :: c in q
    ensures forall c | c in ParseChanges(p) :: c in ParseChanges(q)
  {
    forall c | c in ParseChanges(p)
      ensures c in ParseChanges(q)
    {
      var i :| 0 <= i < |p| && ParseChanges(p)[i] == c;
      assert p[i] in p && p[i] in q;
      var j :| 0 <= j < |q| && q[j] == p[i];
      assert ParseChanges(q)[j] == c;
    }
  }

  lemma ParsedJoin(a: seq<Change>, b: seq<Change>)
    requires AllParse(a) && AllParse(b)
    ensures AllParse(a + b) && ParseChanges(a + b) == ParseChanges(a) + ParseChanges(b)
  {
  }

  // Moving one change to the end.
  lemma MovedLast(changes: seq<Change>, i: nat) returns (p: seq<Change>)
    requires AllParse(changes) && i < |changes|
    ensures multiset(p) == multiset(changes) && AllParse(p)
    ensures var t := ParseChanges(changes); ParseChanges(p) == t[..i] + t[i + 1..] + [t[i]]
  {
    var a, c, b := changes[..i], [changes[i]], changes[i + 1..];
    p := a + b + c;
    assert changes == a + c + b;
    ParsedJoin(a, b);
    ParsedJoin(a + b, c);
    var t := ParseChanges(changes);
    assert ParseChanges(a) == t[..i] && ParseChanges(b) == t[i + 1..] && ParseChanges(c) == [t[i]];
  }

  /**
   As received: a list of changes gives the same answer in every order if and only if one of them cannot be
   read, or all those at the deciding version mean the same.
   */
  lemma AnyOrderDoesIffAgreement(changes: seq<Change>, status: string, v: Version)
    ensures AnyOrderDoes(changes, status, v) <==> !AllParse(changes) || AgreeInForce(ParseChanges(changes), v)
  {
    if !AllParse(changes) || AgreeInForce(ParseChanges(changes), v) {
      forall p: seq<Change> | multiset(p) == multiset(changes)
        ensures Timeline(p, status, v) == Timeline(changes, status, v)
      {
        SameChanges(p, changes);
        if AllParse(changes) { AgreementDecides(ParseChanges(p), ParseChanges(changes), status, v); }
      }
    } else {
      var t := ParseChanges(changes);
      var c :| c in t && InForce(t, v).Some? && c.at == InForce(t, v).value.at
               && Classify(c.status) != Classify(InForce(t, v).value.status);
      var i :| 0 <= i < |t| && t[i] == c;
      var p := MovedLast(changes, i);
      LastDecides(t, i, v);
      assert Timeline(p, status, v) != Timeline(changes, status, v);
    }
  }

  /** It can matter: two changes at one version, listed one way or the other. */
  lemma OrderCanMatter(v: Version)
    ensures var affected, unaffected := Change(Parsed(v), "affected"), Change(Parsed(v), "unaffected");
            Timeline([affected, unaffected], "", v) == NotAffected && Timeline([unaffected, affected], "", v) == Affected
  {
    LastOfTwo(Change(Parsed(v), "affected"), Change(Parsed(v), "unaffected"), v);
    LastOfTwo(Change(Parsed(v), "unaffected"), Change(Parsed(v), "affected"), v);
  }

  lemma LastOfTwo(c: Change, d: Change, v: Version)
    requires c.at == Parsed(v) && d.at == Parsed(v) && c.status != "" && d.status != ""
    ensures Timeline([c, d], "", v) == Classify(d.status)
  {
    var x, y := VersionChange(v, c.status), VersionChange(v, d.status);
    assert ParseChanges([c, d]) == [] + [x] + [y];
    InForceTakesLast([], x, v);
    InForceTakesLast([] + [x], y, v);
  }

  // ----- all ranges -----

  datatype RangeResult = RangeResult(state: Applicability, relevant: bool)

  /** evaluateAffectedRange. */
  function EvaluateRange(identity: Identity, r: Range): RangeResult {
    if r.NilRange? then RangeResult(Unknown, true)
    else if StatusIsUnaffected(r.status) then RangeResult(NotAffected, true)
    else
      var m := MatchIdentity(identity, r);
      if m.unknown then RangeResult(Unknown, true)
      else if m.constrained && !m.matched then RangeResult(NotAffected, false)
      else if identity.installed.Absent? then RangeResult(Unknown, true)
      else if r.constraint.Invalid? then RangeResult(Unknown, true)
      else if r.constraint.Unconstrained? && r.changes == [] then RangeResult(Affected, true)
      else if identity.installed.Malformed? then RangeResult(Unknown, true)
      else if r.changes != [] then RangeResult(Timeline(r.changes, r.status, identity.installed.version), true)
      else RangeResult(if r.constraint.check(identity.installed.version) then Affected else NotAffected, true)
  }

  // ----- when a range hits a package, and when it is in doubt -----

  // The change that a reader of the list would find in force: none at a version up to v is later, and none
  // at the same version comes after it.
  ghost predicate Decides(changes: seq<Change>, i: int, v: Version) {
    && 0 <= i < |changes| && changes[i].at.Parsed? && changes[i].at.version <= v
    && forall j | 0 <= j < |changes| && changes[j].at.Parsed? && changes[j].at.version <= v ::
         changes[j].at.version < changes[i].at.version || (changes[j].at.version == changes[i].at.version && j <= i)
  }

  ghost predicate NoneDecides(changes: seq<Change>, v: Version) {
    forall j | 0 <= j < |changes| && changes[j].at.Parsed? :: changes[j].at.version > v
  }

  ghost predicate Readable(changes: seq<Change>) {
    forall j | 0 <= j < |changes| :: changes[j].at.Parsed? && changes[j].status != ""
  }

  ghost predicate SaysAffected(changes: seq<Change>, status: string, v: Version) {
    && Readable(changes)
    && ((exists i :: Decides(changes, i, v) && (changes[i].status == "affected" || changes[i].status == "vulnerable"))
        || (NoneDecides(changes, v) && (status == "affected" || status == "vulnerable")))
  }

  ghost predicate Excluded(r: Range)
    requires r.Range?
  {
    r.status in {"unaffected", "not_affected", "notaffected", "fixed"}
  }

  // The range names no package, or the one at hand: by package URL if it gives one, else by name.
  ghost predicate Concerns(identity: Identity, r: Range)
    requires r.Range?
  {
    if r.purl.Some? then r.purl.value != "" && r.purl.value in identity.purls
    else !r.cpe && (r.package == "" || r.package == identity.package)
  }

  ghost predicate MayConcern(identity: Identity, r: Range)
    requires r.Range?
  {
    if r.purl.Some? then identity.purls == [] else r.cpe || (r.package != "" && identity.package == "")
  }

  /**
   A range hits: it is not marked as unaffected, concerns the package, and either has no bounds at all, or its
   changes make the installed version affected, or there are none and its constraint admits that version.
   */
  ghost predicate Hits(identity: Identity, r: Range) {
    && r.Range? && !Excluded(r) && Concerns(identity, r) && !identity.installed.Absent? && !r.constraint.Invalid?
    && ((r.constraint.Unconstrained? && r.changes == [])
        || (identity.installed.Parsed? && r.changes != [] && SaysAffected(r.changes, r.status, identity.installed.version))
        || (identity.installed.Parsed? && r.changes == [] && r.constraint.Admits? && r.constraint.check(identity.installed.version)))
  }

  /**
   A range is in doubt: it is empty; or it may or may not concern the package; or it does, and the installed
   version, the constraint or a change that would be needed cannot be read, or no status is given for the version.
   */
  ghost predicate InDoubt(identity: Identity, r: Range) {
    r.NilRange? ||
    (!Excluded(r) &&
     (MayConcern(identity, r) ||
      (Concerns(identity, r) &&
       (|| identity.installed.Absent? || r.constraint.Invalid?
        || (identity.installed.Malformed? && (r.constraint.Admits? || r.changes != []))
        || (identity.installed.Parsed? && r.changes != [] &&
            (!Readable(r.changes) || (r.status == "" && NoneDecides(r.changes, identity.installed.version))))))))
  }

  lemma {:induction false} InForceHasPlace(t: seq<VersionChange>, v: Version) returns (i: nat)
    requires InForce(t, v).Some?
    ensures i < |t| && t[i] == InForce(t, v).value && t[i].at <= v
    ensures forall j | 0 <= j < |t| && t[j].at <= v :: t[j].at < t[i].at || (t[j].at == t[i].at && j <= i)
  {
    var init, last := t[..|t| - 1], t[|t| - 1];
    InForceIsGreatest(init, v);
    if last.at <= v && (InForce(init, v).None? || InForce(init, v).value.at <= last.at) {
      i := |t| - 1;
    } else {
      i := InForceHasPlace(init, v);
    }
  }

  lemma DecidesOnce(changes: seq<Change>, i: int, k: int, v: Version)
    requires Decides(changes, i, v) && Decides(changes, k, v)
    ensures i == k
  {
  }

  lemma InForceDecides(changes: seq<Change>, v: Version) returns (i: nat)
    requires Readable(changes) && InForce(ParseChanges(changes), v).Some?
    ensures Decides(changes, i, v) && changes[i].status == InForce(ParseChanges(changes), v).value.status
    ensures forall k | Decides(changes, k, v) :: k == i
  {
    i := InForceHasPlace(ParseChanges(changes), v);
    forall k | Decides(changes, k, v)
      ensures k == i
    {
      DecidesOnce(changes, i, k, v);
    }
  }

  lemma NothingInForce(changes: seq<Change>, v: Version)
    requires Readable(changes)
    ensures InForce(ParseChanges(changes), v).None? <==> NoneDecides(changes, v)
  {
    var t := ParseChanges(changes);
    InForceIsGreatest(t, v);
    forall j | 0 <= j < |changes|
      ensures t[j].at == changes[j].at.version
    {
    }
    if InForce(t, v).Some? {
      var i := InForceDecides(changes, v);
    }
  }

  lemma TimelineSays(changes: seq<Change>, status: string, v: Version)
    ensures Timeline(changes, status, v) == Affected <==> SaysAffected(changes, status, v)
    ensures Timeline(changes, status, v) == Unknown <==> !Readable(changes) || (status == "" && NoneDecides(changes, v))
  {
    if Readable(changes) {
      NothingInForce(changes, v);
      if InForce(ParseChanges(changes), v).Some? {
        var i := InForceDecides(changes, v);
      } else {
        assert forall k :: !Decides(changes, k, v);
      }
    }
  }

  lemma WhatARangeSays(identity: Identity, r: Range)
    ensures EvaluateRange(identity, r) == RangeResult(Affected, true) <==> Hits(identity, r)
    ensures EvaluateRange(identity, r) == RangeResult(Unknown, true) <==> InDoubt(identity, r)
  {
    if r.Range? && identity.installed.Parsed? { TimelineSays(r.changes, r.status, identity.installed.version); }
  }

  // The result over a list: Affected wins over Unknown, and Unknown over NotAffected.
  function Aggregate(identity: Identity, ranges: seq<Range>): Applicability {
    if exists i | 0 <= i < |ranges| :: EvaluateRange(identity, ranges[i]) == RangeResult(Affected, true) then Affected
    else if exists i | 0 <= i < |ranges| :: EvaluateRange(identity, ranges[i]) == RangeResult(Unknown, true) then Unknown
    else NotAffected
  }

  lemma AggregateSays(identity: Identity, ranges: seq<Range>)
    ensures Aggregate(identity, ranges) == Affected <==> exists i | 0 <= i < |ranges| :: Hits(identity, ranges[i])
    ensures Aggregate(identity, ranges) == Unknown <==>
              && (forall i | 0 <= i < |ranges| :: !Hits(identity, ranges[i]))
              && exists i | 0 <= i < |ranges| :: InDoubt(identity, ranges[i])
  {
    forall i | 0 <= i < |ranges|
      ensures EvaluateRange(identity, ranges[i]) == RangeResult(Affected, true) <==> Hits(identity, ranges[i])
      ensures EvaluateRange(identity, ranges[i]) == RangeResult(Unknown, true) <==> InDoubt(identity, ranges[i])
    {
      WhatARangeSays(identity, ranges[i]);
    }
  }

  /** evaluateAffectedRanges. No ranges at all means affected. */
  method EvaluateRanges(identity: Identity, ranges: seq<Range>) returns (a: Applicability)
    ensures a == Affected <==> ranges == [] || exists i | 0 <= i < |ranges| :: Hits(identity, ranges[i])
    ensures a == Unknown <==> ranges != [] && (forall i | 0 <= i < |ranges| :: !Hits(identity, ranges[i]))
                              && exists i | 0 <= i < |ranges| :: InDoubt(identity, ranges[i])
    ensures a == if ranges == [] then Affected else Aggregate(identity, ranges)
  {
    if |ranges| == 0 { return Affected; }
    a := EvaluateEach(identity, ranges);
    AggregateSays(identity, ranges);
  }

  // The loop over the ranges.
  method EvaluateEach(identity: Identity, ranges: seq<Range>) returns (a: Applicability)
    ensures a == Aggregate(identity, ranges)
  {
    var matched, unknown := false, false;
    for i := 0 to |ranges|
      invariant matched <==> exists j | 0 <= j < i :: EvaluateRange(identity, ranges[j]) == RangeResult(Affected, true)
      invariant unknown <==> exists j | 0 <= j < i :: EvaluateRange(identity, ranges[j]) == RangeResult(Unknown, true)
    {
      var r := EvaluateRange(identity, ranges[i]);
      if r.relevant {
        match r.state
        case Affected => matched := true;
        case Unknown => unknown := true;
        case NotAffected =>
      }
    }
    if matched { return Affected; }
    if unknown { return Unknown; }
    return NotAffected;
  }

  function Weight(a: Applicability): int {
    match a case NotAffected => 0 case Unknown => 1 case Affected => 2
  }

  function Join(a: Applicability, b: Applicability): Applicability { if Weight(a) >= Weight(b) then a else b }

  /** The result over two lists of ranges together is the stronger of the two results. */
  lemma AggregateIsJoin(identity: Identity, xs: seq<Range>, ys: seq<Range>)
    ensures Aggregate(identity, xs + ys) == Join(Aggregate(identity, xs), Aggregate(identity, ys))
  {
    var zs := xs + ys;
    forall a: Applicability
      ensures (exists i | 0 <= i < |zs| :: EvaluateRange(identity, zs[i]) == RangeResult(a, true)) <==>
              (exists i | 0 <= i < |xs| :: EvaluateRange(identity, xs[i]) == RangeResult(a, true)) ||
              (exists i | 0 <= i < |ys| :: EvaluateRange(identity, ys[i]) == RangeResult(a, true))
    {
      if i :| 0 <= i < |xs| && EvaluateRange(identity, xs[i]) == RangeResult(a, true) { assert zs[i] == xs[i]; }
      if i :| 0 <= i < |ys| && EvaluateRange(identity, ys[i]) == RangeResult(a, true) { assert zs[|xs| + i] == ys[i]; }
    }
  }

  /**
   A finding is reported as not affected exactly if no range is affected and none is in doubt: an
   incomplete identity is never turned into an all-clear.
   */
  lemma NotAffectedOnlyWithoutDoubt(identity: Identity, ranges: seq<Range>)
    ensures Aggregate(identity, ranges) == NotAffected <==>
            forall i | 0 <= i < |ranges| ::
              EvaluateRange(identity, ranges[i]).relevant ==> EvaluateRange(identity, ranges[i]).state == NotAffected
  {
    if exists i | 0 <= i < |ranges| :: EvaluateRange(identity, ranges[i]).relevant && EvaluateRange(identity, ranges[i]).state != NotAffected {
      var i :| 0 <= i < |ranges| && EvaluateRange(identity, ranges[i]).relevant && EvaluateRange(identity, ranges[i]).state != NotAffected;
      assert EvaluateRange(identity, ranges[i]) == RangeResult(EvaluateRange(identity, ranges[i]).state, true);
    }
  }

  // ----- learning more about a package -----

  // The second identity fills in what the first one lacks, and contradicts nothing.
  predicate Completes(less: Identity, more: Identity) {
    && (less.package != "" ==> more.package == less.package)
    && (less.purls != [] ==> more.purls == less.purls)
    && (less.installed.Parsed? ==> more.installed == less.installed)
    && (less.installed.Malformed? ==> !more.installed.Absent?)
  }

  lemma RangeStaysDecided(less: Identity, more: Identity, r: Range)
    requires Completes(less, more) && EvaluateRange(less, r) != RangeResult(Unknown, true)
    ensures EvaluateRange(more, r) == EvaluateRange(less, r)
  {
  }

  /**
   An answer other than unknown is never overturned by learning a missing package name, package URL or
   version: whatever is in doubt is reported as unknown.
   */
  lemma DecisionsStand(less: Identity, more: Identity, ranges: seq<Range>)
    requires Completes(less, more) && Aggregate(less, ranges) != Unknown
    ensures Aggregate(more, ranges) == Aggregate(less, ranges)
  {
    if Aggregate(less, ranges) == Affected {
      var i :| 0 <= i < |ranges| && EvaluateRange(less, ranges[i]) == RangeResult(Affected, true);
      RangeStaysDecided(less, more, ranges[i]);
      assert EvaluateRange(more, ranges[i]) == RangeResult(Affected, true);
    } else {
      forall i | 0 <= i < |ranges|
        ensures EvaluateRange(more, ranges[i]) == EvaluateRange(less, ranges[i])
      {
        RangeStaysDecided(less, more, ranges[i]);
      }
    }
  }
}
