/**
 The CVE change-history synchronization: windows, pages and events, with a durable cursor.

 Times are nanoseconds since Go's zero time. An event identifier is its rank in Go's string order.
 The database is the Store object; every durable state it passes through is kept in a ghost log, so
 that a statement about the whole log is a statement about every point at which a crash may happen.
 A statement that can fail is written as a nondeterministic choice, and a failed write may or may
 not have been committed.
 */
module CveHistory {
  import opened Wrappers
  import opened StringOrder

  const SECOND: int := 1_000_000_000
  const ZERO_TIME: int := 0
  const MAX_WINDOW: int := 120 * 24 * 3600 * SECOND
  const DEFAULT_LOOKBACK: int := 24 * 3600 * SECOND
  const MAX_ATTEMPTS: nat := 3

  datatype Change = Change(at: int, id: Rank)

  datatype Cursor = Cursor(at: int, id: Rank)

  datatype EventRow = EventRow(processed: bool, attempts: nat)

  datatype Page = Page(changes: seq<Change>, resultsPerPage: int, total: int)

  datatype Fetch = Fetched(page: Page) | FetchFailed

  // The feed as the client sees it: an answer per window start, window end, start index and request
  // number. The request number lets the feed answer the same question differently later on.
  type Client = (int, int, nat, nat) -> Fetch

  // What the processing of one event meets: whether the event row can be read back, whether the CVE is
  // known to be tracked or not, whether the current snapshot is fetched and ingested, and whether the
  // run is being cancelled.
  datatype Circumstances = Circumstances(loaded: bool, trackedKnown: bool, tracked: bool, snapshotFetched: bool,
                                         ingested: bool, cancelled: bool)

  // How processing one event ends: the cursor may pass the event unless processing was aborted.
  datatype Outcome = Processed | Quarantined | Aborted

  // What can stop a run: a write that is not acknowledged, a request that fails, or an event whose row
  // was `was` and which met circumstances that do not let it be passed.
  datatype Obstacle = WriteRefused
                    | RequestFailed(client: Client, start: int, end: int, index: nat, number: nat)
                    | Stopped(was: EventRow, met: Circumstances)

  /**
   An event cannot be passed if its row cannot be read back; or if it is not processed yet and it is not known
   whether it is tracked, or it is tracked and its snapshot cannot be fetched, or its ingestion fails
   during a cancellation or before the last attempt.
   */
  ghost predicate CannotPass(was: EventRow, met: Circumstances) {
    !met.loaded ||
    (!was.processed &&
     (!met.trackedKnown ||
      (met.tracked && (!met.snapshotFetched || (!met.ingested && (met.cancelled || was.attempts + 1 < MAX_ATTEMPTS))))))
  }

  ghost predicate Hinders(o: Obstacle) {
    match o
    case WriteRefused => true
    case RequestFailed(client, start, end, index, number) => client(start, end, index, number).FetchFailed?
    case Stopped(was, met) => CannotPass(was, met)
  }

  type Trouble = o: Obstacle | Hinders(o) witness WriteRefused

  // ----- the order on cursors and events -----

  predicate Below(a: Cursor, b: Cursor) {
    a.at < b.at || (a.at == b.at && a.id < b.id)
  }

  function Key(c: Change): Cursor { Cursor(c.at, c.id) }

  /** cveHistoryCursorAtOrAfter: the event lies at or below the cursor. */
  predicate AtOrAfter(cursor: Cursor, c: Change)
    ensures AtOrAfter(cursor, c) <==> !Below(cursor, Key(c))
  {
    if c.at < cursor.at then true
    else if c.at > cursor.at then false
    else c.id <= cursor.id
  }

  /** A request is formatted with RFC 3339, which drops the fraction of the second. */
  function TruncSecond(t: int): (r: int)
    ensures r <= t < r + SECOND
  {
    t - t % SECOND
  }

  // ----- durable state -----

  datatype Snapshot = Snapshot(cursor: Cursor, events: map<Rank, EventRow>, closings: set<int>)

  predicate Handled(events: map<Rank, EventRow>, id: Rank) {
    id in events && (events[id].processed || events[id].attempts >= MAX_ATTEMPTS)
  }

  predicate Grows(a: EventRow, b: EventRow) {
    (a.processed ==> b.processed) && a.attempts <= b.attempts
  }

  // Rows are never removed, never lose their processed mark and never lose an attempt.
  ghost predicate RowsGrow(a: map<Rank, EventRow>, b: map<Rank, EventRow>) {
    forall k | k in a :: k in b && Grows(a[k], b[k])
  }

  ghost predicate Advances(a: Snapshot, b: Snapshot) {
    && (a.cursor == b.cursor || Below(a.cursor, b.cursor))
    && RowsGrow(a.events, b.events)
    && a.closings <= b.closings
  }

  ghost predicate LogAdvances(log: seq<Snapshot>) {
    forall i | 0 < i < |log| :: Advances(log[i - 1], log[i])
  }

  // ----- what an honest feed is, and what it means to skip an event -----

  ghost predicate Sorted(feed: seq<Change>) {
    && (forall i, j | 0 <= i < j < |feed| :: Below(Key(feed[i]), Key(feed[j])))
    && (forall i | 0 <= i < |feed| :: feed[i].id > 0.0)
  }

  /** The number of leading events observed before t. */
  ghost function CountBefore(feed: seq<Change>, t: int): (n: nat)
    ensures n <= |feed|
  {
    if feed == [] || feed[0].at >= t then 0 else 1 + CountBefore(feed[1..], t)
  }

  lemma {:induction false} CountBeforeSplits(feed: seq<Change>, t: int)
    requires Sorted(feed)
    ensures forall i | 0 <= i < |feed| :: i < CountBefore(feed, t) <==> feed[i].at < t
  {
    if feed != [] {
      var tail := feed[1..];
      assert forall i | 0 <= i < |tail| :: tail[i] == feed[i + 1];
      CountBeforeSplits(tail, t);
      forall i | 0 <= i < |feed|
        ensures i < CountBefore(feed, t) <==> feed[i].at < t
      {
        if i > 0 {
          assert Below(Key(feed[0]), Key(feed[i]));
          assert feed[i] == tail[i - 1];
        }
      }
    }
  }

  ghost function Lo(feed: seq<Change>, start: int): nat { CountBefore(feed, TruncSecond(start)) }

  ghost function Hi(feed: seq<Change>, end: int): nat { CountBefore(feed, TruncSecond(end) + 1) }

  // A page lists the events of the requested window from the requested index on, and only the last
  // page of a window is empty or shorter than the page size it reports.
  ghost predicate HonestPage(feed: seq<Change>, start: int, end: int, index: nat, page: Page) {
    var lo, hi := Lo(feed, start), Hi(feed, end);
    lo + index <= hi ==>
      && page.total == hi - lo
      && lo + index + |page.changes| <= hi
      && page.changes == feed[lo + index..lo + index + |page.changes|]
      && (|page.changes| == 0 || |page.changes| < page.resultsPerPage ==> lo + index + |page.changes| == hi)
  }

  ghost predicate Honest(client: Client, feed: seq<Change>) {
    && Sorted(feed)
    && forall start: int, end: int, index: nat, k: nat |
         start <= end && client(start, end, index, k).Fetched? ::
         HonestPage(feed, start, end, index, client(start, end, index, k).page)
  }

  // From some request on no reported total exceeds a bound. A client that is cut off after any number of
  // requests is of this kind, whatever it answered before.
  ghost predicate EventuallyBounded(client: Client, bound: nat) {
    forall start: int, end: int, index: nat, k: nat | client(start, end, index, k).Fetched? ::
      k < bound || client(start, end, index, k).page.total <= bound
  }

  // Closing a window at `c` moves the cursor to `c`, but the feed was only asked for events up to the
  // whole second before it. The events strictly between the two are passed without being seen.
  predicate InGap(closings: set<int>, c: Change) {
    exists w | w in closings :: TruncSecond(w) < c.at < w
  }

  // Every feed event above the origin and not above the cursor was handled or fell into a gap.
  ghost predicate NothingSkipped(feed: seq<Change>, origin: Cursor, s: Snapshot) {
    forall i | 0 <= i < |feed| && Below(origin, Key(feed[i])) && AtOrAfter(s.cursor, feed[i]) ::
      Handled(s.events, feed[i].id) || InGap(s.closings, feed[i])
  }

  ghost predicate NeverSkipped(feed: seq<Change>, origin: Cursor, log: seq<Snapshot>, from: nat) {
    forall i | from <= i < |log| :: NothingSkipped(feed, origin, log[i])
  }

  // The events a run has taken up are exactly those between its start and its cursor that no closed
  // window has cut off.
  ghost predicate SeenExactly(feed: seq<Change>, start: Cursor, cursor: Cursor, closings: set<int>, seen: set<Change>) {
    forall i | 0 <= i < |feed| && Below(start, Key(feed[i])) && AtOrAfter(cursor, feed[i]) ::
      feed[i] in seen <==> !InGap(closings, feed[i])
  }

  // A run that finds the zero time in the cursor starts one day back.
  function RunStart(cursor: Cursor, now: int): Cursor {
    if cursor.at == ZERO_TIME then Cursor(now - DEFAULT_LOOKBACK, 0.0) else cursor
  }

  class Store {
    var cursor: Cursor
    var events: map<Rank, EventRow>
    ghost var closings: set<int>
    ghost var log: seq<Snapshot>
    // Everything that stood in the way of a run, in order.
    ghost var troubles: seq<Trouble>

    ghost function Now(): Snapshot
      reads this
    {
      Snapshot(cursor, events, closings)
    }

    ghost predicate Valid()
      reads this
    {
      && |log| > 0 && log[|log| - 1] == Now()
      && LogAdvances(log)
      && forall w | w in closings :: w <= cursor.at
    }

    constructor (start: Cursor)
      ensures Valid() && cursor == start && events == map[] && closings == {} && log == [Now()] && troubles == []
    {
      cursor, events, closings := start, map[], {};
      log := [Snapshot(start, map[], {})];
      troubles := [];
    }

    // A write to one event row. A write that is not acknowledged may have been committed.
    method WriteEvent(id: Rank, row: EventRow) returns (ok: bool)
      requires Valid()
      requires id in events ==> Grows(events[id], row)
      modifies this
      ensures Valid() && cursor == old(cursor) && closings == old(closings)
      ensures events == old(events)[id := row] || (!ok && events == old(events))
      ensures old(log) <= log && RowsGrow(old(events), events)
      ensures forall i | |old(log)| <= i < |log| :: log[i] == Now()
      ensures troubles == if ok then old(troubles) else old(troubles) + [WriteRefused]
    {
      var committed: bool := *;
      ok := *;
      ok := ok && committed;
      if !ok { troubles := troubles + [WriteRefused]; }
      if committed {
        events := events[id := row];
        log := log + [Now()];
      }
    }

    // persistCVEHistoryCursor. `closing` names the window end when the write closes a window.
    method PersistCursor(next: Cursor, ghost closing: Option<int>) returns (ok: bool)
      requires Valid() && Below(cursor, next)
      requires closing.Some? ==> closing.value == next.at
      modifies this
      ensures Valid() && events == old(events) && old(log) <= log
      ensures var c := if closing.Some? then {closing.value} else {};
              || (cursor == next && closings == old(closings) + c)
              || (!ok && cursor == old(cursor) && closings == old(closings))
      ensures forall i | |old(log)| <= i < |log| :: log[i] == Now()
      ensures troubles == if ok then old(troubles) else old(troubles) + [WriteRefused]
    {
      var committed: bool := *;
      ok := *;
      ok := ok && committed;
      if !ok { troubles := troubles + [WriteRefused]; }
      if committed {
        cursor := next;
        closings := closings + if closing.Some? then {closing.value} else {};
        log := log + [Now()];
      }
    }

    /**
     processCVEHistoryChange, persistCVEHistoryChange and handleCVEHistoryIngestFailure. If all writes are
     acknowledged the outcome follows from the row and the circumstances alone; an attempt is counted only
     for a failed ingestion that was not cancelled, and the event is given up at the third.
     */
    method ProcessChange(change: Change, c: Circumstances) returns (r: Outcome, ghost acknowledged: bool)
      requires Valid()
      modifies this
      ensures Valid() && cursor == old(cursor) && closings == old(closings)
      ensures old(log) <= log && RowsGrow(old(events), events)
      ensures forall k | k in events && k != change.id :: k in old(events) && events[k] == old(events)[k]
      ensures var was := if change.id in old(events) then old(events)[change.id] else EventRow(false, 0);
              var failing := c.loaded && !was.processed && c.trackedKnown && c.tracked && c.snapshotFetched && !c.ingested;
              var done := c.loaded && c.trackedKnown && (!c.tracked || (c.snapshotFetched && c.ingested));
              && (r == Aborted <==>
                    || !acknowledged
                    || !c.loaded
                    || (!was.processed && !c.trackedKnown)
                    || (!was.processed && c.tracked && !c.snapshotFetched)
                    || (failing && (c.cancelled || was.attempts + 1 < 3)))
              && (acknowledged ==> (r == Aborted <==> CannotPass(was, c)))
              && (r == Quarantined <==> acknowledged && failing && !c.cancelled && was.attempts + 1 >= 3)
              && (acknowledged ==>
                    && change.id in events
                    && (events[change.id].processed <==> was.processed || done)
                    && events[change.id].attempts == was.attempts + if failing && !c.cancelled then 1 else 0)
              && (change.id in events ==>
                    && (events[change.id].processed ==> was.processed || done)
                    && was.attempts <= events[change.id].attempts
                    && events[change.id].attempts <= was.attempts + if failing && !c.cancelled then 1 else 0)
              && troubles == old(troubles) + if !acknowledged then [WriteRefused] else if r == Aborted then [Stopped(was, c)] else []
      ensures r != Aborted ==> Handled(events, change.id)
      ensures forall i | |old(log)| <= i < |log| ::
                log[i].cursor == cursor && log[i].closings == closings && RowsGrow(old(events), log[i].events)
    {
      acknowledged := true;
      ghost var was := if change.id in events then events[change.id] else EventRow(false, 0);
      if change.id !in events {
        var inserted := WriteEvent(change.id, EventRow(false, 0));
        if !inserted { return Aborted, false; }
      }
      if !c.loaded { r := Abort(was, c); return; }
      var row := events[change.id];
      if row.processed { return Processed, true; }
      if !c.trackedKnown { r := Abort(was, c); return; }
      if !c.tracked {
        var marked := WriteEvent(change.id, row.(processed := true));
        return if marked then Processed else Aborted, marked;
      }
      if !c.snapshotFetched { r := Abort(was, c); return; }
      if c.ingested {
        var marked := WriteEvent(change.id, row.(processed := true));
        return if marked then Processed else Aborted, marked;
      }
      if c.cancelled { r := Abort(was, c); return; }
      var attempts := row.attempts + 1;
      var recorded := WriteEvent(change.id, row.(attempts := attempts));
      if !recorded { return Aborted, false; }
      if attempts >= MAX_ATTEMPTS { return Quarantined, true; }
      r := Abort(was, c);
    }

    method Abort(ghost was: EventRow, ghost c: Circumstances) returns (r: Outcome)
      requires CannotPass(was, c)
      modifies this`troubles
      ensures r == Aborted && troubles == old(troubles) + [Stopped(was, c)]
    {
      troubles := troubles + [Stopped(was, c)];
      return Aborted;
    }
  }

  // ----- the facts the loops carry -----

  // Every event before feed[p] is below the start of the run or at or below the cursor.
  ghost predicate PassedUpTo(feed: seq<Change>, start: Cursor, cursor: Cursor, p: nat) {
    forall i | 0 <= i < |feed| && i < p :: !Below(start, Key(feed[i])) || AtOrAfter(cursor, feed[i])
  }

  ghost predicate ClosedBy(closings: set<int>, t: int) {
    forall w | w in closings :: w <= t
  }

  lemma PassingOneEvent(feed: seq<Change>, start: Cursor, cursor: Cursor, closings: set<int>, seen: set<Change>, p: nat)
    requires Sorted(feed) && p < |feed| && Below(cursor, Key(feed[p]))
    requires SeenExactly(feed, start, cursor, closings, seen) && PassedUpTo(feed, start, cursor, p)
    requires ClosedBy(closings, cursor.at)
    ensures SeenExactly(feed, start, Key(feed[p]), closings, seen + {feed[p]})
    ensures PassedUpTo(feed, start, Key(feed[p]), p + 1)
  {
    var next := Key(feed[p]);
    assert !InGap(closings, feed[p]);
    forall i | 0 <= i < |feed| && Below(start, Key(feed[i])) && AtOrAfter(next, feed[i])
      ensures feed[i] in seen + {feed[p]} <==> !InGap(closings, feed[i])
    {
      if i < p {
        assert AtOrAfter(cursor, feed[i]);
        assert Below(Key(feed[i]), Key(feed[p]));
      }
    }
    forall i | 0 <= i < |feed| && i < p + 1
      ensures !Below(start, Key(feed[i])) || AtOrAfter(next, feed[i])
    {
      if i < p { assert Below(Key(feed[i]), Key(feed[p])); }
    }
  }

  lemma ClosingAWindow(feed: seq<Change>, start: Cursor, cursor: Cursor, closings: set<int>, seen: set<Change>, end: int)
    requires Sorted(feed) && cursor.at < end
    requires SeenExactly(feed, start, cursor, closings, seen) && PassedUpTo(feed, start, cursor, Hi(feed, end))
    requires forall c | c in seen :: AtOrAfter(cursor, c) && c.at <= TruncSecond(end)
    ensures SeenExactly(feed, start, Cursor(end, 0.0), closings + {end}, seen)
  {
    CountBeforeSplits(feed, TruncSecond(end) + 1);
    var next := Cursor(end, 0.0);
    forall i | 0 <= i < |feed| && Below(start, Key(feed[i])) && AtOrAfter(next, feed[i])
      ensures feed[i] in seen <==> !InGap(closings + {end}, feed[i])
    {
      if !AtOrAfter(cursor, feed[i]) {
        assert i >= Hi(feed, end);
        assert TruncSecond(end) < feed[i].at < end;
        assert end in closings + {end};
      } else if InGap(closings, feed[i]) {
        var w :| w in closings && TruncSecond(w) < feed[i].at < w;
        assert w in closings + {end};
      }
    }
  }

  // What a run has seen, together with what held when it started, covers everything below the cursor.
  lemma NothingSkippedSoFar(feed: seq<Change>, origin: Cursor, before: Snapshot, now: int, s: Snapshot, seen: set<Change>)
    requires NothingSkipped(feed, origin, before)
    requires before.cursor.at == ZERO_TIME ==> !Below(origin, RunStart(before.cursor, now))
    requires RowsGrow(before.events, s.events) && before.closings <= s.closings
    requires SeenExactly(feed, RunStart(before.cursor, now), s.cursor, s.closings, seen)
    requires forall c | c in seen && AtOrAfter(s.cursor, c) :: Handled(s.events, c.id)
    ensures NothingSkipped(feed, origin, s)
  {
    var start := RunStart(before.cursor, now);
    forall i | 0 <= i < |feed| && Below(origin, Key(feed[i])) && AtOrAfter(s.cursor, feed[i])
      ensures Handled(s.events, feed[i].id) || InGap(s.closings, feed[i])
    {
      if !Below(start, Key(feed[i])) {
        assert AtOrAfter(before.cursor, feed[i]);
        if InGap(before.closings, feed[i]) {
          var w :| w in before.closings && TruncSecond(w) < feed[i].at < w;
          assert w in s.closings;
        }
      }
    }
  }

  lemma WindowBounds(feed: seq<Change>, start: int, end: int)
    requires Sorted(feed) && start <= end
    ensures Lo(feed, start) <= Hi(feed, end)
  {
    CountBeforeSplits(feed, TruncSecond(start));
    CountBeforeSplits(feed, TruncSecond(end) + 1);
    if Hi(feed, end) < |feed| {
      assert feed[Hi(feed, end)].at > TruncSecond(end) >= TruncSecond(start);
    }
  }

  // ----- the run -----

  // A run as it is judged: the client, the feed behind it, the cursor from which nothing had been
  // skipped, and the durable state, log length and clock with which the run started.
  datatype Run = Run(client: Client, feed: seq<Change>, origin: Cursor, before: Snapshot, from: nat, now: int) {
    function Start(): Cursor { RunStart(before.cursor, now) }

    ghost predicate Judged() {
      && Honest(client, feed)
      && NothingSkipped(feed, origin, before)
      && (before.cursor.at == ZERO_TIME ==> !Below(origin, Start()) && !Below(Start(), before.cursor))
    }

    // What the run keeps true from its first statement on.
    ghost predicate Keeps(store: Store, seen: set<Change>)
      reads store
    {
      && store.Valid()
      && from <= |store.log|
      && (before.cursor == store.cursor || Below(before.cursor, store.cursor))
      && RowsGrow(before.events, store.events) && before.closings <= store.closings
      && (forall c | c in seen :: Below(before.cursor, Key(c)))
      && (forall c | c in seen && AtOrAfter(store.cursor, c) :: Handled(store.events, c.id))
      && (forall k | k in store.events && k !in before.events :: exists c :: c in seen && c.id == k)
      && (Judged() ==>
            && NeverSkipped(feed, origin, store.log, from)
            && (forall c | c in seen :: c in feed)
            && SeenExactly(feed, Start(), store.cursor, store.closings, seen))
    }

    // Between two events everything seen lies at or below the cursor.
    ghost predicate Settled(store: Store, seen: set<Change>)
      reads store
    {
      Keeps(store, seen) && forall c | c in seen :: AtOrAfter(store.cursor, c)
    }

    // Where a judged run stands in the feed: everything before position p is done with, and nothing
    // seen lies after the last whole second of the window.
    ghost predicate Stands(store: Store, seen: set<Change>, p: nat, end: int)
      reads store
    {
      Judged() ==>
        && PassedUpTo(feed, Start(), store.cursor, p)
        && forall c | c in seen :: c.at <= TruncSecond(end)
    }
  }

  // What a judged run may say once its cursor stands at the next event of the feed.
  lemma PassingKeepsJudgement(run: Run, checkpoint: Cursor, seen: set<Change>, p: nat, s: Snapshot)
    requires run.Judged() && p < |run.feed| && Below(checkpoint, Key(run.feed[p])) && s.cursor == Key(run.feed[p])
    requires SeenExactly(run.feed, run.Start(), checkpoint, s.closings, seen) && ClosedBy(s.closings, checkpoint.at)
    requires PassedUpTo(run.feed, run.Start(), checkpoint, p)
    requires RowsGrow(run.before.events, s.events) && run.before.closings <= s.closings
    requires forall c | c in seen + {run.feed[p]} && AtOrAfter(s.cursor, c) :: Handled(s.events, c.id)
    ensures NothingSkipped(run.feed, run.origin, s)
    ensures SeenExactly(run.feed, run.Start(), s.cursor, s.closings, seen + {run.feed[p]})
    ensures PassedUpTo(run.feed, run.Start(), s.cursor, p + 1)
  {
    PassingOneEvent(run.feed, run.Start(), checkpoint, s.closings, seen, p);
    NothingSkippedSoFar(run.feed, run.origin, run.before, run.now, s, seen + {run.feed[p]});
  }

  /** Move the cursor to an event that has just been processed or quarantined. */
  method Pass(store: Store, change: Change, checkpoint: Cursor, ghost run: Run, ghost seen: set<Change>, ghost p: nat, ghost end: int)
    returns (next: Cursor, ok: bool)
    requires run.Keeps(store, seen + {change}) && checkpoint == store.cursor && Below(checkpoint, Key(change))
    requires Handled(store.events, change.id) && forall c | c in seen :: AtOrAfter(store.cursor, c)
    requires run.Stands(store, seen, p, end)
    requires run.Judged() ==> p < |run.feed| && run.feed[p] == change && change.at <= TruncSecond(end)
    requires run.Judged() ==> SeenExactly(run.feed, run.Start(), store.cursor, store.closings, seen)
    modifies store
    ensures run.Keeps(store, seen + {change}) && old(store.log) <= store.log
    ensures ok ==> run.Settled(store, seen + {change}) && next == store.cursor
    ensures ok ==> run.Stands(store, seen + {change}, p + 1, end)
    ensures store.closings == old(store.closings)
    ensures store.cursor == checkpoint || store.cursor == Key(change)
    ensures if ok then store.troubles == old(store.troubles) else old(store.troubles) < store.troubles
  {
    next := Key(change);
    ok := store.PersistCursor(next, None);
    if run.Judged() && store.cursor == next {
      PassingKeepsJudgement(run, checkpoint, seen, p, store.Now());
    }
  }

  /** Process an event above the cursor; from then on the run has seen it, also if processing aborts. */
  method Process(store: Store, change: Change, ghost run: Run, ghost seen: set<Change>) returns (outcome: Outcome)
    requires run.Settled(store, seen) && Below(store.cursor, Key(change))
    requires run.Judged() ==> change in run.feed
    modifies store
    ensures run.Keeps(store, seen + {change}) && old(store.log) <= store.log
    ensures store.cursor == old(store.cursor) && store.closings == old(store.closings)
    ensures outcome != Aborted ==> Handled(store.events, change.id)
    ensures if outcome != Aborted then store.troubles == old(store.troubles) else old(store.troubles) < store.troubles
    ensures run.Judged() ==> SeenExactly(run.feed, run.Start(), store.cursor, store.closings, seen)
  {
    assert change in seen + {change};
    var circumstances: Circumstances := *;
    ghost var acknowledged;
    outcome, acknowledged := store.ProcessChange(change, circumstances);
  }

  /** One event of a page: skip it, or process it and move the cursor. */
  method TakeUp(store: Store, change: Change, checkpoint: Cursor, ghost run: Run, ghost seen: set<Change>, ghost p: nat, ghost end: int)
    returns (next: Cursor, ok: bool, ghost seen': set<Change>)
    requires run.Settled(store, seen) && checkpoint == store.cursor
    requires run.Stands(store, seen, p, end)
    requires run.Judged() ==> p < |run.feed| && run.feed[p] == change && change.at <= TruncSecond(end)
    modifies store
    ensures run.Keeps(store, seen') && old(store.log) <= store.log
    ensures ok ==> run.Settled(store, seen') && next == store.cursor
    ensures ok ==> run.Stands(store, seen', p + 1, end)
    ensures store.closings == old(store.closings)
    ensures store.cursor == old(store.cursor) || store.cursor == Key(change)
    ensures if ok then store.troubles == old(store.troubles) else old(store.troubles) < store.troubles
  {
    next, ok, seen' := checkpoint, true, seen;
    if AtOrAfter(checkpoint, change) {
      return;
    }
    seen' := seen + {change};
    var outcome := Process(store, change, run, seen);
    if outcome == Aborted {
      return next, false, seen';
    }
    next, ok := Pass(store, change, checkpoint, run, seen, p, end);
  }

  /** The events of one page. */
  method TakeUpPage(store: Store, changes: seq<Change>, checkpoint: Cursor, ghost run: Run, ghost seen: set<Change>, ghost p: nat,
                    ghost start: int, ghost end: int)
    returns (next: Cursor, ok: bool, ghost seen': set<Change>)
    requires run.Settled(store, seen) && checkpoint == store.cursor
    requires run.Stands(store, seen, p, end)
    requires run.Judged() ==> p + |changes| <= |run.feed| && changes == run.feed[p..p + |changes|]
    requires run.Judged() ==> forall c | c in changes :: c.at <= TruncSecond(end)
    requires run.Judged() ==> checkpoint.at <= Max(start, TruncSecond(end))
    modifies store
    ensures run.Keeps(store, seen') && old(store.log) <= store.log
    ensures ok ==> run.Settled(store, seen') && next == store.cursor
    ensures ok ==> run.Stands(store, seen', p + |changes|, end)
    ensures ok && run.Judged() ==> next.at <= Max(start, TruncSecond(end))
    ensures store.closings == old(store.closings)
    ensures if ok then store.troubles == old(store.troubles) else old(store.troubles) < store.troubles
  {
    next, ok, seen' := checkpoint, true, seen;
    var i := 0;
    while i < |changes|
      invariant 0 <= i <= |changes|
      invariant run.Settled(store, seen') && next == store.cursor && old(store.log) <= store.log
      invariant run.Stands(store, seen', p + i, end)
      invariant store.closings == old(store.closings) && store.troubles == old(store.troubles)
      invariant run.Judged() ==> next.at <= Max(start, TruncSecond(end))
    {
      assert changes[i] in changes;
      next, ok, seen' := TakeUp(store, changes[i], next, run, seen', p + i, end);
      if !ok { return; }
      i := i + 1;
    }
  }

  /** Move the cursor to the end of a window all of whose events have been taken up. */
  method CloseWindow(store: Store, windowEnd: int, checkpoint: Cursor, ghost run: Run, ghost seen: set<Change>)
    returns (next: Cursor, ok: bool)
    requires run.Settled(store, seen) && checkpoint == store.cursor
    requires run.Judged() ==> run.Stands(store, seen, Hi(run.feed, windowEnd), windowEnd)
    modifies store
    ensures run.Keeps(store, seen) && old(store.log) <= store.log
    ensures ok ==> run.Settled(store, seen) && next == store.cursor && windowEnd <= next.at
    ensures ok ==> run.Stands(store, seen, 0, windowEnd)
    ensures ok ==> next.at == Max(checkpoint.at, windowEnd)
    ensures ok ==> store.closings == old(store.closings) + if checkpoint.at < windowEnd then {windowEnd} else {}
    ensures if ok then store.troubles == old(store.troubles) else old(store.troubles) < store.troubles
  {
    next, ok := checkpoint, true;
    if next.at < windowEnd {
      next := Cursor(windowEnd, 0.0);
      ghost var closings := store.closings;
      ok := store.PersistCursor(next, Some(windowEnd));
      if run.Judged() && store.cursor == next {
        ClosingAWindow(run.feed, run.Start(), checkpoint, closings, seen, windowEnd);
        NothingSkippedSoFar(run.feed, run.origin, run.before, run.now, store.Now(), seen);
      }
    }
  }

  lemma PageFromFeed(run: Run, start: int, end: int, index: nat, page: Page)
    requires run.Judged() && start <= end && Lo(run.feed, start) + index <= Hi(run.feed, end)
    requires HonestPage(run.feed, start, end, index, page)
    ensures forall c | c in page.changes :: c.at <= TruncSecond(end)
  {
    CountBeforeSplits(run.feed, TruncSecond(end) + 1);
  }

  // The events before the first one of a window are done with when the window is opened.
  lemma WindowOpens(store: Store, run: Run, seen: set<Change>, start: int, end: int)
    requires start <= end && (start <= store.cursor.at || start == run.Start().at) && run.Stands(store, seen, 0, end)
    requires run.Judged() ==> store.cursor.at <= start
    ensures BetweenPages(run, store, seen, start, end, 0, true)
  {
    if run.Judged() {
      WindowBounds(run.feed, start, end);
      CountBeforeSplits(run.feed, TruncSecond(start));
    }
  }

  // Where a judged run stands in the window between two pages.
  ghost predicate BetweenPages(run: Run, store: Store, seen: set<Change>, start: int, end: int, index: nat, more: bool)
    reads store
  {
    && run.Stands(store, seen, Lo(run.feed, start) + index, end)
    && (run.Judged() ==>
          && Lo(run.feed, start) + index <= Hi(run.feed, end)
          && (!more ==> Lo(run.feed, start) + index == Hi(run.feed, end))
          && store.cursor.at <= Max(start, TruncSecond(end)))
  }

  /** One page: fetch it, take up its events, and decide whether another one follows. */
  method SyncPage(store: Store, client: Client, windowStart: int, windowEnd: int, startIndex: nat, checkpoint: Cursor, requests: nat,
                  ghost bound: nat, ghost run: Run, ghost seen: set<Change>)
    returns (next: Cursor, startIndex': nat, more: bool, ok: bool, ghost seen': set<Change>)
    requires run.Settled(store, seen) && checkpoint == store.cursor && client == run.client
    requires EventuallyBounded(client, bound) && windowStart < windowEnd
    requires BetweenPages(run, store, seen, windowStart, windowEnd, startIndex, true)
    modifies store
    ensures run.Keeps(store, seen') && old(store.log) <= store.log && store.closings == old(store.closings)
    ensures ok ==> run.Settled(store, seen') && next == store.cursor
    ensures ok ==> BetweenPages(run, store, seen', windowStart, windowEnd, startIndex', more)
    ensures ok && more ==> startIndex < startIndex' && (requests < bound || startIndex' < bound)
    ensures if ok then store.troubles == old(store.troubles) else old(store.troubles) < store.troubles
    ensures ok ==>
              var answer := client(windowStart, windowEnd, startIndex, requests);
              && answer.Fetched? && startIndex' == startIndex + |answer.page.changes|
              && (more <==> answer.page.changes != [] && startIndex' < answer.page.total
                            && answer.page.resultsPerPage <= |answer.page.changes|)
    ensures ok && run.Judged() ==> (more <==> Lo(run.feed, windowStart) + startIndex' < Hi(run.feed, windowEnd))
  {
    next, startIndex', more, ok, seen' := checkpoint, startIndex, true, false, seen;
    var answer := client(windowStart, windowEnd, startIndex, requests);
    if answer.FetchFailed? {
      store.troubles := store.troubles + [RequestFailed(client, windowStart, windowEnd, startIndex, requests)];
      return;
    }
    var page := answer.page;
    if run.Judged() {
      PageFromFeed(run, windowStart, windowEnd, startIndex, page);
    }
    next, ok, seen' := TakeUpPage(store, page.changes, next, run, seen, Lo(run.feed, windowStart) + startIndex, windowStart, windowEnd);
    if !ok { return; }
    var pageSize := if page.resultsPerPage <= 0 then |page.changes| else page.resultsPerPage;
    startIndex' := startIndex + |page.changes|;
    more := !(|page.changes| == 0 || page.total <= startIndex' || |page.changes| < pageSize);
  }

  /** One window: fetch page after page, take up every event, then close the window. */
  method SyncWindow(store: Store, client: Client, windowStart: int, windowEnd: int, checkpoint: Cursor, requests: nat,
                    ghost bound: nat, ghost run: Run, ghost seen: set<Change>)
    returns (next: Cursor, requests': nat, ok: bool, ghost seen': set<Change>)
    requires run.Settled(store, seen) && checkpoint == store.cursor && client == run.client
    requires EventuallyBounded(client, bound)
    requires windowStart < windowEnd && (windowStart <= checkpoint.at || windowStart == run.Start().at)
    requires run.Stands(store, seen, 0, windowEnd)
    requires run.Judged() ==> checkpoint.at <= windowStart
    modifies store
    ensures run.Keeps(store, seen') && old(store.log) <= store.log
    ensures ok ==> run.Settled(store, seen') && next == store.cursor && windowEnd <= next.at
    ensures ok ==> run.Stands(store, seen', 0, windowEnd)
    ensures ok ==> old(store.closings) <= store.closings <= old(store.closings) + {windowEnd}
    ensures ok && run.Judged() ==> next.at == windowEnd && (windowEnd % SECOND != 0 ==> windowEnd in store.closings)
    ensures if ok then store.troubles == old(store.troubles) else old(store.troubles) < store.troubles
  {
    next, requests', ok, seen' := checkpoint, requests, true, seen;
    WindowOpens(store, run, seen, windowStart, windowEnd);
    var startIndex: nat := 0;
    var more := true;
    while more
      invariant run.Settled(store, seen') && next == store.cursor && old(store.log) <= store.log
      invariant BetweenPages(run, store, seen', windowStart, windowEnd, startIndex, more)
      invariant store.closings == old(store.closings) && store.troubles == old(store.troubles)
      decreases more, Max(0, bound - requests'), bound - startIndex
    {
      next, startIndex, more, ok, seen' :=
        SyncPage(store, client, windowStart, windowEnd, startIndex, next, requests', bound, run, seen');
      requests' := requests' + 1;
      if !ok { return; }
    }
    next, ok := CloseWindow(store, windowEnd, next, run, seen');
  }

  /** The ends of the windows between two instants, at most 120 days apart. */
  ghost function WindowEnds(start: int, now: int): (ends: set<int>)
    ensures forall w | w in ends :: start < w <= now
    decreases now - start
  {
    if start >= now then {} else
    var end := Min(start + MAX_WINDOW, now);
    {end} + WindowEnds(end, now)
  }

  // The windows a finished run has gone through leave these closings.
  ghost predicate ClosedWindows(before: set<int>, after: set<int>, ends: set<int>) {
    && after <= before + ends
    && forall w | w in ends && w % SECOND != 0 :: w in after
  }

  lemma RunBegins(store: Store, run: Run)
    requires store.Valid() && run.before == store.Now() && run.from == |store.log|
    ensures run.Settled(store, {})
  {
  }

  lemma NextWindowClosed(before: set<int>, middle: set<int>, after: set<int>, done: set<int>, end: int)
    requires ClosedWindows(before, middle, done) && middle <= after <= middle + {end}
    requires end % SECOND != 0 ==> end in after
    ensures ClosedWindows(before, after, done + {end})
  {
  }

  // Where a run stands between two windows.
  ghost predicate BetweenWindows(run: Run, store: Store, seen: set<Change>, windowStart: int, done: set<int>)
    reads store
  {
    && run.Settled(store, seen)
    && run.Stands(store, seen, 0, windowStart)
    && (windowStart <= store.cursor.at || (windowStart == run.Start().at && windowStart < run.now))
    && done + WindowEnds(windowStart, run.now) == WindowEnds(run.Start().at, run.now)
    && (run.Judged() ==> store.cursor.at <= windowStart && ClosedWindows(run.before.closings, store.closings, done))
  }

  lemma TruncIsMonotone(t: int, u: int)
    requires t <= u
    ensures TruncSecond(t) <= TruncSecond(u)
  {
  }

  lemma StandsLater(store: Store, run: Run, seen: set<Change>, start: int, end: int)
    requires run.Stands(store, seen, 0, start) && start <= end
    ensures run.Stands(store, seen, 0, end)
  {
    TruncIsMonotone(start, end);
  }

  /** One turn of the outer loop. */
  method SyncNext(store: Store, client: Client, windowStart: int, now: int, checkpoint: Cursor, requests: nat,
                  ghost bound: nat, ghost run: Run, ghost seen: set<Change>, ghost done: set<int>)
    returns (windowEnd: int, next: Cursor, requests': nat, ok: bool, ghost seen': set<Change>)
    requires BetweenWindows(run, store, seen, windowStart, done) && checkpoint == store.cursor
    requires client == run.client && now == run.now && EventuallyBounded(client, bound) && windowStart < now
    modifies store
    ensures run.Keeps(store, seen') && old(store.log) <= store.log
    ensures windowStart < windowEnd <= now
    ensures ok ==> BetweenWindows(run, store, seen', windowEnd, done + {windowEnd}) && next == store.cursor
    ensures windowEnd == now || windowEnd == windowStart + 120 * 24 * 3600 * SECOND
    ensures if ok then store.troubles == old(store.troubles) else old(store.troubles) < store.troubles
  {
    windowEnd := windowStart + MAX_WINDOW;
    if windowEnd > now {
      windowEnd := now;
    }
    StandsLater(store, run, seen, windowStart, windowEnd);
    ghost var closings := store.closings;
    next, requests', ok, seen' := SyncWindow(store, client, windowStart, windowEnd, checkpoint, requests, bound, run, seen);
    if ok && run.Judged() {
      NextWindowClosed(run.before.closings, closings, store.closings, done, windowEnd);
    }
  }

  /**
   syncCVEHistoryWindows. For any feed whatsoever the log of durable states advances step by step, and
   success means the cursor has reached `now`. For an honest feed nothing is skipped in any durable
   state, including the one in which an error or a crash leaves the database, except for events in a gap.
   */
  method SyncWindows(store: Store, client: Client, now: int, ghost bound: nat, ghost feed: seq<Change>, ghost origin: Cursor)
    returns (ok: bool, ghost run: Run, ghost seen: set<Change>)
    requires store.Valid() && EventuallyBounded(client, bound)
    modifies store
    ensures run == Run(client, feed, origin, old(store.Now()), |old(store.log)|, now)
    ensures run.Keeps(store, seen) && old(store.log) <= store.log
    ensures ok ==> store.cursor.at >= now && forall c | c in seen :: AtOrAfter(store.cursor, c)
    ensures ok && run.Judged() ==> ClosedWindows(old(store.closings), store.closings, WindowEnds(run.Start().at, now))
    ensures if ok then store.troubles == old(store.troubles) else old(store.troubles) < store.troubles
  {
    run := Run(client, feed, origin, store.Now(), |store.log|, now);
    ok, seen := true, {};
    var checkpoint := store.cursor;
    var windowStart := checkpoint.at;
    if windowStart == ZERO_TIME {
      windowStart := now - DEFAULT_LOOKBACK;
    }
    RunBegins(store, run);
    var requests: nat := 0;
    ghost var done: set<int> := {};
    while windowStart < now
      invariant BetweenWindows(run, store, seen, windowStart, done)
      invariant checkpoint == store.cursor && old(store.log) <= store.log && store.troubles == old(store.troubles)
      decreases now - windowStart
    {
      windowStart, checkpoint, requests, ok, seen :=
        SyncNext(store, client, windowStart, now, checkpoint, requests, bound, run, seen, done);
      if !ok { return; }
      done := done + {windowStart};
    }
  }

  // ----- what the runs add up to -----

  /** Whatever stopped a run, the next one starts from a state from which nothing has been skipped. */
  lemma NextRunIsJudgedToo(store: Store, run: Run, seen: set<Change>, later: int)
    requires run.Judged() && run.Keeps(store, seen)
    requires |store.log| == run.from ==> store.Now() == run.before
    requires store.cursor.at != ZERO_TIME
    ensures Run(run.client, run.feed, run.origin, store.Now(), |store.log|, later).Judged()
  {
    if |store.log| > run.from {
      assert store.log[|store.log| - 1] == store.Now();
    }
  }

  /** A run starts above the stored cursor, and one that finds the zero time takes up the last 24 hours. */
  lemma WhereARunStarts(run: Run, e: Change)
    requires e.id > 0.0
    ensures run.before.cursor.at != 0 ==>
              (Below(run.Start(), Key(e)) <==> e.at > run.before.cursor.at || (e.at == run.before.cursor.at && e.id > run.before.cursor.id))
    ensures run.before.cursor.at == 0 ==> (Below(run.Start(), Key(e)) <==> e.at >= run.now - 86_400 * 1_000_000_000)
  {
  }

  ghost predicate DistinctIds(feed: seq<Change>) {
    forall i, j | 0 <= i < j < |feed| :: feed[i].id != feed[j].id
  }

  /**
   The events a finished run loses, exactly. An event of the feed above the start of the run and not
   above its cursor, unknown when the run started, is processed or quarantined if and only if it does
   not fall strictly between a window end and the whole second before it. The window ends are known
   before the run from the cursor and the clock.
   */
  lemma LostEventsExactly(store: Store, run: Run, seen: set<Change>, i: nat)
    requires run.Judged() && run.Keeps(store, seen) && DistinctIds(run.feed)
    requires forall c | c in seen :: AtOrAfter(store.cursor, c)
    requires ClosedBy(run.before.closings, run.Start().at)
    requires ClosedWindows(run.before.closings, store.closings, WindowEnds(run.Start().at, run.now))
    requires i < |run.feed| && run.feed[i].id !in run.before.events
    requires Below(run.Start(), Key(run.feed[i])) && AtOrAfter(store.cursor, run.feed[i])
    ensures Handled(store.events, run.feed[i].id) <==> !InGap(WindowEnds(run.Start().at, run.now), run.feed[i])
  {
    var e, ends := run.feed[i], WindowEnds(run.Start().at, run.now);
    assert InGap(store.closings, e) <==> InGap(ends, e) by {
      if w :| w in ends && TruncSecond(w) < e.at < w {
        assert w in store.closings;
      }
    }
    assert e in seen <==> !InGap(ends, e);
    if e.id in store.events {
      var c :| c in seen && c.id == e.id;
      var j :| 0 <= j < |run.feed| && run.feed[j] == c;
      assert i == j;
    }
  }

  /** A run whose cursor and clock stand on whole seconds has no gap at all. */
  lemma {:induction false} WholeSecondsLoseNothing(start: int, now: int, c: Change)
    requires start % SECOND == 0 && now % SECOND == 0
    ensures !InGap(WindowEnds(start, now), c)
    decreases now - start
  {
    if start < now {
      WholeSecondsLoseNothing(Min(start + MAX_WINDOW, now), now, c);
    }
  }

  /** A clock within a second always has one: an event a nanosecond earlier in that second is lost. */
  lemma {:induction false} FractionOfASecondLosesAnEvent(start: int, now: int, c: Change)
    requires start < now && c.at == now - 1 && now % SECOND > 1
    ensures InGap(WindowEnds(start, now), c)
    decreases now - start
  {
    var end := Min(start + MAX_WINDOW, now);
    if end < now {
      FractionOfASecondLosesAnEvent(end, now, c);
    }
    assert now in WindowEnds(start, now);
  }

  // A client that gives up after n requests.
  ghost function CutOff(client: Client, n: nat): Client {
    (start: int, end: int, index: nat, k: nat) => if k < n then client(start, end, index, k) else FetchFailed
  }

  /**
   The bound that makes a run end costs no generality for what holds up to a failure: any client, cut off
   after any number of requests, is within it, and it stays as honest as it was.
   */
  lemma CutOffIsBounded(client: Client, n: nat, feed: seq<Change>)
    ensures EventuallyBounded(CutOff(client, n), n)
    ensures Honest(client, feed) ==> Honest(CutOff(client, n), feed)
  {
  }

  // A feed that serves pages of a fixed size.
  ghost function PagedFetch(feed: seq<Change>, pageSize: nat, start: int, end: int, index: nat): Fetch {
    var lo, hi := Lo(feed, start), Hi(feed, end);
    Fetched(Page(if lo + index <= hi then feed[lo + index..Min(lo + index + pageSize, hi)] else [], pageSize, hi - lo))
  }

  ghost function PagedClient(feed: seq<Change>, pageSize: nat): Client {
    (start: int, end: int, index: nat, k: nat) => PagedFetch(feed, pageSize, start, end, index)
  }

  /** Honest feeds exist: serving the sorted events in pages of any size is one. */
  lemma PagingIsHonest(feed: seq<Change>, pageSize: nat)
    requires Sorted(feed) && pageSize > 0
    ensures Honest(PagedClient(feed, pageSize), feed) && EventuallyBounded(PagedClient(feed, pageSize), |feed|)
  {
    forall start: int, end: int, index: nat | start <= end
      ensures HonestPage(feed, start, end, index, PagedFetch(feed, pageSize, start, end, index).page)
    {
      WindowBounds(feed, start, end);
    }
    forall start: int, end: int, index: nat
      ensures PagedFetch(feed, pageSize, start, end, index).page.total <= |feed|
    {
    }
  }
}
