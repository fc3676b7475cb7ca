/**
 Delivery of pipeline callbacks: a pending request is claimed by a conditional update that stores the
 claim time, and every later update by the claimant requires that time to be unchanged.

 Workers read rows in batches and claim them later, so the attempt count they work with may be stale.
 Clock readings are part of the steps: an update is computed from readings taken some time before it
 takes effect. Times are milliseconds.
 */
module PipelineCallbacks {
  import opened Wrappers

  const POLL_INTERVAL: int := 2_000
  const CLAIM_LEASE: int := 30_000
  const MINUTE: int := 60_000
  const MAX_ATTEMPTS: nat := 5

  type RequestId = nat
  type WorkerId = nat

  datatype Status = NoCallback | AwaitingTerminal | Pending | Delivered | Failed

  // delivery_status, delivery_attempt_count, last_attempt_at, next_attempt_at
  datatype Row = Row(status: Status, attempts: nat, lastAttempt: Option<int>, nextAttempt: Option<int>)

  predicate Final(s: Status) { s.Delivered? || s.Failed? }

  // ----- the conditional updates, on one row -----

  /** QueueCallbackForScan, for a request with a callback whose scan is terminal. */
  function QueueRow(row: Row, now: int): Option<Row> {
    if row.status.AwaitingTerminal? || (row.status.Pending? && row.lastAttempt.None?)
    then Some(row.(status := Pending, nextAttempt := Some(now)))
    else None
  }

  function ClaimRow(row: Row, claimedAt: int): Option<Row> {
    if row.status.Pending? && (row.nextAttempt.None? || row.nextAttempt.value <= claimedAt)
    then Some(row.(lastAttempt := Some(claimedAt), nextAttempt := Some(claimedAt + CLAIM_LEASE)))
    else None
  }

  predicate Fenced(row: Row, token: int) { row.status.Pending? && row.lastAttempt == Some(token) }

  function ReleaseRow(row: Row, token: int, next: int): Option<Row> {
    if Fenced(row, token) then Some(row.(nextAttempt := Some(next))) else None
  }

  function DeliverRow(row: Row, token: int, known: nat, now: int): Option<Row> {
    if Fenced(row, token)
    then Some(Row(Delivered, known + 1, Some(now), None))
    else None
  }

  /** markCallbackFailure: two clock readings, the first for the next attempt, the second for the row. */
  function FailRow(row: Row, token: int, known: nat, terminal: bool, first: int, second: int): Option<Row> {
    var attempts := known + 1;
    if !Fenced(row, token) then None
    else if terminal || attempts >= MAX_ATTEMPTS then Some(Row(Failed, attempts, Some(second), None))
    else Some(Row(Pending, attempts, Some(second), Some(first + attempts * attempts * MINUTE)))
  }

  // ----- the system -----

  // A worker has read the row, with the attempt count it then had, and perhaps claimed it at `token`;
  // from `posted` on its request is on the wire. `since` is the number of marks made when it read the row.
  datatype Work = Idle
                | Selected(id: RequestId, known: nat, since: nat)
                | Holding(id: RequestId, known: nat, since: nat, token: int, posted: bool)

  // Bookkeeping for the proof: the times of the successful claims, oldest first, how many delivered or
  // failed marks took effect, and how many attempts at a delivery have been made.
  datatype Request = Request(row: Row, claims: seq<int>, marks: nat, tries: nat)

  datatype System = System(requests: map<RequestId, Request>, workers: map<WorkerId, Work>, clock: int)

  // Every clock reading in an action was taken no later than the step and, after a claim, no earlier
  // than the claim. An attempt is a POST, or a failure for good before there is anything to post.
  datatype Action =
    | Tick(time: int)
    | Create(id: RequestId, wanted: bool)
    | Queue(id: RequestId, read: int)
    | Select(w: WorkerId, id: RequestId)
    | Claim(w: WorkerId, claimedAt: int)
    | Post(w: WorkerId)
    | Release(w: WorkerId, read: int)
    | Deliver(w: WorkerId, read: int)
    | Fail(w: WorkerId, terminal: bool, first: int, second: int)
    | Abandon(w: WorkerId)

  function WorkOf(s: System, w: WorkerId): Work { if w in s.workers then s.workers[w] else Idle }

  function On(id: RequestId, r: Option<Row>): Option<(RequestId, Row)> {
    if r.Some? then Some((id, r.value)) else None
  }

  // Whether the action comes next in the program and its readings can have been taken.
  predicate Enabled(s: System, a: Action) {
    match a
    case Tick(_) => true
    case Create(_, _) => true
    case Queue(id, read) => id in s.requests && read <= s.clock
    case Select(w, id) => WorkOf(s, w).Idle? && id in s.requests && s.requests[id].row.status.Pending?
    case Claim(w, claimedAt) => WorkOf(s, w).Selected? && claimedAt <= s.clock
    case Post(w) => WorkOf(s, w).Holding? && !WorkOf(s, w).posted
    case Release(w, read) => WorkOf(s, w).Holding? && !WorkOf(s, w).posted && WorkOf(s, w).token <= read <= s.clock
    case Deliver(w, read) => WorkOf(s, w).Holding? && WorkOf(s, w).posted && WorkOf(s, w).token <= read <= s.clock
    case Fail(w, terminal, first, second) =>
      WorkOf(s, w).Holding? && terminal == !WorkOf(s, w).posted && WorkOf(s, w).token <= first <= second <= s.clock
    case Abandon(w) => true
  }

  // The row an action writes, when it can be taken and its WHERE clause holds.
  function Written(s: System, a: Action): Option<(RequestId, Row)> {
    if !Enabled(s, a) then None else
    match a
    case Create(id, wanted) =>
      if id in s.requests then None else Some((id, Row(if wanted then AwaitingTerminal else NoCallback, 0, None, None)))
    case Queue(id, read) => On(id, QueueRow(s.requests[id].row, read))
    case Claim(w, claimedAt) =>
      var k := WorkOf(s, w);
      if k.id in s.requests then On(k.id, ClaimRow(s.requests[k.id].row, claimedAt)) else None
    case Release(w, read) =>
      var k := WorkOf(s, w);
      if k.id in s.requests then On(k.id, ReleaseRow(s.requests[k.id].row, k.token, read + POLL_INTERVAL)) else None
    case Deliver(w, read) =>
      var k := WorkOf(s, w);
      if k.id in s.requests then On(k.id, DeliverRow(s.requests[k.id].row, k.token, k.known, read)) else None
    case Fail(w, terminal, first, second) =>
      var k := WorkOf(s, w);
      if k.id in s.requests then On(k.id, FailRow(s.requests[k.id].row, k.token, k.known, terminal, first, second)) else None
    case _ => None
  }

  function NextWork(s: System, a: Action): map<WorkerId, Work>
    requires Enabled(s, a)
  {
    match a
    case Select(w, id) => s.workers[w := Selected(id, s.requests[id].row.attempts, s.requests[id].marks)]
    case Claim(w, claimedAt) =>
      var k := WorkOf(s, w);
      s.workers[w := if Written(s, a).Some? then Holding(k.id, k.known, k.since, claimedAt, false) else Idle]
    case Post(w) => s.workers[w := WorkOf(s, w).(posted := true)]
    case Release(w, _) => s.workers[w := Idle]
    case Deliver(w, _) => s.workers[w := Idle]
    case Fail(w, _, _, _) => s.workers[w := Idle]
    case Abandon(w) => s.workers[w := Idle]
    case _ => s.workers
  }

  predicate IsMark(a: Action) { a.Deliver? || a.Fail? }

  // The request for which the action makes an attempt.
  function Tried(s: System, a: Action): Option<RequestId> {
    if Enabled(s, a) && (a.Post? || (a.Fail? && a.terminal)) then Some(WorkOf(s, a.w).id) else None
  }

  function NextRequest(s: System, a: Action, id: RequestId): Request
    requires id in s.requests
  {
    var r, written := s.requests[id], Written(s, a);
    var here := written.Some? && written.value.0 == id;
    Request(if here then written.value.1 else r.row,
            if here && a.Claim? then r.claims + [a.claimedAt] else r.claims,
            if here && IsMark(a) then r.marks + 1 else r.marks,
            if Tried(s, a) == Some(id) then r.tries + 1 else r.tries)
  }

  /** One atomic step. A step that does not come next changes nothing. */
  function Next(s: System, a: Action): System {
    if !Enabled(s, a) then s
    else if a.Tick? then s.(clock := Max(s.clock, a.time))
    else if a.Create? then
      if Written(s, a).Some? then s.(requests := s.requests[a.id := Request(Written(s, a).value.1, [], 0, 0)]) else s
    else
      s.(requests := map id | id in s.requests :: NextRequest(s, a, id), workers := NextWork(s, a))
  }

  function Run(s: System, actions: seq<Action>): System
    decreases |actions|
  {
    if actions == [] then s else Run(Next(s, actions[0]), actions[1..])
  }

  const Start: System := System(map[], map[], 0)

  // ----- what every run keeps -----

  ghost predicate Increasing(claims: seq<int>) {
    forall i, j | 0 <= i < j < |claims| :: claims[i] < claims[j]
  }

  function LastClaim(r: Request): int
    requires r.claims != []
  {
    r.claims[|r.claims| - 1]
  }

  ghost predicate RequestInv(r: Request) {
    && Increasing(r.claims)
    && (r.row.status.Pending? ==> r.row.attempts < MAX_ATTEMPTS)
    && (r.row.status.AwaitingTerminal? ==> r.row.attempts == 0)
    && r.row.attempts <= MAX_ATTEMPTS
    && (r.claims == [] <==> r.row.lastAttempt.None?)
    && (r.claims != [] ==> r.row.lastAttempt.value >= LastClaim(r) && !r.row.status.AwaitingTerminal?)
    // The next claim can only be later than the last one.
    && (r.claims != [] && r.row.status.Pending? ==> r.row.nextAttempt.Some? && LastClaim(r) < r.row.nextAttempt.value)
  }

  ghost predicate WorkInv(s: System, k: Work) {
    && (k.Selected? ==> k.id in s.requests && k.known < MAX_ATTEMPTS)
    && (k.Holding? ==> k.id in s.requests && k.known < MAX_ATTEMPTS && k.token in s.requests[k.id].claims)
  }

  ghost predicate Inv(s: System) {
    && (forall id | id in s.requests :: RequestInv(s.requests[id]))
    && (forall w | w in s.workers :: WorkInv(s, s.workers[w]))
  }

  predicate AfterClaim(a: Action) { a.Release? || IsMark(a) }

  // A token that passes the fence is the time of the latest claim.
  lemma FenceIsLatestClaim(r: Request, token: int)
    requires RequestInv(r) && token in r.claims && Fenced(r.row, token)
    ensures token == LastClaim(r)
  {
    var i :| 0 <= i < |r.claims| && r.claims[i] == token;
  }

  lemma ClaimKeepsRequestInv(r: Request, claimedAt: int)
    requires RequestInv(r) && ClaimRow(r.row, claimedAt).Some?
    ensures RequestInv(r.(row := ClaimRow(r.row, claimedAt).value, claims := r.claims + [claimedAt]))
  {
  }

  lemma FenceKeepsRequestInv(r: Request, token: int, known: nat, terminal: bool, first: int, second: int)
    requires RequestInv(r) && token in r.claims && Fenced(r.row, token) && known < MAX_ATTEMPTS && token <= first <= second
    ensures RequestInv(r.(row := ReleaseRow(r.row, token, first + POLL_INTERVAL).value))
    ensures RequestInv(r.(row := DeliverRow(r.row, token, known, first).value))
    ensures RequestInv(r.(row := FailRow(r.row, token, known, terminal, first, second).value))
  {
    FenceIsLatestClaim(r, token);
  }

  // Only the row and the claims matter to the invariant of a request.
  lemma CountsDoNotMatter(r: Request, marks: nat, tries: nat)
    requires RequestInv(r)
    ensures RequestInv(r.(marks := marks, tries := tries))
  {
  }

  lemma NextAt(s: System, a: Action, id: RequestId)
    requires id in s.requests
    ensures id in Next(s, a).requests
    ensures Next(s, a).requests[id] ==
            if Enabled(s, a) && !a.Tick? && !a.Create? then NextRequest(s, a, id) else s.requests[id]
  {
  }

  lemma WriteKeepsRequestInv(s: System, a: Action, id: RequestId)
    requires Inv(s) && id in s.requests && Written(s, a).Some? && Written(s, a).value.0 == id && (a.Claim? || AfterClaim(a))
    ensures RequestInv(s.requests[id].(row := Written(s, a).value.1,
                                       claims := if a.Claim? then s.requests[id].claims + [a.claimedAt] else s.requests[id].claims))
  {
    var r, k := s.requests[id], WorkOf(s, a.w);
    assert RequestInv(r) && WorkInv(s, k);
    match a
    case Claim(_, claimedAt) => ClaimKeepsRequestInv(r, claimedAt);
    case Release(_, read) => FenceKeepsRequestInv(r, k.token, k.known, false, read, read);
    case Deliver(_, read) => FenceKeepsRequestInv(r, k.token, k.known, false, read, read);
    case Fail(_, terminal, first, second) => FenceKeepsRequestInv(r, k.token, k.known, terminal, first, second);
  }

  lemma NextRequestInv(s: System, a: Action, id: RequestId)
    requires Inv(s) && id in s.requests && Enabled(s, a) && !a.Create?
    ensures RequestInv(NextRequest(s, a, id))
  {
    var r, r' := s.requests[id], NextRequest(s, a, id);
    assert RequestInv(r);
    if Written(s, a).Some? && Written(s, a).value.0 == id && (a.Claim? || AfterClaim(a)) {
      WriteKeepsRequestInv(s, a, id);
      CountsDoNotMatter(r.(row := r'.row, claims := r'.claims), r'.marks, r'.tries);
    }
  }

  lemma NextKeepsRequestInv(s: System, a: Action, id: RequestId)
    requires Inv(s) && id in Next(s, a).requests
    ensures RequestInv(Next(s, a).requests[id])
  {
    if id in s.requests {
      NextAt(s, a, id);
      if Enabled(s, a) && !a.Tick? && !a.Create? { NextRequestInv(s, a, id); }
    }
  }

  lemma NextKeepsWorkInv(s: System, a: Action, w: WorkerId)
    requires Inv(s) && w in Next(s, a).workers
    ensures WorkInv(Next(s, a), Next(s, a).workers[w])
  {
    if w in s.workers { assert WorkInv(s, s.workers[w]); }
    if a.Select? && Enabled(s, a) { assert RequestInv(s.requests[a.id]); }
  }

  lemma NextKeepsInv(s: System, a: Action)
    requires Inv(s)
    ensures Inv(Next(s, a))
  {
    forall id | id in Next(s, a).requests
      ensures RequestInv(Next(s, a).requests[id])
    {
      NextKeepsRequestInv(s, a, id);
    }
    forall w | w in Next(s, a).workers
      ensures WorkInv(Next(s, a), Next(s, a).workers[w])
    {
      NextKeepsWorkInv(s, a, w);
    }
  }

  lemma {:induction false} RunKeepsInv(s: System, actions: seq<Action>)
    requires Inv(s)
    ensures Inv(Run(s, actions))
    decreases |actions|
  {
    if actions != [] {
      NextKeepsInv(s, actions[0]);
      RunKeepsInv(Next(s, actions[0]), actions[1..]);
    }
  }

  // ----- consequences -----

  /** The claims of a request happen at strictly increasing times, whoever makes them. */
  lemma ClaimTimesIncrease(actions: seq<Action>, id: RequestId)
    requires id in Run(Start, actions).requests
    ensures Increasing(Run(Start, actions).requests[id].claims)
  {
    RunKeepsInv(Start, actions);
    assert RequestInv(Run(Start, actions).requests[id]);
  }

  /**
   Fencing. A release, a delivered mark or a failed mark takes effect only for the worker whose claim
   is the latest one; a worker whose lease was taken over can no longer change the row.
   */
  lemma OnlyTheLatestClaimWrites(actions: seq<Action>, a: Action)
    requires AfterClaim(a) && Written(Run(Start, actions), a).Some?
    ensures var s := Run(Start, actions); var k := WorkOf(s, a.w);
            && k.Holding? && Written(s, a).value.0 == k.id
            && s.requests[k.id].row.status.Pending?
            && s.requests[k.id].claims != [] && LastClaim(s.requests[k.id]) == k.token
  {
    RunKeepsInv(Start, actions);
    var s := Run(Start, actions);
    var k := WorkOf(s, a.w);
    assert WorkInv(s, k) && RequestInv(s.requests[k.id]);
    FenceIsLatestClaim(s.requests[k.id], k.token);
  }

  /** Delivered and failed are final, also when the scan's callback is queued again. */
  lemma {:induction false} FinalStays(s: System, actions: seq<Action>, id: RequestId)
    requires id in s.requests && Final(s.requests[id].row.status)
    ensures var e := Run(s, actions);
            && id in e.requests && e.requests[id].row == s.requests[id].row
            && e.requests[id].claims == s.requests[id].claims && e.requests[id].marks == s.requests[id].marks
    decreases |actions|
  {
    if actions != [] {
      var s' := Next(s, actions[0]);
      assert id in s'.requests && s'.requests[id].row == s.requests[id].row
             && s'.requests[id].claims == s.requests[id].claims && s'.requests[id].marks == s.requests[id].marks;
      FinalStays(s', actions[1..], id);
    }
  }

  /** The stored count stays within the limit even though workers use counts they read earlier. */
  lemma StoredCountIsBounded(actions: seq<Action>, id: RequestId)
    requires id in Run(Start, actions).requests
    ensures var row := Run(Start, actions).requests[id].row;
            row.attempts <= 5 && (row.status == Pending ==> row.attempts < 5)
  {
    RunKeepsInv(Start, actions);
    assert RequestInv(Run(Start, actions).requests[id]);
  }

  // ----- what the steps do, and that they can be taken -----

  // What a worker that holds the latest claim can make of a pending row, each with its effect.
  lemma WhatTheHolderCanDo(s: System, w: WorkerId, id: RequestId, read: int, first: int, second: int)
    requires WorkOf(s, w).Holding? && WorkOf(s, w).id == id && id in s.requests
    requires s.requests[id].row.status == Pending && s.requests[id].row.lastAttempt == Some(WorkOf(s, w).token)
    requires WorkOf(s, w).token <= read <= s.clock && WorkOf(s, w).token <= first <= second <= s.clock
    ensures var k, row, n := WorkOf(s, w), s.requests[id].row, WorkOf(s, w).known + 1;
            && RowAfter(s, Deliver(w, read), id) == (if k.posted then Row(Delivered, n, Some(read), None) else row)
            && RowAfter(s, Release(w, read), id) == (if k.posted then row else Row(Pending, row.attempts, row.lastAttempt, Some(read + 2_000)))
            && RowAfter(s, Action.Fail(w, true, first, second), id) == (if k.posted then row else Row(Failed, n, Some(second), None))
            && RowAfter(s, Action.Fail(w, false, first, second), id) ==
                 (if !k.posted then row
                  else if n >= 5 then Row(Failed, n, Some(second), None)
                  else Row(Pending, n, Some(second), Some(first + n * n * 60_000)))
  {
  }

  function RowAfter(s: System, a: Action, id: RequestId): Row
    requires id in s.requests
  {
    NextAt(s, a, id);
    Next(s, a).requests[id].row
  }

  /** A request is due for a worker that has read it exactly while it is pending and its time has come. */
  lemma WhatCanBeClaimed(s: System, w: WorkerId, id: RequestId, claimedAt: int)
    requires WorkOf(s, w).Selected? && WorkOf(s, w).id == id && id in s.requests && claimedAt <= s.clock
    ensures var row, s' := s.requests[id].row, Next(s, Claim(w, claimedAt));
            var due := row.status == Pending && (row.nextAttempt.Some? ==> row.nextAttempt.value <= claimedAt);
            && RowAfter(s, Claim(w, claimedAt), id) == (if due then Row(Pending, row.attempts, Some(claimedAt), Some(claimedAt + 30_000)) else row)
            && WorkOf(s', w) == (if due then Holding(id, WorkOf(s, w).known, WorkOf(s, w).since, claimedAt, false) else Idle)
  {
  }

  /** A new request waits for the end of its scan, if it wants a callback. */
  lemma WhatCreationDoes(s: System, id: RequestId, wanted: bool)
    requires id !in s.requests
    ensures id in Next(s, Create(id, wanted)).requests
    ensures Next(s, Create(id, wanted)).requests[id].row == Row(if wanted then AwaitingTerminal else NoCallback, 0, None, None)
  {
  }

  /** Queueing makes a waiting request pending, also one that is pending and was never claimed, and no other. */
  lemma WhatQueueingDoes(s: System, id: RequestId, read: int)
    requires id in s.requests && read <= s.clock
    ensures var row := s.requests[id].row;
            RowAfter(s, Queue(id, read), id) ==
              if row.status == AwaitingTerminal || (row.status == Pending && row.lastAttempt == None)
              then Row(Pending, row.attempts, row.lastAttempt, Some(read)) else row
  {
  }

  /** A step makes a request delivered exactly if it is a delivered mark that takes effect after a POST. */
  lemma OnlyDeliveryDelivers(s: System, a: Action, id: RequestId)
    requires id in s.requests && s.requests[id].row.status != Delivered
    ensures RowAfter(s, a, id).status == Delivered <==>
              && a.Deliver? && Enabled(s, a) && WorkOf(s, a.w).id == id && WorkOf(s, a.w).posted
              && s.requests[id].row.status == Pending && s.requests[id].row.lastAttempt == Some(WorkOf(s, a.w).token)
  {
  }

  /** Every delivered request was marked so by the worker of its latest claim, after its POST. */
  lemma {:induction false} DeliveredHasCause(actions: seq<Action>, id: RequestId) returns (k: nat)
    requires id in Run(Start, actions).requests && Run(Start, actions).requests[id].row.status == Delivered
    ensures k < |actions| && actions[k].Deliver?
    ensures var s, w := Run(Start, actions[..k]), actions[k].w;
            && Enabled(s, actions[k]) && WorkOf(s, w).id == id && WorkOf(s, w).posted && id in s.requests
            && s.requests[id].claims != [] && LastClaim(s.requests[id]) == WorkOf(s, w).token
            && Run(Start, actions).requests[id].row == Row(Delivered, WorkOf(s, w).known + 1, Some(actions[k].read), None)
    decreases |actions|
  {
    assert actions != [];
    var init, a := actions[..|actions| - 1], actions[|actions| - 1];
    var s := Run(Start, init);
    RunSplit(actions);
    if id in s.requests && s.requests[id].row.status == Delivered {
      k := DeliveredHasCause(init, id);
      assert actions[..k] == init[..k];
      FinalStays(s, [a], id);
      assert [a][1..] == [];
    } else {
      k := |init|;
      DeliveredNow(init, a, id);
    }
  }

  lemma DeliveredNow(init: seq<Action>, a: Action, id: RequestId)
    requires var s := Run(Start, init);
             && id in Next(s, a).requests && Next(s, a).requests[id].row.status == Delivered
             && (id in s.requests ==> s.requests[id].row.status != Delivered)
    ensures var s := Run(Start, init);
            && a.Deliver? && Enabled(s, a) && id in s.requests && WorkOf(s, a.w).id == id && WorkOf(s, a.w).posted
            && s.requests[id].claims != [] && LastClaim(s.requests[id]) == WorkOf(s, a.w).token
            && Next(s, a).requests[id].row == Row(Delivered, WorkOf(s, a.w).known + 1, Some(a.read), None)
  {
    var s := Run(Start, init);
    if id in s.requests {
      OnlyDeliveryDelivers(s, a, id);
      OnlyTheLatestClaimWrites(init, a);
      WhatTheHolderCanDo(s, a.w, id, a.read, a.read, a.read);
    }
  }

  lemma RunSplit(actions: seq<Action>)
    requires actions != []
    ensures Run(Start, actions) == Next(Run(Start, actions[..|actions| - 1]), actions[|actions| - 1])
  {
    var init, a := actions[..|actions| - 1], actions[|actions| - 1];
    assert actions == init + [a];
    RunAppends(Start, init, [a]);
    RunOne(Run(Start, init), a);
  }

  /** Whatever has happened, a pending request can still be delivered by an idle worker once its time has come. */
  lemma PendingCanBeDelivered(actions: seq<Action>, id: RequestId, w: WorkerId) returns (more: seq<Action>)
    requires id in Run(Start, actions).requests && Run(Start, actions).requests[id].row.status == Pending
    requires WorkOf(Run(Start, actions), w).Idle?
    ensures id in Run(Start, actions + more).requests && Run(Start, actions + more).requests[id].row.status == Delivered
  {
    var s := Run(Start, actions);
    var row := s.requests[id].row;
    var t := Max(s.clock, if row.nextAttempt.Some? then row.nextAttempt.value else s.clock);
    var select, tick, claim, post, deliver: Action := Select(w, id), Tick(t), Claim(w, t), Post(w), Deliver(w, t);
    var s1 := Next(s, select);
    var s2 := Next(s1, tick);
    var s3 := Next(s2, claim);
    var s4 := Next(s3, post);
    more := [select, tick] + [claim, post] + [deliver];
    assert s2.requests[id].row == row;
    WhatCanBeClaimed(s2, w, id, t);
    assert s4.requests[id].row == s3.requests[id].row;
    WhatTheHolderCanDo(s4, w, id, t, t, t);
    RunTwo(s, select, tick);
    RunTwo(s2, claim, post);
    RunAppends(s, [select, tick], [claim, post]);
    RunAppends(s, [select, tick] + [claim, post], [deliver]);
    RunOne(s4, deliver);
    RunAppends(Start, actions, more);
  }

  lemma RunTwo(s: System, a: Action, b: Action)
    ensures Run(s, [a, b]) == Next(Next(s, a), b)
  {
    assert [a, b] == [a] + [b];
    RunAppends(s, [a], [b]);
    RunOne(s, a);
    RunOne(Next(s, a), b);
  }

  // ----- the stored count and the real number of attempts -----

  predicate OnTheWire(k: Work, id: RequestId) { k.Holding? && k.id == id && k.posted }

  // The workers whose POST for the request is out and has not been marked yet.
  ghost function InFlight(workers: map<WorkerId, Work>, id: RequestId): set<WorkerId> {
    set w | w in workers && OnTheWire(workers[w], id)
  }

  /** Every attempt made so far is in the stored count or still on the wire. */
  ghost predicate Exact(s: System, id: RequestId) {
    id in s.requests ==> s.requests[id].tries == s.requests[id].row.attempts + |InFlight(s.workers, id)|
  }

  /**
   The step leaves no attempt uncounted: nobody who has posted goes away without a mark, and a mark takes
   effect, with no other mark on the request since the worker had read it.
   */
  predicate Orderly(s: System, a: Action, id: RequestId) {
    && (a.Abandon? ==> !OnTheWire(WorkOf(s, a.w), id))
    && (IsMark(a) && Enabled(s, a) && WorkOf(s, a.w).id == id && id in s.requests ==>
          Written(s, a).Some? && WorkOf(s, a.w).since == s.requests[id].marks)
  }

  ghost predicate AlwaysExact(s: System, actions: seq<Action>, id: RequestId)
    decreases |actions|
  {
    Exact(s, id) && (actions != [] ==> AlwaysExact(Next(s, actions[0]), actions[1..], id))
  }

  ghost predicate AlwaysOrderly(s: System, actions: seq<Action>, id: RequestId)
    decreases |actions|
  {
    actions != [] ==> Orderly(s, actions[0], id) && AlwaysOrderly(Next(s, actions[0]), actions[1..], id)
  }

  // As long as all steps have been orderly, the count is the number of marks, for readers of the row too.
  ghost predicate InStep(s: System, id: RequestId) {
    && Exact(s, id)
    && (id in s.requests ==> s.requests[id].row.attempts == s.requests[id].marks)
    && forall w | w in s.workers && !s.workers[w].Idle? && s.workers[w].id == id :: s.workers[w].known == s.workers[w].since
  }

  lemma InFlightSplit(workers: map<WorkerId, Work>, w: WorkerId, id: RequestId)
    requires w in workers
    ensures |InFlight(workers, id)| == |InFlight(workers - {w}, id)| + if OnTheWire(workers[w], id) then 1 else 0
  {
    var all, others := InFlight(workers, id), InFlight(workers - {w}, id);
    forall x
      ensures x in all <==> x in others || (x == w && OnTheWire(workers[w], id))
    {
    }
    assert all == if OnTheWire(workers[w], id) then others + {w} else others;
  }

  lemma InFlightUpdated(workers: map<WorkerId, Work>, w: WorkerId, k: Work, id: RequestId)
    ensures |InFlight(workers[w := k], id)| ==
            |InFlight(workers, id)| - (if w in workers && OnTheWire(workers[w], id) then 1 else 0)
            + if OnTheWire(k, id) then 1 else 0
  {
    InFlightSplit(workers[w := k], w, id);
    assert workers[w := k] - {w} == workers - {w};
    if w in workers {
      InFlightSplit(workers, w, id);
    } else {
      assert workers - {w} == workers;
    }
  }

  // How many of the requests on the wire a step adds or takes away.
  lemma InFlightAfter(s: System, a: Action, id: RequestId)
    requires Inv(s)
    ensures |InFlight(Next(s, a).workers, id)| ==
            |InFlight(s.workers, id)|
            + (if a.Post? && Tried(s, a) == Some(id) then 1 else 0)
            - (if (a.Abandon? || (IsMark(a) && Enabled(s, a))) && OnTheWire(WorkOf(s, a.w), id) then 1 else 0)
  {
    if Enabled(s, a) && !a.Tick? && !a.Create? && !a.Queue? {
      InFlightUpdated(s.workers, a.w, NextWork(s, a)[a.w], id);
      assert NextWork(s, a) == s.workers[a.w := NextWork(s, a)[a.w]];
    }
  }

  lemma NobodyAtUnknown(s: System, id: RequestId)
    requires Inv(s) && id !in s.requests
    ensures InFlight(s.workers, id) == {}
  {
    forall w | w in s.workers
      ensures !OnTheWire(s.workers[w], id)
    {
      assert WorkInv(s, s.workers[w]);
    }
  }

  // The step is a mark on the request, and it takes effect.
  predicate Marks(s: System, a: Action, id: RequestId) {
    IsMark(a) && Written(s, a).Some? && Written(s, a).value.0 == id
  }

  lemma CountsAfter(s: System, a: Action, id: RequestId)
    requires id in s.requests
    ensures id in Next(s, a).requests
    ensures var r, r' := s.requests[id], Next(s, a).requests[id];
            && r'.row.attempts == (if Marks(s, a, id) then WorkOf(s, a.w).known + 1 else r.row.attempts)
            && r'.marks == (if Marks(s, a, id) then r.marks + 1 else r.marks)
            && r'.tries == (if Tried(s, a) == Some(id) then r.tries + 1 else r.tries)
  {
    NextAt(s, a, id);
  }

  // Only a mark can change how the count relates to the attempts, or a worker that goes away after its POST.
  lemma StepBalances(s: System, a: Action, id: RequestId)
    requires Inv(s) && InStep(s, id) && id in s.requests
    ensures Exact(Next(s, a), id) <==> Orderly(s, a, id)
  {
    InFlightAfter(s, a, id);
    CountsAfter(s, a, id);
    if IsMark(a) && Enabled(s, a) { assert s.workers[a.w].id == id ==> s.workers[a.w].known == s.workers[a.w].since; }
  }

  lemma NothingAtUnknown(s: System, a: Action, id: RequestId)
    requires Inv(s) && id !in s.requests
    ensures Exact(Next(s, a), id) && Orderly(s, a, id)
  {
    InFlightAfter(s, a, id);
    NobodyAtUnknown(s, id);
    if a.Abandon? && a.w in s.workers { assert WorkInv(s, s.workers[a.w]); }
  }

  lemma StepIsExactIffOrderly(s: System, a: Action, id: RequestId)
    requires Inv(s) && InStep(s, id)
    ensures Exact(Next(s, a), id) <==> Orderly(s, a, id)
  {
    if id in s.requests { StepBalances(s, a, id); } else { NothingAtUnknown(s, a, id); }
  }

  lemma ReaderStaysInStep(s: System, a: Action, id: RequestId, w: WorkerId)
    requires Inv(s) && InStep(s, id)
    requires w in Next(s, a).workers && !Next(s, a).workers[w].Idle? && Next(s, a).workers[w].id == id
    ensures Next(s, a).workers[w].known == Next(s, a).workers[w].since
  {
  }

  lemma OrderlyStaysInStep(s: System, a: Action, id: RequestId)
    requires Inv(s) && InStep(s, id) && Orderly(s, a, id)
    ensures InStep(Next(s, a), id)
  {
    StepIsExactIffOrderly(s, a, id);
    if id in s.requests { CountsAfter(s, a, id); }
    forall w | w in Next(s, a).workers && !Next(s, a).workers[w].Idle? && Next(s, a).workers[w].id == id
      ensures Next(s, a).workers[w].known == Next(s, a).workers[w].since
    {
      ReaderStaysInStep(s, a, id, w);
    }
  }

  lemma {:induction false} ExactFromHere(s: System, actions: seq<Action>, id: RequestId)
    requires Inv(s) && InStep(s, id)
    ensures AlwaysExact(s, actions, id) <==> AlwaysOrderly(s, actions, id)
    decreases |actions|
  {
    if actions != [] {
      NextKeepsInv(s, actions[0]);
      StepIsExactIffOrderly(s, actions[0], id);
      if Orderly(s, actions[0], id) {
        OrderlyStaysInStep(s, actions[0], id);
        ExactFromHere(Next(s, actions[0]), actions[1..], id);
      }
    }
  }

  /**
   Throughout a run the stored count is the number of attempts made, apart from those still on the wire, if
   and only if every attempt is closed by an effective mark of its own, and no other mark falls
   between the worker's reading of the row and that mark.
   */
  lemma CountIsExactIffOrderly(actions: seq<Action>, id: RequestId)
    ensures AlwaysExact(Start, actions, id) <==> AlwaysOrderly(Start, actions, id)
  {
    assert InFlight(Start.workers, id) == {};
    ExactFromHere(Start, actions, id);
  }

  // ----- one worker alone -----

  // The only worker of a request has read all marks there are, and holds the latest claim.
  ghost predicate Alone(s: System, w: WorkerId, id: RequestId) {
    var k := WorkOf(s, w);
    && (forall x | x in s.workers && x != w && !s.workers[x].Idle? :: s.workers[x].id != id)
    && (!k.Idle? && k.id == id && id in s.requests ==>
          k.since == s.requests[id].marks && (k.Holding? ==> Fenced(s.requests[id].row, k.token)))
  }

  // Nobody but w takes up the request, and w does not crash.
  predicate LeftTo(a: Action, w: WorkerId, id: RequestId) {
    (a.Select? && a.id == id ==> a.w == w) && a != Abandon(w)
  }

  lemma StepAlone(s: System, a: Action, w: WorkerId, id: RequestId)
    requires Inv(s) && Alone(s, w, id) && LeftTo(a, w, id)
    ensures Orderly(s, a, id)
  {
  }

  lemma OthersStayAway(s: System, a: Action, w: WorkerId, id: RequestId)
    requires Alone(s, w, id) && LeftTo(a, w, id)
    ensures forall x | x in Next(s, a).workers && x != w && !Next(s, a).workers[x].Idle? :: Next(s, a).workers[x].id != id
  {
  }

  predicate ByWorker(a: Action, w: WorkerId) {
    (a.Select? || a.Claim? || a.Post? || a.Abandon? || AfterClaim(a)) && a.w == w
  }

  lemma OthersOnlyQueue(s: System, a: Action, w: WorkerId, id: RequestId)
    requires Alone(s, w, id) && LeftTo(a, w, id) && !ByWorker(a, w) && id in s.requests
    ensures Written(s, a).Some? && Written(s, a).value.0 == id ==> a.Queue?
  {
  }

  // Whatever the others do, the request stays as its worker has left it.
  lemma OthersLeaveRequest(s: System, a: Action, w: WorkerId, id: RequestId)
    requires Inv(s) && Alone(s, w, id) && LeftTo(a, w, id) && !ByWorker(a, w) && id in s.requests
    ensures WorkOf(Next(s, a), w) == WorkOf(s, w)
    ensures id in Next(s, a).requests && Next(s, a).requests[id].marks == s.requests[id].marks
    ensures WorkOf(s, w).Holding? && WorkOf(s, w).id == id ==> Fenced(Next(s, a).requests[id].row, WorkOf(s, w).token)
  {
    OthersOnlyQueue(s, a, w, id);
    NextAt(s, a, id);
  }

  lemma OwnStep(s: System, a: Action, w: WorkerId, id: RequestId)
    requires Inv(s) && Alone(s, w, id) && LeftTo(a, w, id) && ByWorker(a, w) && id in s.requests
    ensures var k := WorkOf(Next(s, a), w);
            id in Next(s, a).requests &&
            (!k.Idle? && k.id == id ==> k.since == Next(s, a).requests[id].marks
                                        && (k.Holding? ==> Fenced(Next(s, a).requests[id].row, k.token)))
  {
    NextAt(s, a, id);
  }

  lemma StaysAlone(s: System, a: Action, w: WorkerId, id: RequestId)
    requires Inv(s) && Alone(s, w, id) && LeftTo(a, w, id)
    ensures Alone(Next(s, a), w, id)
  {
    OthersStayAway(s, a, w, id);
    if id in s.requests {
      if ByWorker(a, w) { OwnStep(s, a, w, id); } else { OthersLeaveRequest(s, a, w, id); }
    } else if w in s.workers {
      assert WorkInv(s, s.workers[w]);
    }
  }

  lemma {:induction false} AloneIsOrderly(s: System, actions: seq<Action>, w: WorkerId, id: RequestId)
    requires Inv(s) && Alone(s, w, id) && forall a | a in actions :: LeftTo(a, w, id)
    ensures AlwaysOrderly(s, actions, id)
    decreases |actions|
  {
    if actions != [] {
      assert actions[0] in actions;
      NextKeepsInv(s, actions[0]);
      StepAlone(s, actions[0], w, id);
      StaysAlone(s, actions[0], w, id);
      AloneIsOrderly(Next(s, actions[0]), actions[1..], w, id);
    }
  }

  /** A request that is left to a single worker that does not crash has every attempt counted. */
  lemma OneSteadyWorkerIsExact(actions: seq<Action>, w: WorkerId, id: RequestId)
    requires forall a | a in actions :: LeftTo(a, w, id)
    ensures AlwaysExact(Start, actions, id)
  {
    AloneIsOrderly(Start, actions, w, id);
    CountIsExactIffOrderly(actions, id);
  }

  // ----- attempts that are not counted -----

  lemma {:induction false} RunAppends(s: System, xs: seq<Action>, ys: seq<Action>)
    ensures Run(s, xs + ys) == Run(Run(s, xs), ys)
    decreases |xs|
  {
    if xs == [] {
      assert xs + ys == ys;
    } else {
      assert (xs + ys)[0] == xs[0] && (xs + ys)[1..] == xs[1..] + ys;
      RunAppends(Next(s, xs[0]), xs[1..], ys);
    }
  }

  lemma RunOne(s: System, a: Action)
    ensures Run(s, [a]) == Next(s, a)
  {
    assert [a][1..] == [];
  }

  // Request 0 is pending with `made` attempts behind it, and workers made, made + 1, ..., n - 1 have
  // all read its row when the count was 0.
  ghost predicate Stale(s: System, made: nat, n: nat) {
    && 0 in s.requests && s.requests[0].row.status.Pending? && s.requests[0].row.nextAttempt.Some?
    && s.requests[0].row.attempts <= 1 && s.requests[0].tries == made
    && forall w | made <= w < n :: w in s.workers && s.workers[w] == Selected(0, 0, 0)
  }

  // A worker that has read the row waits until it is due, claims it, and posts.
  lemma ClaimAndPost(s: System, w: WorkerId) returns (actions: seq<Action>, t: int)
    requires WorkOf(s, w) == Selected(0, 0, 0) && 0 in s.requests
    requires s.requests[0].row.status.Pending? && s.requests[0].row.nextAttempt.Some?
    ensures var e, r := Run(s, actions), s.requests[0];
            && e.clock == t && e.workers == s.workers[w := Holding(0, 0, 0, t, true)]
            && 0 in e.requests && e.requests[0].tries == r.tries + 1 && e.requests[0].marks == r.marks
            && e.requests[0].row == r.row.(lastAttempt := Some(t), nextAttempt := Some(t + CLAIM_LEASE))
  {
    t := Max(s.clock, s.requests[0].row.nextAttempt.value);
    var tick, claim, post := Tick(t), Claim(w, t), Post(w);
    actions := [tick] + [claim] + [post];
    var s1 := Next(s, tick);
    var s2 := Next(s1, claim);
    RunAppends(s, [tick] + [claim], [post]);
    RunAppends(s, [tick], [claim]);
    RunOne(s, tick);
    RunOne(s1, claim);
    RunOne(s2, post);
    assert s2.workers[w] == Holding(0, 0, 0, t, false) && s2.requests[0].row.lastAttempt == Some(t);
    assert Next(s2, post).workers == s.workers[w := Holding(0, 0, 0, t, true)];
  }

  lemma StaleAttempt(s: System, made: nat, n: nat) returns (actions: seq<Action>)
    requires Stale(s, made, n) && made < n
    ensures Stale(Run(s, actions), made + 1, n)
  {
    var posting, t := ClaimAndPost(s, made);
    var fail := Action.Fail(made, false, t, t);
    actions := posting + [fail];
    RunAppends(s, posting, [fail]);
    RunOne(Run(s, posting), fail);
  }

  lemma {:induction false} ManyReaders(n: nat) returns (actions: seq<Action>)
    ensures Stale(Run(Start, actions), 0, n)
    ensures Run(Start, actions).requests[0].row.attempts == 0 && Run(Start, actions).requests[0].marks == 0
    ensures forall w | w in Run(Start, actions).workers :: w < n
  {
    if n == 0 {
      actions := [Create(0, true)] + [Queue(0, 0)];
      RunAppends(Start, [Create(0, true)], [Queue(0, 0)]);
      RunOne(Start, Create(0, true));
      RunOne(Next(Start, Create(0, true)), Queue(0, 0));
      assert Run(Start, actions).requests[0].row == Row(Pending, 0, None, Some(0));
    } else {
      var earlier := ManyReaders(n - 1);
      var select: Action := Select(n - 1, 0);
      actions := earlier + [select];
      RunAppends(Start, earlier, [select]);
      RunOne(Run(Start, earlier), select);
    }
  }

  /**
   The limit on the stored count does not limit the attempts: with enough workers that read the row
   early, any number of failed attempts leaves a request pending with a stored count of at most one.
   */
  lemma {:induction false} AttemptsAreUnbounded(made: nat, n: nat) returns (actions: seq<Action>)
    requires made <= n
    ensures Stale(Run(Start, actions), made, n)
  {
    if made == 0 {
      actions := ManyReaders(n);
    } else {
      var earlier := AttemptsAreUnbounded(made - 1, n);
      var more := StaleAttempt(Run(Start, earlier), made - 1, n);
      actions := earlier + more;
      RunAppends(Start, earlier, more);
    }
  }

  // Request 0 is pending and due again, the count is 0, and everybody has gone.
  ghost predicate Forgotten(s: System, made: nat) {
    && 0 in s.requests && s.requests[0].row.status.Pending? && s.requests[0].row.nextAttempt.Some?
    && s.requests[0].row.attempts == 0 && s.requests[0].marks == 0 && s.requests[0].tries == made
    && WorkOf(s, 0).Idle?
  }

  lemma CrashedAttempt(s: System, made: nat) returns (actions: seq<Action>)
    requires Forgotten(s, made)
    ensures Forgotten(Run(s, actions), made + 1)
  {
    var select, crash: Action := Select(0, 0), Abandon(0);
    RunOne(s, select);
    var s1 := Next(s, select);
    assert s1.requests[0] == s.requests[0];
    var posting, t := ClaimAndPost(s1, 0);
    RunAppends(s, [select], posting);
    var s2 := Run(s1, posting);
    RunAppends(s, [select] + posting, [crash]);
    RunOne(s2, crash);
    assert Next(s2, crash).requests[0] == s2.requests[0];
    actions := [select] + posting + [crash];
  }

  /**
   Nor are attempts counted whose worker crashes after the POST: any number of them leaves the count at 0,
   although nobody ever used an outdated count.
   */
  lemma {:induction false} CrashesAreNotCounted(made: nat) returns (actions: seq<Action>)
    ensures Forgotten(Run(Start, actions), made)
  {
    if made == 0 {
      actions := ManyReaders(0);
    } else {
      var earlier := CrashesAreNotCounted(made - 1);
      var more := CrashedAttempt(Run(Start, earlier), made - 1);
      actions := earlier + more;
      RunAppends(Start, earlier, more);
    }
  }

  // ----- the table, in place -----

  datatype ScanStatus = ScanPending | ScanRunning | ScanCompleted | ScanFailed | ScanCancelled

  predicate TerminalScan(scan: ScanStatus) { scan.ScanCompleted? || scan.ScanFailed? || scan.ScanCancelled? }

  datatype Verdict = VerdictPending | VerdictFail | VerdictError | VerdictPass

  /** ComputeVerdict, over whether each policy result on record is a failure. */
  method ComputeVerdict(scan: Option<ScanStatus>, policyCount: nat, failures: seq<bool>) returns (v: Verdict)
    ensures v == VerdictPending <==> scan.Some? && (scan.value in {ScanPending, ScanRunning} || |failures| < policyCount)
    ensures v == VerdictFail <==>
              && scan.Some? && scan.value in {ScanCompleted, ScanFailed, ScanCancelled} && |failures| >= policyCount
              && true in failures
    ensures v == VerdictPass <==>
              && scan.Some? && scan.value in {ScanCompleted, ScanCancelled} && |failures| >= policyCount && true !in failures
    ensures v == VerdictError <==>
              || scan.None?
              || (scan.value == ScanFailed && |failures| >= policyCount && true !in failures)
  {
    if scan.None? { return VerdictError; }
    if !TerminalScan(scan.value) { return VerdictPending; }
    if |failures| < policyCount { return VerdictPending; }
    for i := 0 to |failures|
      invariant true !in failures[..i]
    {
      if failures[i] { return VerdictFail; }
    }
    assert failures[..|failures|] == failures;
    return if scan.value.ScanFailed? then VerdictError else VerdictPass;
  }

  // A request as a worker holds it in memory: the count it read, and the time of its claim if it has one.
  class HeldRequest {
    const id: RequestId
    const known: nat
    var claimedAt: Option<int>

    constructor (id: RequestId, known: nat)
      ensures this.id == id && this.known == known && claimedAt.None?
    {
      this.id, this.known, claimedAt := id, known, None;
    }
  }

  // How a delivery goes once the request is claimed: the scan or the result cannot be loaded or the
  // request not be built, the POST fails, or it is accepted.
  datatype Attempt = Unbuildable | Rejected | Accepted

  function Applied(rows: map<RequestId, Row>, id: RequestId, r: Option<Row>): map<RequestId, Row> {
    if r.Some? then rows[id := r.value] else rows
  }

  class RequestTable {
    var rows: map<RequestId, Row>

    constructor ()
      ensures rows == map[]
    {
      rows := map[];
    }

    method QueueCallback(id: RequestId, scan: ScanStatus, now: int)
      requires id in rows
      modifies this
      ensures rows == if TerminalScan(scan) then Applied(old(rows), id, QueueRow(old(rows)[id], now)) else old(rows)
      ensures var row := old(rows)[id];
              rows == if scan in {ScanCompleted, ScanFailed, ScanCancelled}
                         && (row.status == AwaitingTerminal || (row.status == Pending && row.lastAttempt == None))
                      then old(rows)[id := Row(Pending, row.attempts, row.lastAttempt, Some(now))] else old(rows)
    {
      if !TerminalScan(scan) { return; }
      var row := rows[id];
      if row.status.AwaitingTerminal? || (row.status.Pending? && row.lastAttempt.None?) {
        rows := rows[id := row.(status := Pending, nextAttempt := Some(now))];
      }
    }

    method ClaimPending(req: HeldRequest, claimedAt: int) returns (claimed: bool)
      requires req.id in rows
      modifies this, req
      ensures rows == Applied(old(rows), req.id, ClaimRow(old(rows)[req.id], claimedAt))
      ensures var row := old(rows)[req.id];
              && (claimed <==> row.status == Pending && (row.nextAttempt.Some? ==> row.nextAttempt.value <= claimedAt))
              && rows == if claimed then old(rows)[req.id := Row(Pending, row.attempts, Some(claimedAt), Some(claimedAt + 30_000))]
                         else old(rows)
      ensures req.claimedAt == if claimed then Some(claimedAt) else old(req.claimedAt)
    {
      var row := rows[req.id];
      claimed := row.status.Pending? && (row.nextAttempt.None? || row.nextAttempt.value <= claimedAt);
      if claimed {
        rows := rows[req.id := row.(lastAttempt := Some(claimedAt), nextAttempt := Some(claimedAt + CLAIM_LEASE))];
        req.claimedAt := Some(claimedAt);
      }
    }

    method ReleaseClaim(req: HeldRequest, next: int)
      requires req.id in rows && req.claimedAt.Some?
      modifies this
      ensures rows == Applied(old(rows), req.id, ReleaseRow(old(rows)[req.id], req.claimedAt.value, next))
      ensures var row := old(rows)[req.id];
              rows == if row.status == Pending && row.lastAttempt == req.claimedAt
                      then old(rows)[req.id := Row(Pending, row.attempts, row.lastAttempt, Some(next))] else old(rows)
    {
      var row := rows[req.id];
      if row.status.Pending? && row.lastAttempt == req.claimedAt {
        rows := rows[req.id := row.(nextAttempt := Some(next))];
      }
    }

    method MarkFailure(req: HeldRequest, terminal: bool, first: int, second: int)
      requires req.id in rows && req.claimedAt.Some?
      modifies this
      ensures rows == Applied(old(rows), req.id, FailRow(old(rows)[req.id], req.claimedAt.value, req.known, terminal, first, second))
      ensures var row, n := old(rows)[req.id], req.known + 1;
              rows == if row.status != Pending || row.lastAttempt != req.claimedAt then old(rows)
                      else old(rows)[req.id := if terminal || n >= 5 then Row(Failed, n, Some(second), None)
                                               else Row(Pending, n, Some(second), Some(first + n * n * 60_000))]
    {
      var attempts := req.known + 1;
      var status, next := Pending, Some(first + attempts * attempts * MINUTE);
      if terminal || attempts >= MAX_ATTEMPTS {
        status, next := Failed, None;
      }
      var row := rows[req.id];
      if row.status.Pending? && row.lastAttempt == req.claimedAt {
        rows := rows[req.id := Row(status, attempts, Some(second), next)];
      }
    }

    /**
     deliverCallback, for a claimed request with a callback address. Whatever happens, only a row that is still
     pending under the claim is written: delivered if the endpoint accepts, put off if there is nothing to
     deliver yet, otherwise tried again after the square of the attempts in minutes, or failed for good.
     */
    method DeliverCallback(req: HeldRequest, scan: Option<ScanStatus>, verdict: Verdict, attempt: Attempt, first: int, second: int)
      requires req.id in rows && req.claimedAt.Some?
      modifies this
      ensures var row, token := old(rows)[req.id], req.claimedAt.value;
              var written :=
                if scan.None? then FailRow(row, token, req.known, true, first, second)
                else if !TerminalScan(scan.value) || verdict.VerdictPending? then ReleaseRow(row, token, first + POLL_INTERVAL)
                else if attempt.Accepted? then DeliverRow(row, token, req.known, second)
                else FailRow(row, token, req.known, attempt.Unbuildable?, first, second);
              rows == Applied(old(rows), req.id, written)
      ensures var row, n := old(rows)[req.id], req.known + 1;
              var early := scan.Some? && (scan.value in {ScanPending, ScanRunning} || verdict == VerdictPending);
              && (row.status != Pending || row.lastAttempt != req.claimedAt ==> rows == old(rows))
              && (row.status == Pending && row.lastAttempt == req.claimedAt ==> rows == old(rows)[req.id :=
                    if early then Row(Pending, row.attempts, row.lastAttempt, Some(first + 2_000))
                    else if scan.Some? && attempt == Accepted then Row(Delivered, n, Some(second), None)
                    else if scan.Some? && attempt == Rejected && n < 5 then Row(Pending, n, Some(second), Some(first + n * n * 60_000))
                    else Row(Failed, n, Some(second), None)])
    {
      if scan.None? {
        MarkFailure(req, true, first, second);
        return;
      }
      if !TerminalScan(scan.value) {
        ReleaseClaim(req, first + POLL_INTERVAL);
        return;
      }
      if verdict.VerdictPending? {
        ReleaseClaim(req, first + POLL_INTERVAL);
        return;
      }
      if attempt.Unbuildable? {
        MarkFailure(req, true, first, second);
        return;
      }
      if attempt.Rejected? {
        MarkFailure(req, false, first, second);
        return;
      }
      var row := rows[req.id];
      if row.status.Pending? && row.lastAttempt == req.claimedAt {
        rows := rows[req.id := Row(Delivered, req.known + 1, Some(second), None)];
      }
    }
  }
}
