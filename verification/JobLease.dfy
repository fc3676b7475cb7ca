/**
 The background-job queue: claiming a job under a lease, renewing it, reporting progress, requeueing
 and finishing, by any number of workers that may stall or crash at any point.

 The table is a map from job to row. Every conditional UPDATE of the program is a function on one row
 that returns nothing when its WHERE clause fails. A worker that crashes simply takes no more steps.
 Times are milliseconds; every step carries the clock it reads.
 */
module JobLease {
  import opened Wrappers

  const LEASE: int := 30_000
  const REQUEUE_DELAY: int := 2_000
  const MAX_RETRY_DELAY: int := 30_000
  const MAX_TRANSIENT_RETRIES: nat := 5

  type JobId = nat
  type WorkerId = nat

  datatype Status = Queued | Running | Succeeded | Failed

  // The durable execution payload: the transient retry count, when there is one, and everything else.
  datatype Payload = Payload(retries: Option<int>, body: int)

  datatype Row = Row(status: Status, owner: Option<WorkerId>, leaseUntil: Option<int>, payload: Payload)

  function RetryCount(p: Payload): int { if p.retries.Some? then p.retries.value else 0 }

  predicate Finished(s: Status) { s.Succeeded? || s.Failed? }

  // ----- the retry delay -----

  function Pow2(n: nat): nat { if n == 0 then 1 else 2 * Pow2(n - 1) }

  lemma {:induction false} Pow2Grows(m: nat, n: nat)
    requires m <= n
    ensures Pow2(m) <= Pow2(n)
  {
    if m < n { Pow2Grows(m, n - 1); }
  }

  /** retryDelay: two seconds, doubled with every attempt, and at most half a minute. */
  method RetryDelay(attempt: int) returns (delay: int)
    ensures attempt <= 0 ==> delay == 2_000
    ensures attempt >= 1 ==> delay == Min(30_000, 1_000 * Pow2(attempt))
  {
    if attempt <= 0 { return REQUEUE_DELAY; }
    delay := REQUEUE_DELAY;
    var index := 1;
    while index < attempt
      invariant 1 <= index <= attempt
      invariant delay == 1_000 * Pow2(index) && delay <= MAX_RETRY_DELAY
    {
      if delay >= MAX_RETRY_DELAY / 2 {
        Pow2Grows(index + 1, attempt);
        return MAX_RETRY_DELAY;
      }
      delay := delay * 2;
      index := index + 1;
    }
    if delay > MAX_RETRY_DELAY {
      return MAX_RETRY_DELAY;
    }
  }

  // ----- the conditional updates, on one row -----

  predicate Claimable(row: Row, now: int) {
    || (row.status.Queued? && (row.leaseUntil.None? || row.leaseUntil.value <= now))
    || (row.status.Running? && (row.leaseUntil.None? || row.leaseUntil.value < now))
  }

  function ClaimRow(row: Row, w: WorkerId, now: int): Option<Row> {
    if Claimable(row, now) then Some(row.(status := Running, owner := Some(w), leaseUntil := Some(now + LEASE))) else None
  }

  // The WHERE clause of every update after the claim; without an owner only the status is checked.
  predicate Held(row: Row, owner: Option<WorkerId>) {
    row.status.Running? && (owner.Some? ==> row.owner == owner)
  }

  function RenewRow(row: Row, w: WorkerId, now: int): Option<Row> {
    if Held(row, Some(w)) then Some(row.(leaseUntil := Some(now + LEASE))) else None
  }

  function ProgressRow(row: Row, owner: Option<WorkerId>, now: int, payload: Option<Payload>): Option<Row> {
    if Held(row, owner)
    then Some(row.(leaseUntil := Some(now + LEASE), payload := if payload.Some? then payload.value else row.payload))
    else None
  }

  function RequeueRow(row: Row, w: WorkerId, now: int): Option<Row> {
    if Held(row, Some(w)) then Some(row.(owner := None, leaseUntil := Some(now + REQUEUE_DELAY))) else None
  }

  function RetryRow(row: Row, w: WorkerId, now: int, payload: Payload): Option<Row> {
    if Held(row, Some(w)) then
      var delay := Min(MAX_RETRY_DELAY, 1_000 * Pow2(Max(1, RetryCount(payload))));
      Some(row.(owner := None, leaseUntil := Some(now + delay), payload := payload))
    else None
  }

  function FinishRow(row: Row, w: WorkerId, status: Status): Option<Row> {
    if Held(row, Some(w)) then Some(row.(status := status, owner := None, leaseUntil := None)) else None
  }

  // ----- the system: one table, many workers -----

  // What a worker remembers: the job it claimed, the number of that claim among the claims of the job,
  // and its copy of the payload. After an unsuccessful transient requeue only markFailed is left to it.
  datatype Work = Idle | Busy(job: JobId, ticket: nat, payload: Payload, failing: bool)

  // Bookkeeping that exists only for the proof: who claimed the job last and how often it was claimed
  // and transiently requeued.
  datatype History = History(claims: nat, claimer: WorkerId, retries: nat)

  datatype Job = Job(row: Row, history: History)

  datatype System = System(jobs: map<JobId, Job>, workers: map<WorkerId, Work>, clock: int)

  datatype Action =
    | Tick(time: int)
    | Enqueue(id: JobId, payload: Payload)
    | Claim(w: WorkerId, id: JobId)
    | Renew(w: WorkerId)
    | Progress(w: WorkerId, report: Option<Payload>)
    | AnonymousProgress(id: JobId, report: Option<Payload>)
    | Requeue(w: WorkerId)
    | RetryLater(w: WorkerId)
    | RetryLaterErrs(w: WorkerId)
    | Succeed(w: WorkerId)
    | Fail(w: WorkerId)
    | Abandon(w: WorkerId)

  function WorkOf(s: System, w: WorkerId): Work { if w in s.workers then s.workers[w] else Idle }

  function NextPayload(p: Payload): Payload { p.(retries := Some(RetryCount(p) + 1)) }

  // The row an action would write, when it is enabled and its WHERE clause holds.
  function Written(s: System, a: Action): Option<(JobId, Row)> {
    match a
    case Enqueue(id, payload) =>
      if id in s.jobs then None else Some((id, Row(Queued, None, None, payload)))
    case Claim(w, id) =>
      if WorkOf(s, w).Idle? && id in s.jobs then On(id, ClaimRow(s.jobs[id].row, w, s.clock)) else None
    case Renew(w) =>
      var k := WorkOf(s, w);
      if k.Busy? && k.job in s.jobs && !k.failing then On(k.job, RenewRow(s.jobs[k.job].row, w, s.clock)) else None
    case Progress(w, report) =>
      var k := WorkOf(s, w);
      if k.Busy? && k.job in s.jobs && !k.failing then On(k.job, ProgressRow(s.jobs[k.job].row, Some(w), s.clock, report)) else None
    case AnonymousProgress(id, report) =>
      if id in s.jobs then On(id, ProgressRow(s.jobs[id].row, None, s.clock, report)) else None
    case Requeue(w) =>
      var k := WorkOf(s, w);
      if k.Busy? && k.job in s.jobs && !k.failing then On(k.job, RequeueRow(s.jobs[k.job].row, w, s.clock)) else None
    case RetryLater(w) =>
      var k := WorkOf(s, w);
      if k.Busy? && k.job in s.jobs && !k.failing && RetryCount(k.payload) + 1 <= MAX_TRANSIENT_RETRIES
      then On(k.job, RetryRow(s.jobs[k.job].row, w, s.clock, NextPayload(k.payload))) else None
    case Succeed(w) =>
      var k := WorkOf(s, w);
      if k.Busy? && k.job in s.jobs && !k.failing then On(k.job, FinishRow(s.jobs[k.job].row, w, Succeeded)) else None
    case Fail(w) =>
      var k := WorkOf(s, w);
      if k.Busy? && k.job in s.jobs then On(k.job, FinishRow(s.jobs[k.job].row, w, Failed)) else None
    case Tick(_) => None
    case RetryLaterErrs(_) => None
    case Abandon(_) => None
  }

  function On(id: JobId, r: Option<Row>): Option<(JobId, Row)> {
    if r.Some? then Some((id, r.value)) else None
  }

  function NextHistory(h: History, a: Action): History {
    match a
    case Claim(w, _) => h.(claims := h.claims + 1, claimer := w)
    case RetryLater(_) => h.(retries := h.retries + 1)
    case _ => h
  }

  // After a transient requeue that had no effect; the copy of the payload keeps the attempt it counted.
  function GivenUp(k: Work): Work {
    if k.Idle? then k
    else k.(failing := true, payload := if RetryCount(k.payload) + 1 <= MAX_TRANSIENT_RETRIES then NextPayload(k.payload) else k.payload)
  }

  // What the acting worker knows afterwards. A finishing or requeueing update ends its work whether or
  // not it took effect; a transient requeue that did not leaves it with markFailed.
  function NextWork(s: System, a: Action, accepted: bool): map<WorkerId, Work> {
    match a
    case Claim(w, id) =>
      if accepted && id in s.jobs
      then s.workers[w := Busy(id, s.jobs[id].history.claims + 1, s.jobs[id].row.payload, false)]
      else s.workers
    case Progress(w, report) =>
      if accepted && report.Some? && WorkOf(s, w).Busy? then s.workers[w := WorkOf(s, w).(payload := report.value)] else s.workers
    case RetryLater(w) => if accepted then s.workers[w := Idle] else s.workers[w := GivenUp(WorkOf(s, w))]
    case RetryLaterErrs(w) => s.workers[w := GivenUp(WorkOf(s, w))]
    case Requeue(w) => s.workers[w := Idle]
    case Succeed(w) => s.workers[w := Idle]
    case Fail(w) => s.workers[w := Idle]
    case Abandon(w) => s.workers[w := Idle]
    case _ => s.workers
  }

  /** One atomic step. An action that is not enabled changes no row. */
  function Next(s: System, a: Action): System {
    var written := Written(s, a);
    var workers := NextWork(s, a, written.Some?);
    if written.Some? then
      var (id, row) := written.value;
      var history := if id in s.jobs then s.jobs[id].history else History(0, 0, 0);
      System(s.jobs[id := Job(row, NextHistory(history, a))], workers, s.clock)
    else if a.Tick? then s.(clock := Max(s.clock, a.time))
    else s.(workers := workers)
  }

  /** A run: any interleaving of the workers' steps. */
  function Run(s: System, actions: seq<Action>): System
    decreases |actions|
  {
    if actions == [] then s else Run(Next(s, actions[0]), actions[1..])
  }

  const Start: System := System(map[], map[], 0)

  // ----- what every run keeps -----

  ghost predicate RowInv(j: Job) {
    j.row.owner.Some? ==> j.row.status.Running? && j.history.claims > 0 && j.row.owner.value == j.history.claimer
  }

  ghost predicate WorkInv(s: System, w: WorkerId, k: Work) {
    k.Busy? ==>
      && k.job in s.jobs && 0 < k.ticket <= s.jobs[k.job].history.claims
      && (k.ticket == s.jobs[k.job].history.claims ==> s.jobs[k.job].history.claimer == w)
      && (s.jobs[k.job].row.owner == Some(w) ==> k.ticket == s.jobs[k.job].history.claims)
  }

  ghost predicate Inv(s: System) {
    && (forall id | id in s.jobs :: RowInv(s.jobs[id]))
    && (forall w | w in s.workers :: WorkInv(s, w, s.workers[w]))
  }

  lemma NextKeepsRowInv(s: System, a: Action, id: JobId)
    requires Inv(s) && id in Next(s, a).jobs
    ensures RowInv(Next(s, a).jobs[id])
  {
    if id in s.jobs { assert RowInv(s.jobs[id]); }
  }

  // The worker in whose name an action writes.
  function Author(a: Action): Option<WorkerId> {
    match a
    case Renew(w) => Some(w)
    case Progress(w, _) => Some(w)
    case Requeue(w) => Some(w)
    case RetryLater(w) => Some(w)
    case Succeed(w) => Some(w)
    case Fail(w) => Some(w)
    case _ => None
  }

  predicate ByWorker(a: Action, w: WorkerId) {
    Author(a) == Some(w) || a == RetryLaterErrs(w) || a == Abandon(w) || (a.Claim? && a.w == w)
  }

  // What others do to a job that belongs to w before and after.
  lemma OthersLeaveOwned(s: System, a: Action, w: WorkerId, id: JobId)
    requires Inv(s) && !ByWorker(a, w) && id in Next(s, a).jobs && Next(s, a).jobs[id].row.owner == Some(w)
    ensures id in s.jobs && s.jobs[id].row.owner == Some(w)
    ensures var j, j' := s.jobs[id], Next(s, a).jobs[id];
            j'.history == j.history && (j'.row.payload == j.row.payload || (a.AnonymousProgress? && a.report.Some?))
  {
    if id in s.jobs { assert RowInv(s.jobs[id]); }
  }

  lemma OthersLeaveWork(s: System, a: Action, w: WorkerId)
    requires !ByWorker(a, w)
    ensures WorkOf(Next(s, a), w) == WorkOf(s, w) && (w in Next(s, a).workers <==> w in s.workers)
  {
  }

  // Jobs stay, and a claim by another worker makes one more.
  lemma OthersClaimsGrow(s: System, a: Action, w: WorkerId, id: JobId)
    requires !ByWorker(a, w) && id in s.jobs
    ensures id in Next(s, a).jobs
    ensures var h, h' := s.jobs[id].history, Next(s, a).jobs[id].history;
            h.claims < h'.claims || (h.claims == h'.claims && h.claimer == h'.claimer)
  {
  }

  lemma OwnStepKeepsWorkInv(s: System, a: Action, w: WorkerId)
    requires Inv(s) && ByWorker(a, w) && w in Next(s, a).workers
    ensures WorkInv(Next(s, a), w, Next(s, a).workers[w])
  {
    if w in s.workers { assert WorkInv(s, w, s.workers[w]); }
  }

  lemma OtherStepKeepsWorkInv(s: System, a: Action, w: WorkerId)
    requires Inv(s) && !ByWorker(a, w) && w in s.workers
    ensures WorkInv(Next(s, a), w, s.workers[w])
  {
    var k := s.workers[w];
    assert WorkInv(s, w, k);
    if k.Busy? {
      OthersClaimsGrow(s, a, w, k.job);
      if Next(s, a).jobs[k.job].row.owner == Some(w) { OthersLeaveOwned(s, a, w, k.job); }
    }
  }

  lemma NextKeepsWorkInv(s: System, a: Action, w: WorkerId)
    requires Inv(s) && w in Next(s, a).workers
    ensures WorkInv(Next(s, a), w, Next(s, a).workers[w])
  {
    if ByWorker(a, w) {
      OwnStepKeepsWorkInv(s, a, w);
    } else {
      OthersLeaveWork(s, a, w);
      OtherStepKeepsWorkInv(s, a, w);
    }
  }

  lemma NextKeepsInv(s: System, a: Action)
    requires Inv(s)
    ensures Inv(Next(s, a))
  {
    forall id | id in Next(s, a).jobs
      ensures RowInv(Next(s, a).jobs[id])
    {
      NextKeepsRowInv(s, a, id);
    }
    forall w | w in Next(s, a).workers
      ensures WorkInv(Next(s, a), w, Next(s, a).workers[w])
    {
      NextKeepsWorkInv(s, a, w);
    }
  }

  lemma {:induction false} RunKeepsInv(s: System, actions: seq<Action>)
    requires Inv(s)
    ensures Inv(Run(s, actions))
    decreases |actions|
  {
    if actions != [] {
      NextKeepsInv(s, actions[0]);
      RunKeepsInv(Next(s, actions[0]), actions[1..]);
    }
  }

  /**
   Fencing. Whatever happened before, an update that a worker makes after its claim takes effect only
   if that claim is still the latest one of the job.
   */
  lemma OnlyTheLatestClaimWrites(actions: seq<Action>, a: Action)
    requires a.Renew? || a.Progress? || a.Requeue? || a.RetryLater? || a.Succeed? || a.Fail?
    requires Written(Run(Start, actions), a).Some?
    ensures var s, w := Run(Start, actions), a.w; var k := WorkOf(s, w);
            && k.Busy? && Written(s, a).value.0 == k.job
            && s.jobs[k.job].row.status.Running? && s.jobs[k.job].row.owner == Some(w)
            && k.ticket == s.jobs[k.job].history.claims && s.jobs[k.job].history.claimer == w
  {
    RunKeepsInv(Start, actions);
    var s := Run(Start, actions);
    assert WorkInv(s, a.w, WorkOf(s, a.w));
  }

  /** A job with an owner is running, in every reachable state. */
  lemma OwnedMeansRunning(actions: seq<Action>, id: JobId)
    requires var s := Run(Start, actions); id in s.jobs && s.jobs[id].row.owner.Some?
    ensures Run(Start, actions).jobs[id].row.status.Running?
  {
    RunKeepsInv(Start, actions);
  }

  /** Succeeded and failed are final: no later step touches the row. */
  lemma {:induction false} FinishedStays(s: System, actions: seq<Action>, id: JobId)
    requires id in s.jobs && Finished(s.jobs[id].row.status)
    ensures id in Run(s, actions).jobs && Run(s, actions).jobs[id].row == s.jobs[id].row
    decreases |actions|
  {
    if actions != [] {
      var s' := Next(s, actions[0]);
      assert id in s'.jobs && s'.jobs[id].row == s.jobs[id].row;
      FinishedStays(s', actions[1..], id);
    }
  }

  // ----- leases that never lapse -----

  predicate Releases(a: Action, w: WorkerId) {
    a == Requeue(w) || a == RetryLater(w) || a == Succeed(w) || a == Fail(w)
  }

  // Along the run, whenever w owns the job, its lease has not run out.
  ghost predicate LeaseKept(s: System, actions: seq<Action>, w: WorkerId, id: JobId)
    decreases |actions|
  {
    && (id in s.jobs && s.jobs[id].row.owner == Some(w) ==> s.jobs[id].row.leaseUntil.Some? && s.clock <= s.jobs[id].row.leaseUntil.value)
    && (actions != [] ==> LeaseKept(Next(s, actions[0]), actions[1..], w, id))
  }

  /** While the lease is kept and its holder does not release it, no other worker can claim the job. */
  lemma {:induction false} KeptLeaseExcludesOthers(s: System, actions: seq<Action>, w: WorkerId, id: JobId)
    requires Inv(s) && id in s.jobs && s.jobs[id].row.owner == Some(w)
    requires LeaseKept(s, actions, w, id)
    requires forall a | a in actions :: !Releases(a, w)
    ensures var e := Run(s, actions);
            id in e.jobs && e.jobs[id].row.owner == Some(w) && e.jobs[id].history.claims == s.jobs[id].history.claims
    decreases |actions|
  {
    if actions != [] {
      var a, s' := actions[0], Next(s, actions[0]);
      assert RowInv(s.jobs[id]);
      assert !Releases(a, w);
      NextKeepsInv(s, a);
      assert id in s'.jobs && s'.jobs[id].row.owner == Some(w) && s'.jobs[id].history.claims == s.jobs[id].history.claims;
      KeptLeaseExcludesOthers(s', actions[1..], w, id);
    }
  }

  // ----- the retry budget -----

  // The step is taken by processors that keep the retry count in what they report, and jobs start
  // without one.
  predicate KeepsCount(s: System, a: Action) {
    match a
    case Enqueue(_, payload) => RetryCount(payload) == 0
    case Progress(w, report) => report.Some? && WorkOf(s, w).Busy? ==> RetryCount(report.value) == RetryCount(WorkOf(s, w).payload)
    case AnonymousProgress(_, report) => report.None?
    case _ => true
  }

  ghost predicate RunKeepsCount(s: System, actions: seq<Action>)
    decreases |actions|
  {
    actions != [] ==> KeepsCount(s, actions[0]) && RunKeepsCount(Next(s, actions[0]), actions[1..])
  }

  ghost predicate JobCounts(j: Job) {
    j.history.retries == RetryCount(j.row.payload) && j.history.retries <= MAX_TRANSIENT_RETRIES
  }

  ghost predicate WorkCounts(s: System, w: WorkerId, k: Work) {
    k.Busy? && !k.failing && k.job in s.jobs && s.jobs[k.job].row.owner == Some(w) ==>
      RetryCount(k.payload) == RetryCount(s.jobs[k.job].row.payload)
  }

  ghost predicate CountInv(s: System) {
    && (forall id | id in s.jobs :: JobCounts(s.jobs[id]))
    && (forall w | w in s.workers :: WorkCounts(s, w, s.workers[w]))
  }

  lemma NextKeepsJobCounts(s: System, a: Action, id: JobId)
    requires Inv(s) && CountInv(s) && KeepsCount(s, a) && id in Next(s, a).jobs
    ensures JobCounts(Next(s, a).jobs[id])
  {
    if id in s.jobs { assert JobCounts(s.jobs[id]); }
    if Author(a).Some? && Author(a).value in s.workers {
      assert WorkCounts(s, Author(a).value, s.workers[Author(a).value]);
    }
  }

  lemma OwnStepKeepsWorkCounts(s: System, a: Action, w: WorkerId)
    requires Inv(s) && CountInv(s) && KeepsCount(s, a) && ByWorker(a, w) && w in Next(s, a).workers
    ensures WorkCounts(Next(s, a), w, Next(s, a).workers[w])
  {
    if w in s.workers {
      assert WorkCounts(s, w, s.workers[w]) && WorkInv(s, w, s.workers[w]);
    }
  }

  lemma OtherStepKeepsWorkCounts(s: System, a: Action, w: WorkerId)
    requires Inv(s) && CountInv(s) && KeepsCount(s, a) && !ByWorker(a, w) && w in s.workers
    ensures WorkCounts(Next(s, a), w, s.workers[w])
  {
    var k := s.workers[w];
    assert WorkCounts(s, w, k) && WorkInv(s, w, k);
    if k.Busy? && k.job in Next(s, a).jobs && Next(s, a).jobs[k.job].row.owner == Some(w) {
      OthersLeaveOwned(s, a, w, k.job);
    }
  }

  lemma NextKeepsWorkCounts(s: System, a: Action, w: WorkerId)
    requires Inv(s) && CountInv(s) && KeepsCount(s, a) && w in Next(s, a).workers
    ensures WorkCounts(Next(s, a), w, Next(s, a).workers[w])
  {
    if ByWorker(a, w) {
      OwnStepKeepsWorkCounts(s, a, w);
    } else {
      OthersLeaveWork(s, a, w);
      OtherStepKeepsWorkCounts(s, a, w);
    }
  }

  lemma NextKeepsCountInv(s: System, a: Action)
    requires Inv(s) && CountInv(s) && KeepsCount(s, a)
    ensures CountInv(Next(s, a))
  {
    forall id | id in Next(s, a).jobs
      ensures JobCounts(Next(s, a).jobs[id])
    {
      NextKeepsJobCounts(s, a, id);
    }
    forall w | w in Next(s, a).workers
      ensures WorkCounts(Next(s, a), w, Next(s, a).workers[w])
    {
      NextKeepsWorkCounts(s, a, w);
    }
  }

  lemma {:induction false} RunKeepsCountInv(s: System, actions: seq<Action>)
    requires Inv(s) && CountInv(s) && RunKeepsCount(s, actions)
    ensures CountInv(Run(s, actions))
    decreases |actions|
  {
    if actions != [] {
      NextKeepsInv(s, actions[0]);
      NextKeepsCountInv(s, actions[0]);
      RunKeepsCountInv(Next(s, actions[0]), actions[1..]);
    }
  }

  /**
   The retry budget belongs to the job, not to a claim: however often it changes hands, a job whose
   processors keep the count is transiently requeued at most five times in its whole life, and the
   count in its payload is the number of those requeues.
   */
  lemma RetriesStayWithinBudget(actions: seq<Action>, id: JobId)
    requires RunKeepsCount(Start, actions) && id in Run(Start, actions).jobs
    ensures var j := Run(Start, actions).jobs[id];
            && j.history.retries <= 5
            && j.history.retries == if j.row.payload.retries.Some? then j.row.payload.retries.value else 0
  {
    RunKeepsCountInv(Start, actions);
  }

  // Job 0 has been put off n times, by processors that keep the count, and worker 0 is free.
  ghost predicate PutOff(actions: seq<Action>, n: nat) {
    var s := Run(Start, actions);
    && RunKeepsCount(Start, actions) && WorkOf(s, 0).Idle? && 0 in s.jobs
    && s.jobs[0].row.status.Running? && s.jobs[0].row.leaseUntil.Some? && s.jobs[0].row.payload == Payload(Some(n), 0)
    && s.jobs[0].history.retries == n
  }

  lemma {:induction false} CountIsKeptOn(s: System, xs: seq<Action>, ys: seq<Action>)
    requires RunKeepsCount(s, xs) && RunKeepsCount(Run(s, xs), ys)
    ensures RunKeepsCount(s, xs + ys)
    decreases |xs|
  {
    if xs == [] {
      assert xs + ys == ys;
    } else {
      assert (xs + ys)[0] == xs[0] && (xs + ys)[1..] == xs[1..] + ys;
      CountIsKeptOn(Next(s, xs[0]), xs[1..], ys);
    }
  }

  lemma RunThree(s: System, a: Action, b: Action, c: Action)
    ensures Run(s, [a, b, c]) == Next(Next(Next(s, a), b), c)
    ensures KeepsCount(s, a) && KeepsCount(Next(s, a), b) && KeepsCount(Next(Next(s, a), b), c) ==> RunKeepsCount(s, [a, b, c])
  {
    var s1 := Next(s, a);
    var s2 := Next(s1, b);
    assert [a, b, c][1..] == [b, c] && [b, c][1..] == [c] && [c][1..] == [];
    assert Run(s2, [c]) == Run(Next(s2, c), []) && Run(s1, [b, c]) == Run(s2, [c]);
    assert RunKeepsCount(s2, [c]) <==> KeepsCount(s2, c) && RunKeepsCount(Next(s2, c), []);
    assert RunKeepsCount(s1, [b, c]) <==> KeepsCount(s1, b) && RunKeepsCount(s2, [c]);
  }

  lemma PutOffOnce(s: System, n: nat)
    requires WorkOf(s, 0).Idle? && 0 in s.jobs && s.jobs[0].row.status.Running? && n < 5
    requires s.jobs[0].row.leaseUntil.Some? && s.jobs[0].row.leaseUntil.value < s.clock
    requires s.jobs[0].row.payload == Payload(Some(n), 0) && s.jobs[0].history.retries == n
    ensures var e := Next(Next(s, Claim(0, 0)), RetryLater(0));
            && WorkOf(e, 0).Idle? && 0 in e.jobs && e.jobs[0].row.status.Running? && e.jobs[0].row.leaseUntil.Some?
            && e.jobs[0].row.payload == Payload(Some(n + 1), 0) && e.jobs[0].history.retries == n + 1
  {
  }

  /** The budget can be used up: a job can be put off any number of times up to five. */
  lemma {:induction false} RetriesCanHappen(n: nat) returns (actions: seq<Action>)
    requires 1 <= n <= 5
    ensures PutOff(actions, n)
  {
    if n == 1 {
      actions := [Enqueue(0, Payload(None, 0)), Claim(0, 0), RetryLater(0)];
      RunThree(Start, actions[0], actions[1], actions[2]);
    } else {
      var earlier := RetriesCanHappen(n - 1);
      var s := Run(Start, earlier);
      var t := s.jobs[0].row.leaseUntil.value + 1;
      var more := [Tick(t), Claim(0, 0), RetryLater(0)];
      actions := earlier + more;
      TimePasses(s, t);
      PutOffOnce(s.(clock := Max(s.clock, t)), n - 1);
      RunThree(s, more[0], more[1], more[2]);
      CountIsKeptOn(Start, earlier, more);
      RunAppends(Start, earlier, more);
    }
  }

  // ----- what the steps do, and that they can be taken -----

  /** A new job is queued without a lease; a known identifier changes nothing. */
  lemma EnqueuedJobIsQueued(s: System, id: JobId, payload: Payload)
    ensures id in Next(s, Enqueue(id, payload)).jobs
    ensures id !in s.jobs ==> Next(s, Enqueue(id, payload)).jobs == s.jobs[id := Job(Row(Queued, None, None, payload), History(0, 0, 0))]
    ensures id in s.jobs ==> Next(s, Enqueue(id, payload)).jobs == s.jobs
  {
  }

  /**
   An idle worker can claim a job exactly if the job is queued and its time has come, or running with no
   lease or one that has run out; it then owns the job for half a minute.
   */
  lemma WhatCanBeClaimed(s: System, w: WorkerId, id: JobId)
    requires WorkOf(s, w).Idle? && id in s.jobs
    ensures var row, s' := s.jobs[id].row, Next(s, Claim(w, id));
            var due := row.leaseUntil.None? || row.leaseUntil.value < s.clock || (row.status == Queued && row.leaseUntil.value == s.clock);
            && id in s'.jobs
            && (due && (row.status == Queued || row.status == Running) ==>
                  && s'.jobs[id].row == Row(Running, Some(w), Some(s.clock + 30_000), row.payload)
                  && WorkOf(s', w) == Busy(id, s'.jobs[id].history.claims, row.payload, false))
            && (!due || (row.status != Queued && row.status != Running) ==> s'.jobs == s.jobs && WorkOf(s', w).Idle?)
  {
  }

  ghost predicate HeldBy(s: System, w: WorkerId) {
    && WorkOf(s, w).Busy? && !WorkOf(s, w).failing && WorkOf(s, w).job in s.jobs
    && s.jobs[WorkOf(s, w).job].row.status == Running && s.jobs[WorkOf(s, w).job].row.owner == Some(w)
  }

  lemma WhatHoldingOnDoes(s: System, w: WorkerId, report: Payload)
    requires HeldBy(s, w)
    ensures var id := WorkOf(s, w).job;
            var row := s.jobs[id].row;
            && RowAfter(s, Renew(w), id) == Row(Running, Some(w), Some(s.clock + 30_000), row.payload)
            && RowAfter(s, Progress(w, None), id) == Row(Running, Some(w), Some(s.clock + 30_000), row.payload)
            && RowAfter(s, Progress(w, Some(report)), id) == Row(Running, Some(w), Some(s.clock + 30_000), report)
  {
  }

  lemma WhatLettingGoDoes(s: System, w: WorkerId)
    requires HeldBy(s, w)
    ensures var k, id := WorkOf(s, w), WorkOf(s, w).job;
            var row := s.jobs[id].row;
            var n := (if k.payload.retries.Some? then k.payload.retries.value else 0) + 1;
            && RowAfter(s, Requeue(w), id) == Row(Running, None, Some(s.clock + 2_000), row.payload)
            && RowAfter(s, Succeed(w), id) == Row(Succeeded, None, None, row.payload)
            && RowAfter(s, Fail(w), id) == Row(Failed, None, None, row.payload)
            && RowAfter(s, RetryLater(w), id) == (if n > 5 then row else
                 Row(Running, None, Some(s.clock + Min(30_000, 1_000 * Pow2(Max(1, n)))), Payload(Some(n), k.payload.body)))
  {
  }

  /** A requeue that is refused leaves its worker with nothing but failing the job; the attempt stays counted in its copy. */
  lemma WhatARefusedRequeueLeaves(s: System, w: WorkerId)
    requires WorkOf(s, w).Busy?
    ensures var k := WorkOf(s, w);
            var n := (if k.payload.retries.Some? then k.payload.retries.value else 0) + 1;
            var left := Busy(k.job, k.ticket, if n <= 5 then Payload(Some(n), k.payload.body) else k.payload, true);
            && WorkOf(Next(s, RetryLaterErrs(w)), w) == left && Next(s, RetryLaterErrs(w)).jobs == s.jobs
            && (k.job in s.jobs && !(s.jobs[k.job].row.status == Running && s.jobs[k.job].row.owner == Some(w)) ==>
                  WorkOf(Next(s, RetryLater(w)), w) == left && Next(s, RetryLater(w)).jobs == s.jobs)
            && (n > 5 ==> WorkOf(Next(s, RetryLater(w)), w) == left && Next(s, RetryLater(w)).jobs == s.jobs)
  {
  }

  function RowAfter(s: System, a: Action, id: JobId): Row
    requires id in s.jobs
  {
    assert id in Next(s, a).jobs;
    Next(s, a).jobs[id].row
  }

  lemma {:induction false} RunAppends(s: System, xs: seq<Action>, ys: seq<Action>)
    ensures Run(s, xs + ys) == Run(Run(s, xs), ys)
    decreases |xs|
  {
    if xs == [] {
      assert xs + ys == ys;
    } else {
      assert (xs + ys)[0] == xs[0] && (xs + ys)[1..] == xs[1..] + ys;
      RunAppends(Next(s, xs[0]), xs[1..], ys);
    }
  }

  // Once its lease has run out, an idle worker can claim a job and complete it.
  lemma ClaimedAndDone(s: System, id: JobId, w: WorkerId)
    requires WorkOf(s, w).Idle? && id in s.jobs && (s.jobs[id].row.status == Queued || s.jobs[id].row.status == Running)
    requires s.jobs[id].row.leaseUntil.Some? ==> s.jobs[id].row.leaseUntil.value < s.clock
    ensures var e := Next(Next(s, Claim(w, id)), Succeed(w)); id in e.jobs && e.jobs[id].row.status == Succeeded
  {
    WhatCanBeClaimed(s, w, id);
    WhatLettingGoDoes(Next(s, Claim(w, id)), w);
  }

  lemma TimePasses(s: System, t: int)
    ensures Next(s, Tick(t)) == s.(clock := Max(s.clock, t))
  {
  }

  /**
   No job is ever lost: whatever has happened to it and whoever has crashed over it, a job that is not
   finished can still be claimed by an idle worker once enough time has passed, and be completed.
   */
  lemma JobCanAlwaysSucceed(actions: seq<Action>, id: JobId, w: WorkerId) returns (more: seq<Action>)
    requires id in Run(Start, actions).jobs && WorkOf(Run(Start, actions), w).Idle?
    requires !Finished(Run(Start, actions).jobs[id].row.status)
    ensures id in Run(Start, actions + more).jobs && Run(Start, actions + more).jobs[id].row.status == Succeeded
  {
    var s := Run(Start, actions);
    var lease := s.jobs[id].row.leaseUntil;
    var t := if lease.Some? then lease.value + 1 else 0;
    more := [Tick(t), Claim(w, id), Succeed(w)];
    TimePasses(s, t);
    ClaimedAndDone(s.(clock := Max(s.clock, t)), id, w);
    RunThree(s, Tick(t), Claim(w, id), Succeed(w));
    RunAppends(Start, actions, more);
  }

  // ----- the table, in place -----

  // The table after an update that was to write `r` to one row.
  function Applied(rows: map<JobId, Row>, id: JobId, r: Option<Row>): map<JobId, Row> {
    if r.Some? then rows[id := r.value] else rows
  }

  // A claimed job as its worker holds it; the payload is the worker's own copy.
  class ClaimedJob {
    const id: JobId
    const owner: WorkerId
    const autoRetry: bool
    var payload: Payload

    constructor (id: JobId, owner: WorkerId, autoRetry: bool, payload: Payload)
      ensures this.id == id && this.owner == owner && this.autoRetry == autoRetry && this.payload == payload
    {
      this.id, this.owner, this.autoRetry, this.payload := id, owner, autoRetry, payload;
    }
  }

  // What the processor of a job returned, if its type has one.
  datatype Result = NoProcessor | Done | AskedToRequeue | TransientError | OtherError

  class JobTable {
    var rows: map<JobId, Row>
    const created: JobId -> int
    const passive: JobId -> bool

    constructor (created: JobId -> int, passive: JobId -> bool)
      ensures rows == map[] && this.created == created && this.passive == passive
    {
      rows := map[];
      this.created, this.passive := created, passive;
    }

    /**
     claim: the oldest queued job whose time has come, else the oldest running one whose lease has run out.
     Passive types are left out, and so are rows another transaction has locked.
     */
    method Claim(w: WorkerId, now: int, locked: set<JobId>) returns (claimed: Option<JobId>)
      modifies this
      ensures claimed.None? ==> rows == old(rows)
      ensures claimed.None? <==> forall id | id in old(rows) && !passive(id) && id !in locked ::
                var row := old(rows)[id];
                && (row.status == Queued ==> row.leaseUntil.Some? && row.leaseUntil.value > now)
                && (row.status == Running ==> row.leaseUntil.Some? && row.leaseUntil.value >= now)
      ensures claimed.Some? ==>
                var id := claimed.value;
                && id in old(rows) && !passive(id) && id !in locked
                && (var row := old(rows)[id];
                    && (row.status == Queued || row.status == Running)
                    && (row.leaseUntil.Some? ==> row.leaseUntil.value < now || (row.status == Queued && row.leaseUntil.value == now))
                    && rows == old(rows)[id := Row(Running, Some(w), Some(now + 30_000), row.payload)])
      ensures claimed.Some? ==> forall id | id in old(rows) && !passive(id) && id !in locked && id != claimed.value ::
                var row, chosen := old(rows)[id], old(rows)[claimed.value];
                && (row.status == Queued && (row.leaseUntil.None? || row.leaseUntil.value <= now) ==>
                      chosen.status == Queued && created(claimed.value) <= created(id))
                && (row.status == Running && (row.leaseUntil.None? || row.leaseUntil.value < now) ==>
                      chosen.status == Queued || created(claimed.value) <= created(id))
      ensures claimed.Some? ==> rows == Applied(old(rows), claimed.value, ClaimRow(old(rows)[claimed.value], w, now))
    {
      var all := set id | id in rows && !passive(id) && id !in locked && Claimable(rows[id], now);
      if all == {} {
        assert forall id | id in rows && !passive(id) && id !in locked :: Claimable(rows[id], now) ==> id in all;
        return None;
      }
      var best :| best in all;
      var left := all - {best};
      while left != {}
        invariant best in all && left <= all
        invariant forall id | id in all && id !in left :: GoesFirst(best, id)
      {
        var id :| id in left;
        left := left - {id};
        if !GoesFirst(best, id) {
          best := id;
        }
      }
      assert forall id | id in rows && !passive(id) && id !in locked && Claimable(rows[id], now) :: id in all;
      var row := rows[best];
      rows := rows[best := row.(status := Running, owner := Some(w), leaseUntil := Some(now + LEASE))];
      return Some(best);
    }

    // The order of the query: queued jobs first, then by time of creation.
    predicate GoesFirst(a: JobId, b: JobId)
      requires a in rows && b in rows
      reads this
    {
      var x, y := if rows[a].status.Queued? then 0 else 1, if rows[b].status.Queued? then 0 else 1;
      x < y || (x == y && created(a) <= created(b))
    }

    // renewLease; no affected row tells the heartbeat that the lease is lost.
    method Renew(job: ClaimedJob, now: int) returns (kept: bool)
      requires job.id in rows
      modifies this
      ensures kept <==> old(rows)[job.id].status == Running && old(rows)[job.id].owner == Some(job.owner)
      ensures rows == if kept then old(rows)[job.id := old(rows)[job.id].(leaseUntil := Some(now + 30_000))] else old(rows)
      ensures rows == Applied(old(rows), job.id, RenewRow(old(rows)[job.id], job.owner, now))
    {
      var row := rows[job.id];
      kept := row.status.Running? && row.owner == Some(job.owner);
      if kept {
        rows := rows[job.id := row.(leaseUntil := Some(now + LEASE))];
      }
    }

    method UpdateProgress(id: JobId, owner: Option<WorkerId>, now: int, report: Option<Payload>) returns (ok: bool)
      requires id in rows
      modifies this
      ensures ok <==> old(rows)[id].status == Running && (owner.Some? ==> old(rows)[id].owner == owner)
      ensures !ok ==> rows == old(rows)
      ensures ok ==> var row := old(rows)[id];
                rows == old(rows)[id := Row(Running, row.owner, Some(now + 30_000), if report.Some? then report.value else row.payload)]
      ensures rows == Applied(old(rows), id, ProgressRow(old(rows)[id], owner, now, report))
    {
      var row := rows[id];
      ok := row.status.Running? && (owner.None? || row.owner == owner);
      if ok {
        row := row.(leaseUntil := Some(now + LEASE));
        if report.Some? {
          row := row.(payload := report.value);
        }
        rows := rows[id := row];
      }
    }

    method RequeueJob(job: ClaimedJob, now: int)
      requires job.id in rows
      modifies this
      ensures var row := old(rows)[job.id];
              rows == if row.status == Running && row.owner == Some(job.owner)
                      then old(rows)[job.id := Row(Running, None, Some(now + 2_000), row.payload)] else old(rows)
      ensures rows == Applied(old(rows), job.id, RequeueRow(old(rows)[job.id], job.owner, now))
    {
      var row := rows[job.id];
      if row.status.Running? && row.owner == Some(job.owner) {
        rows := rows[job.id := row.(owner := None, leaseUntil := Some(now + REQUEUE_DELAY))];
      }
    }

    // requeueTransient: counts the attempt in the worker's copy first, then tries to write it.
    method RequeueTransient(job: ClaimedJob, now: int) returns (requeued: bool)
      requires job.id in rows
      modifies this, job
      ensures var within := RetryCount(old(job.payload)) + 1 <= MAX_TRANSIENT_RETRIES;
              && job.payload == (if within then NextPayload(old(job.payload)) else old(job.payload))
              && (requeued <==> within && RetryRow(old(rows)[job.id], job.owner, now, job.payload).Some?)
              && rows == if within then Applied(old(rows), job.id, RetryRow(old(rows)[job.id], job.owner, now, job.payload)) else old(rows)
      ensures var row, attempt := old(rows)[job.id], (if old(job.payload).retries.Some? then old(job.payload).retries.value else 0) + 1;
              && job.payload == (if attempt <= 5 then Payload(Some(attempt), old(job.payload).body) else old(job.payload))
              && (requeued <==> attempt <= 5 && row.status == Running && row.owner == Some(job.owner))
              && rows == if requeued
                         then old(rows)[job.id := Row(Running, None, Some(now + Min(30_000, 1_000 * Pow2(Max(1, attempt)))), job.payload)]
                         else old(rows)
    {
      var attempt := RetryCount(job.payload) + 1;
      if attempt > MAX_TRANSIENT_RETRIES {
        return false;
      }
      job.payload := job.payload.(retries := Some(attempt));
      var delay := RetryDelay(attempt);
      var row := rows[job.id];
      requeued := row.status.Running? && row.owner == Some(job.owner);
      if requeued {
        rows := rows[job.id := row.(owner := None, leaseUntil := Some(now + delay), payload := job.payload)];
      }
    }

    method Finish(job: ClaimedJob, status: Status)
      requires job.id in rows && Finished(status)
      modifies this
      ensures var row := old(rows)[job.id];
              rows == if row.status == Running && row.owner == Some(job.owner)
                      then old(rows)[job.id := Row(status, None, None, row.payload)] else old(rows)
      ensures rows == Applied(old(rows), job.id, FinishRow(old(rows)[job.id], job.owner, status))
    {
      var row := rows[job.id];
      if row.status.Running? && row.owner == Some(job.owner) {
        rows := rows[job.id := row.(status := status, owner := None, leaseUntil := None)];
      }
    }

    /**
     `process`, around the run of the processor and its heartbeat. A lost lease or a shutdown leaves the row
     alone; otherwise the row, if it is still held, is finished, requeued, or, for a transient error of a
     job that may be repeated and has retries left, put off. A type without a processor fails at once.
     */
    method Settle(job: ClaimedJob, result: Result, leaseLost: bool, stopping: bool, now: int)
      requires job.id in rows
      modifies this, job
      ensures var row, held := old(rows)[job.id], old(rows)[job.id].status == Running && old(rows)[job.id].owner == Some(job.owner);
              var left := result != NoProcessor && (leaseLost || (stopping && result != Done));
              var attempt := (if old(job.payload).retries.Some? then old(job.payload).retries.value else 0) + 1;
              var again := result == TransientError && job.autoRetry && attempt <= 5;
              && (left || !held ==> rows == old(rows))
              && (!left && held ==> rows == old(rows)[job.id :=
                    if result == Done then Row(Succeeded, None, None, row.payload)
                    else if result == AskedToRequeue then Row(Running, None, Some(now + 2_000), row.payload)
                    else if again then Row(Running, None, Some(now + Min(30_000, 1_000 * Pow2(Max(1, attempt)))), Payload(Some(attempt), old(job.payload).body))
                    else Row(Failed, None, None, row.payload)])
    {
      if result == NoProcessor {
        Finish(job, Failed);
        return;
      }
      if leaseLost { return; }
      if result != Done {
        if stopping { return; }
        if result == AskedToRequeue {
          RequeueJob(job, now);
          return;
        }
        if job.autoRetry && result == TransientError {
          var requeued := RequeueTransient(job, now);
          if requeued { return; }
        }
        Finish(job, Failed);
        return;
      }
      Finish(job, Succeeded);
    }
  }
}
