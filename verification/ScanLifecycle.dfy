/**
 The life of a scan row: claimed by a worker, kept alive by heartbeats, and finished by exactly one of
 the worker, the stale-scan watchdog, restart recovery, a failed dispatch, or a cancellation.

 Every conditional update of the row is one atomic step. A call that processes a scan, or one round of the
 watchdog for it, is an actor; an actor that has crashed takes no more steps.
 */
module ScanLifecycle {
  import opened Wrappers

  type Time = int

  datatype Status = Pending | Running | Completed | Failed | Cancelled

  datatype Step = Queued | Working(name: nat) | StepCompleted | StepFailed | StepCancelled

  datatype Row = Row(status: Status, step: Step, heartbeat: Option<Time>, progress: Option<Time>,
                     startedAt: Option<Time>, completedAt: Option<Time>)

  predicate Terminal(s: Status) { s.Completed? || s.Failed? || s.Cancelled? }

  predicate TerminalStep(s: Step) { s.StepCompleted? || s.StepFailed? || s.StepCancelled? }

  function FinalStep(s: Status): Step
    requires Terminal(s)
  {
    match s case Completed => StepCompleted case Failed => StepFailed case Cancelled => StepCancelled
  }

  // ----- the conditional updates; None means that no row was affected -----

  // The later of the two signs of life, as the database's GREATEST gives it: absent ones are ignored.
  function LastSign(r: Row): (t: Option<Time>)
    ensures t.None? <==> r.heartbeat.None? && r.progress.None?
    ensures t.Some? ==> (r.heartbeat.Some? ==> r.heartbeat.value <= t.value) && (r.progress.Some? ==> r.progress.value <= t.value)
  {
    if r.heartbeat.None? then r.progress
    else if r.progress.None? then r.heartbeat
    else Some(Max(r.heartbeat.value, r.progress.value))
  }

  predicate Stale(r: Row, cutoff: Time) { LastSign(r).None? || LastSign(r).value < cutoff }

  function Finish(r: Row, status: Status, t: Time): Row
    requires Terminal(status)
  {
    r.(status := status, step := FinalStep(status), completedAt := Some(t), progress := Some(t))
  }

  function ClaimRow(r: Row, t: Time): Option<Row> {
    if r.status.Pending? then Some(r.(status := Running, startedAt := Some(t), progress := Some(t))) else None
  }

  function CompleteRow(r: Row, t: Time): Option<Row> {
    if r.status.Running? then Some(Finish(r, Completed, t)) else None
  }

  /** persistFailedScan, with the cutoff only if the watchdog calls it. */
  function FailRow(r: Row, cutoff: Option<Time>, t: Time): Option<Row> {
    if !Terminal(r.status) && (cutoff.None? || Stale(r, cutoff.value)) then Some(Finish(r, Failed, t)) else None
  }

  // Recovery after a restart only takes scans that run.
  function RecoverRow(r: Row, cutoff: Time, t: Time): Option<Row> {
    if r.status.Running? && Stale(r, cutoff) then Some(Finish(r, Failed, t)) else None
  }

  function CancelRow(r: Row, t: Time): Option<Row> {
    if !Terminal(r.status) then Some(Finish(r, Cancelled, t)) else None
  }

  function HeartbeatRow(r: Row, t: Time): Option<Row> {
    if r.status.Running? then Some(r.(heartbeat := Some(t))) else None
  }

  function ProgressRow(r: Row, t: Time): Option<Row> {
    if !Terminal(r.status) then Some(r.(progress := Some(t))) else None
  }

  predicate MayShow(status: Status, step: Step) {
    match step
    case StepCompleted => status.Completed?
    case StepFailed => status.Running? || status.Failed?
    case StepCancelled => status.Cancelled?
    case _ => !Terminal(status)
  }

  /** updateScanCurrentStep. */
  function StepRow(r: Row, step: Step, t: Time): Option<Row> {
    if MayShow(r.status, step) then Some(r.(step := step, progress := Some(t))) else None
  }

  // ----- one scan and everybody who works on it -----

  type Actor = nat

  datatype Note = CompletionNote | FailureNote

  // Won: it made the final transition and still has to announce it.
  datatype Phase = Idle | Owns | Won(note: Note) | Gone

  // `owner` made the claim, `winner` the final transition, if it is one that is announced; `claims`
  // and `finals` count how often that happened.
  datatype System = System(row: Row, phases: map<Actor, Phase>, notes: seq<Note>,
                           owner: Option<Actor>, winner: Option<Actor>, claims: nat, finals: nat)

  // Unlogged: the final step of a completed scan could not be logged, and the worker leaves it at that.
  datatype Action = Claim(actor: Actor, t: Time)
                  | Complete(actor: Actor, t: Time)
                  | Fail(actor: Actor, t: Time)
                  | Watchdog(actor: Actor, cutoff: Time, t: Time)
                  | Announce(actor: Actor)
                  | Unlogged(actor: Actor)
                  | Crash(actor: Actor)
                  | Recover(cutoff: Time, t: Time)
                  | MarkFailed(queueFull: bool, t: Time)
                  | Cancel(t: Time)
                  | Heartbeat(t: Time)
                  | Progress(t: Time)
                  | SetStep(step: Step, t: Time)

  function PhaseOf(s: System, w: Actor): Phase { if w in s.phases then s.phases[w] else Idle }

  function Touched(s: System, r: Option<Row>): System { if r.Some? then s.(row := r.value) else s }

  // A final transition that nobody announces.
  function Silenced(s: System, r: Option<Row>): System {
    if r.Some? then s.(row := r.value, finals := s.finals + 1) else s
  }

  // A final transition by an actor that announces it, or that goes away if it came too late.
  function Raced(s: System, w: Actor, r: Option<Row>, note: Note): System {
    if r.Some? then s.(row := r.value, phases := s.phases[w := Won(note)], winner := Some(w), finals := s.finals + 1)
    else s.(phases := s.phases[w := Gone])
  }

  function Next(s: System, a: Action): System {
    match a
    case Claim(w, t) =>
      if PhaseOf(s, w) != Idle then s
      else if ClaimRow(s.row, t).Some? then
        s.(row := ClaimRow(s.row, t).value, phases := s.phases[w := Owns], owner := Some(w), claims := s.claims + 1)
      else s.(phases := s.phases[w := Gone])
    case Complete(w, t) => if PhaseOf(s, w) == Owns then Raced(s, w, CompleteRow(s.row, t), CompletionNote) else s
    case Fail(w, t) => if PhaseOf(s, w) == Owns then Raced(s, w, FailRow(s.row, None, t), FailureNote) else s
    case Watchdog(w, cutoff, t) =>
      if PhaseOf(s, w) == Idle then Raced(s, w, FailRow(s.row, Some(cutoff), t), FailureNote) else s
    case Announce(w) =>
      if PhaseOf(s, w).Won? then s.(phases := s.phases[w := Gone], notes := s.notes + [PhaseOf(s, w).note]) else s
    case Unlogged(w) => if PhaseOf(s, w) == Won(CompletionNote) then s.(phases := s.phases[w := Gone]) else s
    case Crash(w) => s.(phases := s.phases[w := Gone])
    case Recover(cutoff, t) => Silenced(s, RecoverRow(s.row, cutoff, t))
    case MarkFailed(queueFull, t) => if queueFull then s else Silenced(s, FailRow(s.row, None, t))
    case Cancel(t) => Silenced(s, CancelRow(s.row, t))
    case Heartbeat(t) => Touched(s, HeartbeatRow(s.row, t))
    case Progress(t) => Touched(s, ProgressRow(s.row, t))
    case SetStep(step, t) => Touched(s, StepRow(s.row, step, t))
  }

  function Run(s: System, actions: seq<Action>): System
    decreases |actions|
  {
    if actions == [] then s else Run(Next(s, actions[0]), actions[1..])
  }

  const NewRow := Row(Pending, Queued, None, None, None, None)

  const Start := System(NewRow, map[], [], None, None, 0, 0)

  // ----- what every reachable state keeps -----

  predicate RowInv(r: Row) {
    && (r.completedAt.Some? <==> Terminal(r.status))
    && (Terminal(r.status) ==> r.step == FinalStep(r.status))
    && (r.status.Pending? ==> r.startedAt.None?)
    && (r.status.Running? || r.status.Completed? ==> r.startedAt.Some?)
  }

  predicate CountInv(s: System) {
    && s.claims == (if s.row.startedAt.Some? then 1 else 0)
    && s.finals == (if Terminal(s.row.status) then 1 else 0)
    && (s.owner.Some? <==> s.claims == 1)
    && |s.notes| <= 1
  }

  function AnnouncedStatus(n: Note): Status { if n == CompletionNote then Completed else Failed }

  predicate NoteInv(s: System) {
    && (s.winner.Some? ==> Terminal(s.row.status))
    && (s.notes != [] ==> s.row.status == AnnouncedStatus(s.notes[0]) && s.winner.Some?
                          && PhaseOf(s, s.winner.value) == Gone)
  }

  predicate ActorInv(s: System, w: Actor) {
    && (PhaseOf(s, w) == Owns ==> s.owner == Some(w))
    && (PhaseOf(s, w).Won? ==> s.winner == Some(w) && s.row.status == AnnouncedStatus(PhaseOf(s, w).note))
  }

  predicate ByActor(a: Action) {
    a.Claim? || a.Complete? || a.Fail? || a.Watchdog? || a.Announce? || a.Unlogged? || a.Crash?
  }

  ghost predicate Inv(s: System) {
    RowInv(s.row) && CountInv(s) && NoteInv(s) && forall w :: ActorInv(s, w)
  }

  lemma NextKeepsActorInv(s: System, a: Action, w: Actor)
    requires Inv(s)
    ensures ActorInv(Next(s, a), w)
  {
    assert ActorInv(s, w);
  }

  lemma NextKeepsCounts(s: System, a: Action)
    requires Inv(s)
    ensures RowInv(Next(s, a).row) && CountInv(Next(s, a)) && NoteInv(Next(s, a))
  {
    if ByActor(a) { assert ActorInv(s, a.actor); }
  }

  lemma NextKeepsInv(s: System, a: Action)
    requires Inv(s)
    ensures Inv(Next(s, a))
  {
    NextKeepsCounts(s, a);
    forall w
      ensures ActorInv(Next(s, a), w)
    {
      NextKeepsActorInv(s, a, w);
    }
  }

  lemma {:induction false} RunKeepsInv(s: System, actions: seq<Action>)
    requires Inv(s)
    ensures Inv(Run(s, actions))
    decreases |actions|
  {
    if actions != [] {
      NextKeepsInv(s, actions[0]);
      RunKeepsInv(Next(s, actions[0]), actions[1..]);
    }
  }

  /**
   Whatever workers, watchdogs, recoveries and users do, in whatever order and with whatever crashes: a
   scan is claimed at most once, the final transition happens at most once, and at most one notification
   goes out, which names the status the scan has.
   */
  lemma OneClaimOneEndOneNotification(actions: seq<Action>)
    ensures var s := Run(Start, actions);
            && s.claims <= 1 && (s.claims == 1 <==> s.row.startedAt.Some?)
            && s.finals == (if Terminal(s.row.status) then 1 else 0)
            && |s.notes| <= 1 && (s.notes == [CompletionNote] ==> s.row.status == Completed)
            && (s.notes == [FailureNote] ==> s.row.status == Failed)
            && (Terminal(s.row.status) ==> s.row.step == FinalStep(s.row.status))
            && (s.row.status == Running || s.row.status == Completed ==> s.row.startedAt.Some?)
            && (s.row.completedAt.Some? <==> s.row.status in {Completed, Failed, Cancelled})
  {
    RunKeepsInv(Start, actions);
  }

  /** A final status, its step and its time of completion never change, and no actor can win any more. */
  lemma {:induction false} FinalStatusStays(s: System, actions: seq<Action>)
    requires Inv(s) && Terminal(s.row.status)
    ensures var e := Run(s, actions);
            && e.row.status == s.row.status && e.row.step == s.row.step && e.row.completedAt == s.row.completedAt
            && e.winner == s.winner && e.finals == s.finals && e.claims == s.claims
    decreases |actions|
  {
    if actions != [] {
      NextKeepsInv(s, actions[0]);
      FinalStatusStays(Next(s, actions[0]), actions[1..]);
    }
  }

  // ----- what ends a scan -----

  // The action makes the final transition to this status.
  ghost predicate Ends(s: System, a: Action, status: Status) {
    !Terminal(s.row.status) && Next(s, a).row.status == status
  }

  ghost predicate Cause(s: System, a: Action, status: Status) {
    match status
    case Completed => a.Complete? && s.owner == Some(a.actor) && s.row.status.Running?
    case Cancelled => a.Cancel?
    case Failed =>
      || (a.Fail? && s.owner == Some(a.actor))
      || (a.MarkFailed? && !a.queueFull)
      || ((a.Watchdog? || a.Recover?) && Stale(s.row, a.cutoff))
    case _ => false
  }

  /**
   Every final status has its cause in the run: completion comes from the worker that claimed the scan;
   failure from that worker, from a failed dispatch that was not a full queue, or from a watchdog or a
   recovery that found no sign of life at or past its cutoff at the very moment of its update.
   */
  lemma {:induction false} EndHasCause(s: System, actions: seq<Action>) returns (k: nat)
    requires Inv(s) && !Terminal(s.row.status) && Terminal(Run(s, actions).row.status)
    ensures k < |actions|
    ensures var before := Run(s, actions[..k]);
            Ends(before, actions[k], Run(s, actions).row.status) && Cause(before, actions[k], Run(s, actions).row.status)
    decreases |actions|
  {
    if actions != [] {
      var a, s' := actions[0], Next(s, actions[0]);
      NextKeepsInv(s, a);
      if Terminal(s'.row.status) {
        FinalStatusStays(s', actions[1..]);
        if a.Complete? || a.Fail? { assert ActorInv(s, a.actor); }
        k := 0;
      } else {
        var j := EndHasCause(s', actions[1..]);
        k := j + 1;
        assert actions[..k][0] == a && actions[..k][1..] == actions[1..][..j];
      }
    }
  }

  // Every watchdog and recovery of the run looks back no further than the scan's last sign of life.
  ghost predicate KeptAlive(s: System, actions: seq<Action>)
    decreases |actions|
  {
    actions != [] ==>
      && (actions[0].Watchdog? || actions[0].Recover? ==> !Stale(s.row, actions[0].cutoff))
      && KeptAlive(Next(s, actions[0]), actions[1..])
  }

  lemma {:induction false} KeptAliveAt(s: System, actions: seq<Action>, k: nat)
    requires KeptAlive(s, actions) && k < |actions| && (actions[k].Watchdog? || actions[k].Recover?)
    ensures !Stale(Run(s, actions[..k]).row, actions[k].cutoff)
    decreases k
  {
    if k > 0 {
      KeptAliveAt(Next(s, actions[0]), actions[1..], k - 1);
      assert actions[..k][0] == actions[0] && actions[..k][1..] == actions[1..][..k - 1];
    }
  }

  /** A scan that shows signs of life is never failed behind its worker's back. */
  lemma LiveScanIsLeftAlone(actions: seq<Action>)
    requires KeptAlive(Start, actions)
    requires forall a | a in actions :: !a.Fail? && !(a.MarkFailed? && !a.queueFull)
    ensures Run(Start, actions).row.status != Failed
  {
    RunKeepsInv(Start, actions);
    if Run(Start, actions).row.status == Failed {
      var k := EndHasCause(Start, actions);
      assert actions[k] in actions;
      KeptAliveAt(Start, actions, k);
      assert false;
    }
  }

  /**
   Whoever makes the final transition announces it, once, unless it crashes first or cannot log the
   completion; nobody else's later steps can get in the way.
   */
  lemma {:induction false} WinnerAnnounces(s: System, actions: seq<Action>, w: Actor)
    requires Inv(s) && PhaseOf(s, w).Won? && s.notes == []
    requires Crash(w) !in actions && (PhaseOf(s, w).note == CompletionNote ==> Unlogged(w) !in actions)
    ensures var e := Run(s, actions);
            if Announce(w) in actions then e.notes == [PhaseOf(s, w).note] else e.notes == [] && PhaseOf(e, w) == PhaseOf(s, w)
    decreases |actions|
  {
    if actions != [] {
      var a, s' := actions[0], Next(s, actions[0]);
      NextKeepsInv(s, a);
      assert actions == [a] + actions[1..];
      assert ActorInv(s, w) && a != Crash(w) && (PhaseOf(s, w).note == CompletionNote ==> a != Unlogged(w));
      if a == Announce(w) {
        assert s'.notes == [PhaseOf(s, w).note];
        NotesStay(s', actions[1..]);
      } else {
        if a.Announce? { assert ActorInv(s, a.actor); }
        WinnerAnnounces(s', actions[1..], w);
      }
    }
  }

  lemma {:induction false} NotesStay(s: System, actions: seq<Action>)
    requires Inv(s) && s.notes != []
    ensures Run(s, actions).notes == s.notes
    decreases |actions|
  {
    if actions != [] {
      NextKeepsInv(s, actions[0]);
      if actions[0].Announce? { assert ActorInv(s, actions[0].actor); }
      NotesStay(Next(s, actions[0]), actions[1..]);
    }
  }

  // ----- every scan can end -----

  lemma {:induction false} RunAppends(s: System, xs: seq<Action>, ys: seq<Action>)
    ensures Run(s, xs + ys) == Run(Run(s, xs), ys)
    decreases |xs|
  {
    if xs == [] {
      assert xs + ys == ys;
    } else {
      assert (xs + ys)[0] == xs[0] && (xs + ys)[1..] == xs[1..] + ys;
      RunAppends(Next(s, xs[0]), xs[1..], ys);
    }
  }

  lemma RunTwo(s: System, a: Action, b: Action)
    ensures Run(s, [a, b]) == Next(Next(s, a), b)
  {
    assert [a, b][1..] == [b] && [b][1..] == [];
    assert Run(Next(s, a), [b]) == Run(Next(Next(s, a), b), []);
  }

  /** A pending scan can be claimed by any worker that is free, completed, and announced. */
  lemma PendingScanCanComplete(actions: seq<Action>, w: Actor, t: Time) returns (more: seq<Action>)
    requires Run(Start, actions).row.status == Pending && PhaseOf(Run(Start, actions), w) == Idle
    ensures var e := Run(Start, actions + more);
            && e.row.status == Completed && e.row.step == StepCompleted && e.row.startedAt == Some(t) && e.row.completedAt == Some(t)
            && e.notes == [CompletionNote]
  {
    var s := Run(Start, actions);
    RunKeepsInv(Start, actions);
    more := [Claim(w, t), Complete(w, t)] + [Announce(w)];
    RunTwo(s, Claim(w, t), Complete(w, t));
    RunAppends(s, [Claim(w, t), Complete(w, t)], [Announce(w)]);
    RunAppends(Start, actions, more);
    assert [Announce(w)][1..] == [];
  }

  /**
   A scan that has not ended is ended by a round of the watchdog that finds no sign of life at or past its
   cutoff, and announced as failed, whatever has become of its worker.
   */
  lemma AbandonedScanEnds(actions: seq<Action>, w: Actor, cutoff: Time, t: Time)
    requires var s := Run(Start, actions);
             && (s.row.status == Pending || s.row.status == Running) && PhaseOf(s, w) == Idle
             && (s.row.heartbeat.Some? ==> s.row.heartbeat.value < cutoff) && (s.row.progress.Some? ==> s.row.progress.value < cutoff)
    ensures var e := Run(Start, actions + [Watchdog(w, cutoff, t), Announce(w)]);
            e.row.status == Failed && e.row.step == StepFailed && e.row.completedAt == Some(t) && e.notes == [FailureNote]
  {
    RunKeepsInv(Start, actions);
    RunTwo(Run(Start, actions), Watchdog(w, cutoff, t), Announce(w));
    RunAppends(Start, actions, [Watchdog(w, cutoff, t), Announce(w)]);
  }

  // ----- how often the watchdog looks -----

  const SECOND := 1_000_000_000
  const MINIMUM_POLL := 15 * SECOND
  const DEFAULT_POLL := 60 * SECOND

  /**
   scanWatchdogPollInterval, in nanoseconds: twice the heartbeat interval, but at least four times within
   the stale timeout, and in no case more often than every fifteen seconds.
   */
  method PollInterval(heartbeat: int, staleTimeout: int) returns (interval: int)
    ensures var wanted := if heartbeat > 0 then 2 * heartbeat else 60_000_000_000;
            interval == Max(15_000_000_000, if staleTimeout >= 4 then Min(wanted, staleTimeout / 4) else wanted)
    ensures interval >= 15_000_000_000 && (staleTimeout >= 60_000_000_000 ==> 4 * interval <= staleTimeout)
  {
    interval := heartbeat * 2;
    if interval <= 0 { interval := DEFAULT_POLL; }
    if staleTimeout > 0 {
      var maxInterval := staleTimeout / 4;
      if maxInterval > 0 && interval > maxInterval { interval := maxInterval; }
    }
    if interval < MINIMUM_POLL { interval := MINIMUM_POLL; }
  }

  // ----- the rows, in place -----

  type ScanId = nat

  // ----- a round over the stale scans, with others at work -----

  ghost predicate IsSilent(rows: map<ScanId, Row>, id: ScanId, cutoff: Time) {
    && id in rows
    && (rows[id].heartbeat.Some? ==> rows[id].heartbeat.value < cutoff)
    && (rows[id].progress.Some? ==> rows[id].progress.value < cutoff)
  }

  // The row can be failed at the moment of its update; a watchdog also fails a scan that is pending again.
  ghost predicate FailsNow(rows: map<ScanId, Row>, id: ScanId, cutoff: Time, pendingToo: bool) {
    IsSilent(rows, id, cutoff) && (rows[id].status == Running || (pendingToo && rows[id].status == Pending))
  }

  /** The running scans without a sign of life at or past the cutoff, each once. */
  ghost predicate AreSilent(rows: map<ScanId, Row>, ids: seq<ScanId>, cutoff: Time) {
    && (forall id :: id in ids <==> IsSilent(rows, id, cutoff) && rows[id].status == Running)
    && (forall i, j | 0 <= i < j < |ids| :: ids[i] != ids[j])
  }

  /** The given scans have been failed, and nothing else has changed. */
  ghost predicate JustFailed(before: map<ScanId, Row>, after: map<ScanId, Row>, ids: seq<ScanId>, now: Time) {
    && after.Keys == before.Keys
    && forall id | id in before :: after[id] == if id in ids then FailedAt(before[id], now) else before[id]
  }

  ghost function FailedAt(r: Row, now: Time): Row { Row(Failed, StepFailed, r.heartbeat, Some(now), r.startedAt, Some(now)) }

  /** What each update of a round met and what it left behind. */
  ghost predicate Round(ids: seq<ScanId>, cutoff: Time, now: Time, met: seq<map<ScanId, Row>>, left: seq<map<ScanId, Row>>, pendingToo: bool) {
    && |met| == |ids| && |left| == |ids|
    && forall k | 0 <= k < |ids| ::
         left[k] == if FailsNow(met[k], ids[k], cutoff, pendingToo) then met[k][ids[k] := FailedAt(met[k][ids[k]], now)] else met[k]
  }

  // The scans whose update took effect, in order.
  ghost function FailedIn(ids: seq<ScanId>, cutoff: Time, met: seq<map<ScanId, Row>>, pendingToo: bool): seq<ScanId>
    requires |met| == |ids|
  {
    if ids == [] then []
    else
      var n := |ids| - 1;
      FailedIn(ids[..n], cutoff, met[..n], pendingToo) + if FailsNow(met[n], ids[n], cutoff, pendingToo) then [ids[n]] else []
  }

  ghost function LastState(first: map<ScanId, Row>, left: seq<map<ScanId, Row>>): map<ScanId, Row> {
    if left == [] then first else left[|left| - 1]
  }

  // Every update met what the one before it had left behind.
  ghost predicate Chained(first: map<ScanId, Row>, met: seq<map<ScanId, Row>>, left: seq<map<ScanId, Row>>)
    requires |met| == |left|
  {
    forall k | 0 <= k < |met| :: met[k] == if k == 0 then first else left[k - 1]
  }

  ghost predicate Undisturbed(first: map<ScanId, Row>, met: seq<map<ScanId, Row>>, left: seq<map<ScanId, Row>>, last: map<ScanId, Row>) {
    |met| == |left| && Chained(first, met, left) && last == LastState(first, left)
  }

  // Undisturbed, k updates have failed the first k scans.
  ghost predicate RoundSoFar(first: map<ScanId, Row>, state: map<ScanId, Row>, ids: seq<ScanId>, k: nat, cutoff: Time, now: Time,
                             met: seq<map<ScanId, Row>>, pendingToo: bool)
    requires k <= |ids| && |met| == k
  {
    FailedIn(ids[..k], cutoff, met, pendingToo) == ids[..k] && JustFailed(first, state, ids[..k], now)
  }

  lemma RoundGrows(ids: seq<ScanId>, k: nat, cutoff: Time, now: Time, met: seq<map<ScanId, Row>>, left: seq<map<ScanId, Row>>, pendingToo: bool)
    requires k < |ids| && |met| == k + 1 && |left| == k + 1
    requires Round(ids[..k], cutoff, now, met[..k], left[..k], pendingToo)
    requires left[k] == if FailsNow(met[k], ids[k], cutoff, pendingToo) then met[k][ids[k] := FailedAt(met[k][ids[k]], now)] else met[k]
    ensures Round(ids[..k + 1], cutoff, now, met, left, pendingToo)
  {
    forall i | 0 <= i < k
      ensures ids[..k + 1][i] == ids[..k][i] && met[i] == met[..k][i] && left[i] == left[..k][i]
    {
    }
  }

  lemma FailedGrows(ids: seq<ScanId>, k: nat, cutoff: Time, met: seq<map<ScanId, Row>>, pendingToo: bool)
    requires k < |ids| && |met| == k + 1
    ensures FailedIn(ids[..k + 1], cutoff, met, pendingToo) ==
            FailedIn(ids[..k], cutoff, met[..k], pendingToo) + if FailsNow(met[k], ids[k], cutoff, pendingToo) then [ids[k]] else []
  {
    assert ids[..k + 1][..k] == ids[..k];
  }

  lemma ChainGrows(first: map<ScanId, Row>, ids: seq<ScanId>, k: nat, cutoff: Time, now: Time,
                   met: seq<map<ScanId, Row>>, left: seq<map<ScanId, Row>>, pendingToo: bool)
    requires k < |ids| && |met| == k + 1 && |left| == k + 1
    requires forall id | id in ids :: FailsNow(first, id, cutoff, false)
    requires ids[k] !in ids[..k] && Chained(first, met, left)
    requires left[k] == if FailsNow(met[k], ids[k], cutoff, pendingToo) then met[k][ids[k] := FailedAt(met[k][ids[k]], now)] else met[k]
    requires RoundSoFar(first, met[k], ids, k, cutoff, now, met[..k], pendingToo)
    ensures RoundSoFar(first, left[k], ids, k + 1, cutoff, now, met, pendingToo)
  {
    var id := ids[k];
    assert id in ids && FailsNow(first, id, cutoff, false) && met[k][id] == first[id];
    FailedGrows(ids, k, cutoff, met, pendingToo);
    TakeOneMore(ids, k);
  }

  lemma RoundOneMore(first: map<ScanId, Row>, ids: seq<ScanId>, k: nat, cutoff: Time, now: Time,
                     met: seq<map<ScanId, Row>>, left: seq<map<ScanId, Row>>, pendingToo: bool)
    requires k < |ids| && |met| == k + 1 && |left| == k + 1
    requires forall id | id in ids :: FailsNow(first, id, cutoff, false)
    requires forall i, j | 0 <= i < j < |ids| :: ids[i] != ids[j]
    requires Round(ids[..k], cutoff, now, met[..k], left[..k], pendingToo)
    requires left[k] == if FailsNow(met[k], ids[k], cutoff, pendingToo) then met[k][ids[k] := FailedAt(met[k][ids[k]], now)] else met[k]
    requires Chained(first, met[..k], left[..k]) ==> RoundSoFar(first, LastState(first, left[..k]), ids, k, cutoff, now, met[..k], pendingToo)
    ensures Round(ids[..k + 1], cutoff, now, met, left, pendingToo)
    ensures FailedIn(ids[..k + 1], cutoff, met, pendingToo) ==
            FailedIn(ids[..k], cutoff, met[..k], pendingToo) + if FailsNow(met[k], ids[k], cutoff, pendingToo) then [ids[k]] else []
    ensures Chained(first, met, left) ==> RoundSoFar(first, LastState(first, left), ids, k + 1, cutoff, now, met, pendingToo)
  {
    RoundGrows(ids, k, cutoff, now, met, left, pendingToo);
    FailedGrows(ids, k, cutoff, met, pendingToo);
    if Chained(first, met, left) {
      ChainShrinks(first, met, left, k);
      ChainGrows(first, ids, k, cutoff, now, met, left, pendingToo);
    }
  }

  lemma ChainShrinks(first: map<ScanId, Row>, met: seq<map<ScanId, Row>>, left: seq<map<ScanId, Row>>, k: nat)
    requires |met| == |left| == k + 1 && Chained(first, met, left)
    ensures Chained(first, met[..k], left[..k]) && met[k] == LastState(first, left[..k])
  {
  }

  // The failure notices for some scans, in order.
  ghost function Notices(failed: seq<ScanId>): seq<(ScanId, Note)> {
    seq(|failed|, i requires 0 <= i < |failed| => (failed[i], FailureNote))
  }

  lemma NoticesGrow(ids: seq<ScanId>, k: nat, cutoff: Time, met: seq<map<ScanId, Row>>)
    requires k < |ids| && |met| == k + 1
    ensures Notices(FailedIn(ids[..k + 1], cutoff, met, true)) ==
            Notices(FailedIn(ids[..k], cutoff, met[..k], true)) + if FailsNow(met[k], ids[k], cutoff, true) then [(ids[k], FailureNote)] else []
  {
    FailedGrows(ids, k, cutoff, met, true);
    var before := FailedIn(ids[..k], cutoff, met[..k], true);
    assert before + [] == before;
  }

  // How far a watchdog round has come after k scans.
  ghost predicate Watched(first: map<ScanId, Row>, before: seq<(ScanId, Note)>, after: seq<(ScanId, Note)>, ids: seq<ScanId>, k: nat,
                          cutoff: Time, now: Time, met: seq<map<ScanId, Row>>, left: seq<map<ScanId, Row>>)
  {
    && k <= |ids| && Round(ids[..k], cutoff, now, met, left, true)
    && after == before + Notices(FailedIn(ids[..k], cutoff, met, true))
    && (Chained(first, met, left) ==> RoundSoFar(first, LastState(first, left), ids, k, cutoff, now, met, true))
  }

  lemma WatchedOneMore(first: map<ScanId, Row>, before: seq<(ScanId, Note)>, after: seq<(ScanId, Note)>, ids: seq<ScanId>, k: nat,
                       cutoff: Time, now: Time, met: seq<map<ScanId, Row>>, left: seq<map<ScanId, Row>>)
    requires k < |ids| && |met| == |left| == k + 1
    requires forall id | id in ids :: FailsNow(first, id, cutoff, false)
    requires forall i, j | 0 <= i < j < |ids| :: ids[i] != ids[j]
    requires var note := if FailsNow(met[k], ids[k], cutoff, true) then [(ids[k], FailureNote)] else [];
             && |note| <= |after|
             && after[|after| - |note|..] == note
             && Watched(first, before, after[..|after| - |note|], ids, k, cutoff, now, met[..k], left[..k])
    requires left[k] == if FailsNow(met[k], ids[k], cutoff, true) then met[k][ids[k] := FailedAt(met[k][ids[k]], now)] else met[k]
    ensures Watched(first, before, after, ids, k + 1, cutoff, now, met, left)
  {
    RoundOneMore(first, ids, k, cutoff, now, met, left, true);
    NoticesGrow(ids, k, cutoff, met);
    var note := if FailsNow(met[k], ids[k], cutoff, true) then [(ids[k], FailureNote)] else [];
    assert after == after[..|after| - |note|] + note;
  }

  lemma WatchDone(first: map<ScanId, Row>, before: seq<(ScanId, Note)>, after: seq<(ScanId, Note)>, ids: seq<ScanId>,
                  cutoff: Time, now: Time, met: seq<map<ScanId, Row>>, left: seq<map<ScanId, Row>>, last: map<ScanId, Row>)
    requires Watched(first, before, after, ids, |ids|, cutoff, now, met, left)
    ensures Round(ids, cutoff, now, met, left, true) && after == before + Notices(FailedIn(ids, cutoff, met, true))
    ensures Undisturbed(first, met, left, last) ==> FailedIn(ids, cutoff, met, true) == ids && JustFailed(first, last, ids, now)
  {
    assert ids[..|ids|] == ids;
  }

  // How far a recovery has come after k scans.
  ghost predicate Recovering(first: map<ScanId, Row>, recovered: nat, ids: seq<ScanId>, k: nat, cutoff: Time, now: Time,
                             met: seq<map<ScanId, Row>>, left: seq<map<ScanId, Row>>)
  {
    && k <= |ids| && Round(ids[..k], cutoff, now, met, left, false)
    && recovered == |FailedIn(ids[..k], cutoff, met, false)|
    && (Chained(first, met, left) ==> RoundSoFar(first, LastState(first, left), ids, k, cutoff, now, met, false))
  }

  lemma RecoveryDone(first: map<ScanId, Row>, recovered: nat, ids: seq<ScanId>, cutoff: Time, now: Time,
                     met: seq<map<ScanId, Row>>, left: seq<map<ScanId, Row>>, last: map<ScanId, Row>)
    requires Recovering(first, recovered, ids, |ids|, cutoff, now, met, left)
    ensures Round(ids, cutoff, now, met, left, false) && recovered == |FailedIn(ids, cutoff, met, false)|
    ensures Undisturbed(first, met, left, last) ==> recovered == |ids| && JustFailed(first, last, ids, now)
  {
    assert ids[..|ids|] == ids;
  }

  lemma SilentFailNow(rows: map<ScanId, Row>, ids: seq<ScanId>, cutoff: Time)
    requires AreSilent(rows, ids, cutoff)
    ensures forall id | id in ids :: FailsNow(rows, id, cutoff, false)
  {
  }

  class ScanTable {
    var rows: map<ScanId, Row>
    var notes: seq<(ScanId, Note)>

    constructor ()
      ensures rows == map[] && notes == []
    {
      rows, notes := map[], [];
    }

    /** claimScanForWorker. */
    method ClaimScan(id: ScanId, t: Time) returns (claimed: bool)
      modifies this`rows
      ensures claimed <==> id in old(rows) && old(rows)[id].status == Pending
      ensures rows == if !claimed then old(rows) else
                var r := old(rows)[id]; old(rows)[id := Row(Running, r.step, r.heartbeat, Some(t), Some(t), r.completedAt)]
      ensures claimed <==> id in old(rows) && ClaimRow(old(rows)[id], t).Some?
      ensures claimed ==> rows[id] == ClaimRow(old(rows)[id], t).value
    {
      if id !in rows || rows[id].status != Pending { return false; }
      rows := rows[id := rows[id].(status := Running, startedAt := Some(t), progress := Some(t))];
      return true;
    }

    /**
     The end of processScan for a scan without errors; whether the final step can be logged decides
     whether the completion is announced.
     */
    method CompleteScan(id: ScanId, logged: bool, t: Time) returns (completed: bool)
      modifies this
      ensures completed <==> id in old(rows) && old(rows)[id].status == Running
      ensures rows == if !completed then old(rows) else
                var r := old(rows)[id]; old(rows)[id := Row(Completed, StepCompleted, r.heartbeat, Some(t), r.startedAt, Some(t))]
      ensures completed <==> id in old(rows) && CompleteRow(old(rows)[id], t).Some?
      ensures completed ==> rows[id] == CompleteRow(old(rows)[id], t).value
      ensures notes == if completed && logged then old(notes) + [(id, CompletionNote)] else old(notes)
    {
      if id !in rows || rows[id].status != Running { return false; }
      rows := rows[id := rows[id].(status := Completed, step := StepCompleted, completedAt := Some(t), progress := Some(t))];
      if logged { notes := notes + [(id, CompletionNote)]; }
      return true;
    }

    method PersistFailedScan(id: ScanId, staleBefore: Option<Time>, t: Time) returns (failed: bool)
      modifies this`rows
      ensures failed <==>
                && id in old(rows) && (old(rows)[id].status == Pending || old(rows)[id].status == Running)
                && (staleBefore.Some? ==>
                      && (old(rows)[id].heartbeat.Some? ==> old(rows)[id].heartbeat.value < staleBefore.value)
                      && (old(rows)[id].progress.Some? ==> old(rows)[id].progress.value < staleBefore.value))
      ensures rows == if !failed then old(rows) else
                var r := old(rows)[id]; old(rows)[id := Row(Failed, StepFailed, r.heartbeat, Some(t), r.startedAt, Some(t))]
      ensures failed <==> id in old(rows) && FailRow(old(rows)[id], staleBefore, t).Some?
      ensures failed ==> rows[id] == FailRow(old(rows)[id], staleBefore, t).value
    {
      if id !in rows { return false; }
      var row := rows[id];
      if row.status != Pending && row.status != Running { return false; }
      if staleBefore.Some? && !Stale(row, staleBefore.value) { return false; }
      rows := rows[id := row.(status := Failed, step := StepFailed, completedAt := Some(t), progress := Some(t))];
      return true;
    }

    /** setFailed: only the writer whose transition took effect tells anybody. */
    method SetFailed(id: ScanId, t: Time)
      modifies this
      ensures var won := id in old(rows) && (old(rows)[id].status == Pending || old(rows)[id].status == Running);
              && notes == (if won then old(notes) + [(id, FailureNote)] else old(notes))
              && rows == if !won then old(rows) else
                   var r := old(rows)[id]; old(rows)[id := Row(Failed, StepFailed, r.heartbeat, Some(t), r.startedAt, Some(t))]
    {
      var won := PersistFailedScan(id, None, t);
      if won { notes := notes + [(id, FailureNote)]; }
    }

    /** MarkScanFailed: a message about a full queue is no failure, and nobody is notified. */
    method MarkScanFailed(id: ScanId, queueFull: bool, t: Time) returns (failed: bool)
      modifies this`rows
      ensures failed <==> !queueFull && id in old(rows) && (old(rows)[id].status == Pending || old(rows)[id].status == Running)
      ensures rows == if !failed then old(rows) else
                var r := old(rows)[id]; old(rows)[id := Row(Failed, StepFailed, r.heartbeat, Some(t), r.startedAt, Some(t))]
    {
      if queueFull { return false; }
      failed := PersistFailedScan(id, None, t);
    }

    method CancelScan(id: ScanId, t: Time) returns (cancelled: bool)
      modifies this`rows
      ensures cancelled <==> id in old(rows) && (old(rows)[id].status == Pending || old(rows)[id].status == Running)
      ensures rows == if !cancelled then old(rows) else
                var r := old(rows)[id]; old(rows)[id := Row(Cancelled, StepCancelled, r.heartbeat, Some(t), r.startedAt, Some(t))]
      ensures cancelled <==> id in old(rows) && CancelRow(old(rows)[id], t).Some?
      ensures cancelled ==> rows[id] == CancelRow(old(rows)[id], t).value
    {
      if id !in rows || (rows[id].status != Pending && rows[id].status != Running) { return false; }
      rows := rows[id := rows[id].(status := Cancelled, step := StepCancelled, completedAt := Some(t), progress := Some(t))];
      return true;
    }

    // A heartbeat needs a running scan; progress can also be made by a pending one.
    method TouchHeartbeat(id: ScanId, t: Time)
      requires id in rows
      modifies this`rows
      ensures var r := HeartbeatRow(old(rows)[id], t); rows == if r.Some? then old(rows)[id := r.value] else old(rows)
      ensures var r := old(rows)[id];
              rows == if r.status == Running
                      then old(rows)[id := Row(Running, r.step, Some(t), r.progress, r.startedAt, r.completedAt)] else old(rows)
    {
      if rows[id].status == Running { rows := rows[id := rows[id].(heartbeat := Some(t))]; }
    }

    method TouchProgress(id: ScanId, t: Time)
      requires id in rows
      modifies this`rows
      ensures var r := ProgressRow(old(rows)[id], t); rows == if r.Some? then old(rows)[id := r.value] else old(rows)
      ensures var r := old(rows)[id];
              rows == if r.status == Pending || r.status == Running
                      then old(rows)[id := Row(r.status, r.step, r.heartbeat, Some(t), r.startedAt, r.completedAt)] else old(rows)
    {
      if rows[id].status == Pending || rows[id].status == Running { rows := rows[id := rows[id].(progress := Some(t))]; }
    }

    // The identifiers the watchdog's query finds, in some order.
    method FindStale(cutoff: Time) returns (ids: seq<ScanId>)
      ensures AreSilent(rows, ids, cutoff)
    {
      ids := [];
      var left := rows.Keys;
      while left != {}
        invariant left <= rows.Keys
        invariant forall id :: id in ids <==> id in rows && id !in left && rows[id].status.Running? && Stale(rows[id], cutoff)
        invariant forall i, j | 0 <= i < j < |ids| :: ids[i] != ids[j]
        decreases left
      {
        var id :| id in left;
        left := left - {id};
        if rows[id].status.Running? && Stale(rows[id], cutoff) { ids := ids + [id]; }
      }
    }

    // Whatever the others do between two statements of a round.
    method Meanwhile()
      modifies this`rows
    {
      rows := *;
    }

    /**
     failStaleScans. The stale running scans are looked up, and each is failed and announced if it is still open
     and stale at the moment of its own update, whatever the others have done since. Undisturbed, exactly the
     running scans without a sign of life at or past the cutoff are failed and announced, once each.
     */
    method FailStaleScans(now: Time, timeout: Time)
      returns (ids: seq<ScanId>, ghost met: seq<map<ScanId, Row>>, ghost left: seq<map<ScanId, Row>>)
      modifies this
      ensures timeout <= 0 ==> ids == [] && rows == old(rows) && notes == old(notes)
      ensures timeout > 0 ==> AreSilent(old(rows), ids, now - timeout)
      ensures Round(ids, now - timeout, now, met, left, true)
      ensures notes == old(notes) + Notices(FailedIn(ids, now - timeout, met, true))
      ensures Undisturbed(old(rows), met, left, rows) ==>
                FailedIn(ids, now - timeout, met, true) == ids && JustFailed(old(rows), rows, ids, now)
    {
      ids, met, left := [], [], [];
      if timeout <= 0 { return; }
      var cutoff := now - timeout;
      ids := FindStale(cutoff);
      Meanwhile();
      met, left := WatchEach(ids, cutoff, now, old(rows));
      WatchDone(old(rows), old(notes), notes, ids, cutoff, now, met, left, rows);
    }

    // The loop over the scans found.
    method WatchEach(ids: seq<ScanId>, cutoff: Time, now: Time, ghost first: map<ScanId, Row>)
      returns (ghost met: seq<map<ScanId, Row>>, ghost left: seq<map<ScanId, Row>>)
      requires AreSilent(first, ids, cutoff)
      modifies this
      ensures Watched(first, old(notes), notes, ids, |ids|, cutoff, now, met, left)
    {
      met, left := [], [];
      assert notes + Notices([]) == notes;
      for k := 0 to |ids|
        invariant Watched(first, old(notes), notes, ids, k, cutoff, now, met, left)
      {
        met, left := WatchNext(ids, k, cutoff, now, first, old(notes), met, left);
        Meanwhile();
      }
    }

    // One turn of the loop.
    method WatchNext(ids: seq<ScanId>, k: nat, cutoff: Time, now: Time, ghost first: map<ScanId, Row>, ghost before: seq<(ScanId, Note)>,
                     ghost met: seq<map<ScanId, Row>>, ghost left: seq<map<ScanId, Row>>)
      returns (ghost met': seq<map<ScanId, Row>>, ghost left': seq<map<ScanId, Row>>)
      requires k < |ids| && Watched(first, before, notes, ids, k, cutoff, now, met, left)
      requires AreSilent(first, ids, cutoff)
      modifies this
      ensures met' == met + [old(rows)] && left' == left + [rows]
      ensures rows == if FailsNow(old(rows), ids[k], cutoff, true) then old(rows)[ids[k] := FailedAt(old(rows)[ids[k]], now)] else old(rows)
      ensures Watched(first, before, notes, ids, k + 1, cutoff, now, met', left')
    {
      met' := met + [rows];
      FailIfStale(ids[k], cutoff, now);
      left' := left + [rows];
      assert met'[..k] == met && left'[..k] == left;
      assert notes[..|old(notes)|] == old(notes);
      SilentFailNow(first, ids, cutoff);
      WatchedOneMore(first, before, notes, ids, k, cutoff, now, met', left');
    }

    // The conditional update of a watchdog, and the notice if it took effect.
    method FailIfStale(id: ScanId, cutoff: Time, now: Time)
      modifies this
      ensures rows == if FailsNow(old(rows), id, cutoff, true) then old(rows)[id := FailedAt(old(rows)[id], now)] else old(rows)
      ensures notes == old(notes) + if FailsNow(old(rows), id, cutoff, true) then [(id, FailureNote)] else []
    {
      var failed := PersistFailedScan(id, Some(cutoff), now);
      if failed { notes := notes + [(id, FailureNote)]; }
    }

    /**
     recoverInterruptedScans and the end of recoverScansAfterRestart: the same scans, each failed if it still runs
     and is stale at the moment of its update, without a word to anybody.
     */
    method RecoverScans(now: Time, timeout: Time)
      returns (recovered: nat, ghost ids: seq<ScanId>, ghost met: seq<map<ScanId, Row>>, ghost left: seq<map<ScanId, Row>>)
      modifies this`rows
      ensures timeout <= 0 ==> ids == [] && rows == old(rows)
      ensures timeout > 0 ==> AreSilent(old(rows), ids, now - timeout)
      ensures Round(ids, now - timeout, now, met, left, false) && recovered == |FailedIn(ids, now - timeout, met, false)|
      ensures Undisturbed(old(rows), met, left, rows) ==> recovered == |ids| && JustFailed(old(rows), rows, ids, now)
    {
      recovered, ids, met, left := 0, [], [], [];
      if timeout <= 0 { return; }
      var cutoff := now - timeout;
      var scans := FindStale(cutoff);
      ids := scans;
      Meanwhile();
      recovered, met, left := RecoverEach(scans, cutoff, now, old(rows));
      RecoveryDone(old(rows), recovered, ids, cutoff, now, met, left, rows);
    }

    // The loop over the scans found.
    method RecoverEach(ids: seq<ScanId>, cutoff: Time, now: Time, ghost first: map<ScanId, Row>)
      returns (recovered: nat, ghost met: seq<map<ScanId, Row>>, ghost left: seq<map<ScanId, Row>>)
      requires AreSilent(first, ids, cutoff)
      modifies this`rows
      ensures Recovering(first, recovered, ids, |ids|, cutoff, now, met, left)
    {
      recovered, met, left := 0, [], [];
      for k := 0 to |ids|
        invariant Recovering(first, recovered, ids, k, cutoff, now, met, left)
      {
        recovered, met, left := RecoverNext(ids, k, recovered, cutoff, now, first, met, left);
        Meanwhile();
      }
    }

    method RecoverNext(ids: seq<ScanId>, k: nat, recovered: nat, cutoff: Time, now: Time, ghost first: map<ScanId, Row>,
                       ghost met: seq<map<ScanId, Row>>, ghost left: seq<map<ScanId, Row>>)
      returns (recovered': nat, ghost met': seq<map<ScanId, Row>>, ghost left': seq<map<ScanId, Row>>)
      requires k < |ids| && Recovering(first, recovered, ids, k, cutoff, now, met, left) && AreSilent(first, ids, cutoff)
      modifies this`rows
      ensures met' == met + [old(rows)] && left' == left + [rows]
      ensures Recovering(first, recovered', ids, k + 1, cutoff, now, met', left')
    {
      met' := met + [rows];
      var updated := Recover(ids[k], cutoff, now);
      left' := left + [rows];
      assert met'[..k] == met && left'[..k] == left;
      SilentFailNow(first, ids, cutoff);
      RoundOneMore(first, ids, k, cutoff, now, met', left', false);
      recovered' := recovered + if updated then 1 else 0;
    }

    // The conditional update of a recovery.
    method Recover(id: ScanId, cutoff: Time, now: Time) returns (updated: bool)
      modifies this`rows
      ensures updated <==> IsSilent(old(rows), id, cutoff) && old(rows)[id].status == Running
      ensures rows == if updated then old(rows)[id := FailedAt(old(rows)[id], now)] else old(rows)
      ensures updated <==> id in old(rows) && RecoverRow(old(rows)[id], cutoff, now).Some?
      ensures updated ==> rows[id] == RecoverRow(old(rows)[id], cutoff, now).value
    {
      if id !in rows || rows[id].status != Running || !Stale(rows[id], cutoff) { return false; }
      rows := rows[id := rows[id].(status := Failed, step := StepFailed, completedAt := Some(now), progress := Some(now))];
      return true;
    }
  }

  // ----- the queue in memory -----

  datatype QueueResult = Accepted | AlreadyQueued | QueueFull | Finalized

  /** jobQueue, a bounded channel, and queuedScanIDs, the identifiers it holds. */
  class ScanQueue {
    const capacity: nat
    var queue: seq<ScanId>
    var queued: set<ScanId>

    ghost predicate Valid()
      reads this
    {
      && |queue| <= capacity
      && (forall i, j | 0 <= i < j < |queue| :: queue[i] != queue[j])
      && (forall id :: id in queued <==> id in queue)
    }

    constructor (capacity: nat)
      ensures Valid() && this.capacity == capacity && queue == []
    {
      this.capacity, queue, queued := capacity, [], {};
    }

    /**
     enqueueScanForProvider: a scan is in the queue at most once, a full queue is no failure of the scan,
     and whenever the scan was not put in, its reservation is given back.
     */
    method Enqueue(table: ScanTable, id: ScanId, t: Time) returns (r: QueueResult)
      requires Valid()
      modifies this, table`rows
      ensures Valid()
      ensures r == if id in old(queue) then AlreadyQueued
                   else if id !in old(table.rows) || old(table.rows)[id].status !in {Pending, Running} then Finalized
                   else if |old(queue)| == capacity then QueueFull
                   else Accepted
      ensures queue == if r == Accepted then old(queue) + [id] else old(queue)
      ensures table.rows == if r != Accepted && r != QueueFull then old(table.rows) else
                var row := old(table.rows)[id];
                old(table.rows)[id := Row(row.status, Queued, row.heartbeat, Some(t), row.startedAt, row.completedAt)]
      ensures r == Accepted || r == QueueFull ==> StepRow(old(table.rows)[id], Queued, t) == Some(table.rows[id])
    {
      if id in queued { return AlreadyQueued; }
      queued := queued + {id};
      if id !in table.rows || Terminal(table.rows[id].status) {
        queued := queued - {id};
        return Finalized;
      }
      table.rows := table.rows[id := table.rows[id].(step := Queued, progress := Some(t))];
      if |queue| < capacity {
        queue := queue + [id];
        return Accepted;
      }
      queued := queued - {id};
      return QueueFull;
    }

    // A worker takes the next job.
    method Dequeue() returns (id: Option<ScanId>)
      requires Valid()
      modifies this
      ensures Valid()
      ensures if old(queue) == [] then id == None && queue == [] else id == Some(old(queue)[0]) && queue == old(queue)[1..]
    {
      if queue == [] { return None; }
      id := Some(queue[0]);
      queued := queued - {queue[0]};
      queue := queue[1..];
    }
  }
}
