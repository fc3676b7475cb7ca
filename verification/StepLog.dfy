/**
 The log of the steps a scan goes through. A call that appends to it is taken as atomic. The log is held
 in the order of its positions, so the latest entry is the last one; the output lines of a step are left out.
 */
module StepLog {
  import opened Wrappers
  import opened ScanLifecycle

  datatype Entry = Entry(step: Step, position: nat, startedAt: Time, completedAt: Option<Time>)

  datatype Scan = Scan(row: Row, log: seq<Entry>)

  function Last(log: seq<Entry>): Entry
    requires log != []
  {
    log[|log| - 1]
  }

  // ----- what one call does -----

  function CloseLast(log: seq<Entry>, t: Time): seq<Entry> {
    if log != [] && Last(log).completedAt.None? then log[|log| - 1 := Last(log).(completedAt := Some(t))] else log
  }

  function Extended(log: seq<Entry>, step: Step, t: Time): seq<Entry> {
    CloseLast(log, t)
    + [Entry(step, if log == [] then 0 else Last(log).position + 1, t, if TerminalStep(step) then Some(t) else None)]
  }

  // setScanStepByID: the latest entry is closed even if the row turns out to be final.
  function AfterSetStep(s: Scan, step: Step, t: Time): Scan {
    var row := StepRow(s.row, step, t);
    if s.log != [] && Last(s.log).step == step && (row.None? || Last(s.log).completedAt.None? || TerminalStep(step)) then
      if row.Some? then s.(row := row.value) else s
    else if row.None? then s.(log := CloseLast(s.log, t))
    else Scan(row.value, Extended(s.log, step, t))
  }

  function AfterAppendTerminal(s: Scan, step: Step, t: Time): Scan {
    if !TerminalStep(step) || (s.log != [] && Last(s.log).step == step && Last(s.log).completedAt.Some?) then s
    else s.(log := Extended(s.log, step, t))
  }

  // Completed and cancelled are shown by scans that are so, failed also by one that runs, any other step
  // until the scan has ended.
  predicate CanShow(status: Status, step: Step) {
    || (step == StepCompleted && status == Completed)
    || (step == StepFailed && (status == Running || status == Failed))
    || (step == StepCancelled && status == Cancelled)
    || ((step.Queued? || step.Working?) && (status == Pending || status == Running))
  }

  // The second log begins with the first, except that an open last entry is closed at t.
  ghost predicate LastIsClosed(before: seq<Entry>, after: seq<Entry>, t: Time) {
    && |before| <= |after|
    && (forall i | 0 <= i < |before| && (i < |before| - 1 || before[i].completedAt.Some?) :: after[i] == before[i])
    && (before != [] && before[|before| - 1].completedAt.None? ==>
          var e := before[|before| - 1];
          after[|before| - 1] == Entry(e.step, e.position, e.startedAt, Some(t)))
  }

  class ScanRecord {
    var row: Row
    var log: seq<Entry>

    ghost function Value(): Scan
      reads this
    {
      Scan(row, log)
    }

    constructor (row: Row)
      ensures Value() == Scan(row, [])
    {
      this.row, log := row, [];
    }

    method UpdateCurrentStep(step: Step, t: Time) returns (updated: bool)
      modifies this`row
      ensures updated <==> CanShow(old(row).status, step)
      ensures row == if updated then Row(old(row).status, step, old(row).heartbeat, Some(t), old(row).startedAt, old(row).completedAt)
                     else old(row)
      ensures StepRow(old(row), step, t) == if updated then Some(row) else None
    {
      updated := match step
        case StepCompleted => row.status == Completed
        case StepFailed => row.status == Running || row.status == Failed
        case StepCancelled => row.status == Cancelled
        case _ => row.status == Pending || row.status == Running;
      if updated { row := row.(step := step, progress := Some(t)); }
    }

    /** setScanStepByID; the result is false if another writer has finished the scan. */
    method SetScanStep(step: Step, t: Time) returns (ok: bool)
      modifies this
      ensures Value() == AfterSetStep(old(Value()), step, t)
      ensures ok <==> CanShow(old(row).status, step)
      ensures row == if ok then Row(old(row).status, step, old(row).heartbeat, Some(t), old(row).startedAt, old(row).completedAt)
                     else old(row)
      ensures var n := |old(log)|;
              if n > 0 && old(log)[n - 1].step == step
                 && (!ok || old(log)[n - 1].completedAt == None || step in {StepCompleted, StepFailed, StepCancelled})
              then log == old(log)
              else
                && |log| == n + (if ok then 1 else 0)
                && LastIsClosed(old(log), log, t)
                && (ok ==> log[n] == Entry(step, if n == 0 then 0 else old(log)[n - 1].position + 1, t,
                                           if step in {StepCompleted, StepFailed, StepCancelled} then Some(t) else None))
    {
      if log != [] && log[|log| - 1].step == step {
        ok := UpdateCurrentStep(step, t);
        if !ok { return; }
        if log[|log| - 1].completedAt.None? || TerminalStep(step) { return; }
      }
      if log != [] && log[|log| - 1].completedAt.None? {
        log := log[|log| - 1 := log[|log| - 1].(completedAt := Some(t))];
      }
      ok := UpdateCurrentStep(step, t);
      if !ok { return; }
      var position := 0;
      if log != [] { position := log[|log| - 1].position + 1; }
      log := log + [Entry(step, position, t, if TerminalStep(step) then Some(t) else None)];
    }

    method AppendTerminalStepLog(step: Step, t: Time)
      modifies this`log
      ensures Value() == AfterAppendTerminal(old(Value()), step, t)
      ensures row == old(row)
      ensures var n := |old(log)|;
              if step !in {StepCompleted, StepFailed, StepCancelled}
                 || (n > 0 && old(log)[n - 1].step == step && old(log)[n - 1].completedAt != None)
              then log == old(log)
              else
                && |log| == n + 1
                && LastIsClosed(old(log), log, t)
                && log[n] == Entry(step, if n == 0 then 0 else old(log)[n - 1].position + 1, t, Some(t))
    {
      if !TerminalStep(step) { return; }
      if log != [] && log[|log| - 1].step == step && log[|log| - 1].completedAt.Some? { return; }
      var position := 0;
      if log != [] {
        position := log[|log| - 1].position + 1;
        if log[|log| - 1].completedAt.None? {
          log := log[|log| - 1 := log[|log| - 1].(completedAt := Some(t))];
        }
      }
      log := log + [Entry(step, position, t, Some(t))];
    }
  }

  // ----- runs -----

  // A conditional update of the row alone; None means that no row was affected.
  datatype RowAction = Claimed(t: Time) | Finished(t: Time) | FailedBy(staleBefore: Option<Time>, t: Time)
                     | Recovered(cutoff: Time, t: Time) | CancelledAt(t: Time) | HeardFrom(t: Time) | Progressed(t: Time)

  function UpdatedRow(r: Row, a: RowAction): Option<Row> {
    match a
    case Claimed(t) => ClaimRow(r, t)
    case Finished(t) => CompleteRow(r, t)
    case FailedBy(staleBefore, t) => FailRow(r, staleBefore, t)
    case Recovered(cutoff, t) => RecoverRow(r, cutoff, t)
    case CancelledAt(t) => CancelRow(r, t)
    case HeardFrom(t) => HeartbeatRow(r, t)
    case Progressed(t) => ProgressRow(r, t)
  }

  datatype Action = Set(step: Step, t: Time) | Append(step: Step, t: Time) | Update(update: RowAction)

  function Next(s: Scan, a: Action): Scan {
    match a
    case Set(step, t) => AfterSetStep(s, step, t)
    case Append(step, t) => AfterAppendTerminal(s, step, t)
    case Update(u) => if UpdatedRow(s.row, u).Some? then s.(row := UpdatedRow(s.row, u).value) else s
  }

  function Run(s: Scan, actions: seq<Action>): Scan
    decreases |actions|
  {
    if actions == [] then s else Run(Next(s, actions[0]), actions[1..])
  }

  // ----- the shape of the log -----

  predicate Closed(e: Entry) { e.completedAt.Some? }

  ghost predicate Shape(log: seq<Entry>) {
    && (forall i | 0 <= i < |log| :: log[i].position == i)
    && (forall i | 0 <= i < |log| - 1 :: Closed(log[i]))
    && (forall i | 0 <= i < |log| :: TerminalStep(log[i].step) ==> Closed(log[i]))
  }

  lemma NextKeepsShape(s: Scan, a: Action)
    requires Shape(s.log)
    ensures Shape(Next(s, a).log)
  {
  }

  /**
   In every run the positions are 0, 1, 2, ... without gaps, every entry but the last has been closed, and
   the entry of a terminal step is never open.
   */
  lemma {:induction false} RunKeepsShape(s: Scan, actions: seq<Action>)
    requires Shape(s.log)
    ensures Shape(Run(s, actions).log)
    decreases |actions|
  {
    if actions != [] {
      NextKeepsShape(s, actions[0]);
      RunKeepsShape(Next(s, actions[0]), actions[1..]);
    }
  }

  // The second log continues the first: nothing is removed or reordered, and nothing is reopened.
  ghost predicate Continues(before: seq<Entry>, after: seq<Entry>) {
    && |before| <= |after|
    && forall i | 0 <= i < |before| ::
         && after[i].step == before[i].step && after[i].position == before[i].position
         && after[i].startedAt == before[i].startedAt && (Closed(before[i]) ==> after[i] == before[i])
  }

  /** The log is append-only: an entry keeps its place, and once closed it never changes. */
  lemma {:induction false} LogIsAppendOnly(s: Scan, actions: seq<Action>)
    ensures Continues(s.log, Run(s, actions).log)
    decreases |actions|
  {
    if actions != [] {
      LogIsAppendOnly(Next(s, actions[0]), actions[1..]);
    }
  }

  // ----- after the scan has ended -----

  lemma NextOnceTerminal(s: Scan, a: Action)
    requires Terminal(s.row.status)
    ensures var e := Next(s, a);
            && e.row.status == s.row.status && |s.log| <= |e.log| <= |s.log| + 1
            && (|e.log| > |s.log| ==> TerminalStep(Last(e.log).step) && Closed(Last(e.log)))
  {
  }

  /** Once a scan has ended no active step appears in its log any more. */
  lemma {:induction false} NoActiveStepOnceTerminal(s: Scan, actions: seq<Action>)
    requires Terminal(s.row.status)
    ensures var e := Run(s, actions);
            && e.row.status == s.row.status && |s.log| <= |e.log|
            && forall i | |s.log| <= i < |e.log| :: TerminalStep(e.log[i].step) && Closed(e.log[i])
    decreases |actions|
  {
    if actions != [] {
      var s' := Next(s, actions[0]);
      NextOnceTerminal(s, actions[0]);
      NoActiveStepOnceTerminal(s', actions[1..]);
      LogIsAppendOnly(s', actions[1..]);
    }
  }

  // The log ends with the closed entry of the final step.
  predicate EndsWith(log: seq<Entry>, step: Step) { log != [] && Last(log).step == step && Closed(Last(log)) }

  lemma {:induction false} FinalEntryIsLast(s: Scan, actions: seq<Action>)
    requires Terminal(s.row.status) && EndsWith(s.log, FinalStep(s.row.status))
    requires forall a | a in actions && a.Append? :: TerminalStep(a.step) ==> a.step == FinalStep(s.row.status)
    ensures Run(s, actions).log == s.log
    decreases |actions|
  {
    if actions != [] {
      assert actions[0] in actions;
      FinalEntryIsLast(Next(s, actions[0]), actions[1..]);
    }
  }

  /**
   However often the end of a scan is recorded, by whichever of its callers, it gets at most one entry:
   every caller records the step that belongs to the final status.
   */
  lemma {:induction false} EndIsRecordedOnce(s: Scan, actions: seq<Action>)
    requires Terminal(s.row.status)
    requires forall a | a in actions && a.Append? :: TerminalStep(a.step) ==> a.step == FinalStep(s.row.status)
    ensures |Run(s, actions).log| <= |s.log| + 1
    ensures |Run(s, actions).log| == |s.log| + 1 ==> EndsWith(Run(s, actions).log, FinalStep(s.row.status))
    decreases |actions|
  {
    if actions != [] {
      var s' := Next(s, actions[0]);
      assert actions[0] in actions;
      NextOnceTerminal(s, actions[0]);
      if |s'.log| > |s.log| {
        FinalEntryIsLast(s', actions[1..]);
      } else {
        EndIsRecordedOnce(s', actions[1..]);
      }
    }
  }

  // ----- steps left open -----

  // The call closes an open entry of a scan that has ended.
  predicate Closes(a: Action, open: Step) {
    (a.Append? && TerminalStep(a.step)) || (a.Set? && a.step != open)
  }

  lemma {:induction false} ClosedForGood(s: Scan, actions: seq<Action>)
    requires Terminal(s.row.status) && s.log != [] && Closed(Last(s.log))
    ensures var e := Run(s, actions); e.log != [] && Closed(Last(e.log))
    decreases |actions|
  {
    if actions != [] {
      NextOnceTerminal(s, actions[0]);
      ClosedForGood(Next(s, actions[0]), actions[1..]);
    }
  }

  /**
   A scan that ended with its latest step still open, as after a recovery, which writes only the row,
   shows that step as active for as long as nobody records its end or tries another step.
   */
  lemma {:induction false} OpenStepIsClosedIff(s: Scan, actions: seq<Action>)
    requires Terminal(s.row.status) && s.log != [] && !Closed(Last(s.log)) && !TerminalStep(Last(s.log).step)
    ensures var e := Run(s, actions);
            e.log != [] && (Closed(Last(e.log)) <==> exists a :: a in actions && Closes(a, Last(s.log).step))
    decreases |actions|
  {
    if actions != [] {
      var a, s' := actions[0], Next(s, actions[0]);
      assert actions == [a] + actions[1..];
      NextOnceTerminal(s, a);
      if Closes(a, Last(s.log).step) {
        ClosedForGood(s', actions[1..]);
      } else {
        assert s'.log == s.log;
        OpenStepIsClosedIff(s', actions[1..]);
      }
    }
  }

  /** Such a scan exists: it is claimed, starts a step, falls silent, and is failed by a recovery. */
  lemma RecoveryLeavesStepOpen(t: Time, name: nat)
    ensures var s := Run(Scan(NewRow, []), [Update(Claimed(t)), Set(Working(name), t), Update(Recovered(t + 1, t + 1))]);
            s.row.status == Failed && s.log == [Entry(Working(name), 0, t, None)]
  {
    var a := [Update(Claimed(t)), Set(Working(name), t), Update(Recovered(t + 1, t + 1))];
    var s0 := Scan(NewRow, []);
    var s1 := Next(s0, a[0]);
    var s2 := Next(s1, a[1]);
    var s3 := Next(s2, a[2]);
    assert a[1..][1..] == a[2..] && a[2..][1..] == [];
    assert Run(s3, []) == s3 && Run(s2, a[2..]) == s3;
    assert Run(s1, a[1..]) == Run(s2, a[2..]);
    assert Run(s0, a) == Run(s1, a[1..]);
    assert s1.row.status == Running && s2.log == [Entry(Working(name), 0, t, None)];
  }
}
