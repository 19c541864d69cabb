/** The watchdog thread races with the end of calls. A step is what runs under one lock or between
    two reads of shared state; the clock never goes back. */
module SlowCallWatch {
  import opened Wrappers
  import opened SlowCallMerge

  /** Where a call is: popped from the calls in flight, its clock read, its flag claimed, its record written. */
  datatype Stage = Running | Popped | Timed(elapsed: int) | Claimed(elapsed: int) | Ended(elapsed: int)

  datatype Call = Call(started: int, flagged: bool, stage: Stage)

  /** The watchdog: idle, its clock read, going through its snapshot, having seen a slow call, having claimed it. */
  datatype Watch =
    | Resting
    | Clocked(now: int)
    | Visiting(now: int, todo: seq<CallId>)
    | Suspecting(now: int, id: CallId, todo: seq<CallId>)
    | Reporting(now: int, id: CallId, todo: seq<CallId>)

  /** slow: the threshold. milliseconds: how elapsed time is rounded for a record. */
  datatype Settings = Settings(slow: int, milliseconds: int -> int)

  datatype Log = Log(clock: int, calls: map<CallId, Call>, watch: Watch, records: seq<Record>)

  datatype Event =
    | Begin(id: CallId, now: int)
    | ReadClock(now: int)
    | Snapshot(ids: seq<CallId>)
    | Look
    | Claim
    | Report(blocked: bool)
    | Rest
    | Pop(id: CallId)
    | Time(id: CallId, now: int)
    | ClaimEnd(id: CallId)
    | WriteEnd(id: CallId, outcome: string)
    | Write(record: Record)

  const EMPTY := Log(0, map[], Resting, [])

  function SlowRecord(settings: Settings, id: CallId, elapsed: int, running: bool, content: string): Record {
    Record(true, Some(id), settings.milliseconds(elapsed), running, content)
  }

  predicate Enabled(settings: Settings, log: Log, event: Event) {
    match event
    case Begin(id, now) => id !in log.calls && now >= log.clock
    case ReadClock(now) => log.watch.Resting? && now >= log.clock
    case Snapshot(ids) => log.watch.Clocked?
      && forall id :: id in ids ==> id in log.calls && log.calls[id].stage.Running?
    case Look => log.watch.Visiting? && log.watch.todo != [] && log.watch.todo[0] in log.calls
    case Claim => log.watch.Suspecting? && log.watch.id in log.calls
    case Report(_) => log.watch.Reporting? && log.watch.id in log.calls
    case Rest => log.watch.Visiting? && log.watch.todo == []
    case Pop(id) => id in log.calls && log.calls[id].stage.Running?
    case Time(id, now) => id in log.calls && log.calls[id].stage.Popped? && now >= log.clock
    case ClaimEnd(id) => id in log.calls && log.calls[id].stage.Timed?
    case WriteEnd(id, _) => id in log.calls && log.calls[id].stage.Claimed?
    case Write(record) => !record.slowCall
  }

  function Staged(log: Log, id: CallId, stage: Stage): Log
    requires id in log.calls
  {
    log.(calls := log.calls[id := log.calls[id].(stage := stage)])
  }

  function Flagged(log: Log, id: CallId): Log
    requires id in log.calls
  {
    log.(calls := log.calls[id := log.calls[id].(flagged := true)])
  }

  function Recorded(log: Log, record: Option<Record>): Log {
    if record.Some? then log.(records := log.records + [record.value]) else log
  }

  /** The record a step writes. */
  function Written(settings: Settings, log: Log, event: Event): Option<Record>
    requires Enabled(settings, log, event)
  {
    match event
    case Report(blocked) =>
      var id := log.watch.id;
      if blocked then None else Some(SlowRecord(settings, id, log.watch.now - log.calls[id].started, true, ""))
    case WriteEnd(id, outcome) => Some(SlowRecord(settings, id, log.calls[id].stage.elapsed, false, outcome))
    case Write(record) => Some(record)
    case _ => None
  }

  /** What a step does apart from the record it writes. */
  function Moved(settings: Settings, log: Log, event: Event): Log
    requires Enabled(settings, log, event)
  {
    match event
    case Begin(id, now) => log.(clock := now, calls := log.calls[id := Call(now, false, Running)])
    case ReadClock(now) => log.(clock := now, watch := Clocked(now))
    case Snapshot(ids) => log.(watch := Visiting(log.watch.now, ids))
    case Look =>
      var now, id, todo := log.watch.now, log.watch.todo[0], log.watch.todo[1..];
      log.(watch := if !log.calls[id].flagged && now - log.calls[id].started >= settings.slow
                    then Suspecting(now, id, todo) else Visiting(now, todo))
    case Claim =>
      var now, id, todo := log.watch.now, log.watch.id, log.watch.todo;
      if log.calls[id].flagged then log.(watch := Visiting(now, todo))
      else Flagged(log, id).(watch := Reporting(now, id, todo))
    case Report(_) => log.(watch := Visiting(log.watch.now, log.watch.todo))
    case Rest => log.(watch := Resting)
    case Pop(id) => Staged(log, id, Popped)
    case Time(id, now) => Staged(log.(clock := now), id, Timed(now - log.calls[id].started))
    case ClaimEnd(id) =>
      var elapsed := log.calls[id].stage.elapsed;
      if elapsed >= settings.slow then Staged(Flagged(log, id), id, Claimed(elapsed))
      else Staged(log, id, Ended(elapsed))
    case WriteEnd(id, _) => Staged(log, id, Ended(log.calls[id].stage.elapsed))
    case Write(_) => log
  }

  function Step(settings: Settings, log: Log, event: Event): Log
    requires Enabled(settings, log, event)
  {
    Recorded(Moved(settings, log, event), Written(settings, log, event))
  }

  // ---------------------------------------------------------------- what every step keeps

  function RunningTimes(records: seq<Record>, id: CallId): nat {
    if records == [] then 0
    else
      RunningTimes(records[..|records| - 1], id)
      + if SlowOf(records[|records| - 1], id) && records[|records| - 1].running then 1 else 0
  }

  function FinalTimes(records: seq<Record>, id: CallId): nat {
    if records == [] then 0
    else
      FinalTimes(records[..|records| - 1], id)
      + if SlowOf(records[|records| - 1], id) && !records[|records| - 1].running then 1 else 0
  }

  predicate Reported(watch: Watch, id: CallId) { watch.Reporting? && watch.id == id }

  predicate Looked(watch: Watch, id: CallId) {
    match watch
    case Resting => false
    case Clocked(_) => false
    case Visiting(_, todo) => id in todo
    case Suspecting(_, other, todo) => id == other || id in todo
    case Reporting(_, other, todo) => id == other || id in todo
  }

  predicate Timing(stage: Stage) { stage.Timed? || stage.Claimed? || stage.Ended? }

  /** What a call's running record may say: no more than its final time, or than the time now. */
  predicate Within(log: Log, call: Call, elapsed: int) {
    if Timing(call.stage) then elapsed <= call.stage.elapsed else call.started + elapsed <= log.clock
  }

  predicate Settled(settings: Settings, call: Call) { call.stage.Ended? && call.stage.elapsed >= settings.slow }

  /** The watchdog has found the call to be slow. */
  predicate Pending(watch: Watch, id: CallId) { (watch.Suspecting? || watch.Reporting?) && watch.id == id }

  /** One call and its records. */
  ghost predicate Tidy(settings: Settings, log: Log, id: CallId) {
    if id !in log.calls then
      && RunningTimes(log.records, id) == 0 && FinalTimes(log.records, id) == 0 && !Looked(log.watch, id)
      && forall record :: record in log.records ==> !SlowOf(record, id)
    else
      var call := log.calls[id];
      && RunningTimes(log.records, id) + (if Reported(log.watch, id) then 1 else 0) <= (if call.flagged then 1 else 0)
      && FinalTimes(log.records, id) == (if Settled(settings, call) then 1 else 0)
      && (Looked(log.watch, id) ==> Within(log, call, log.watch.now - call.started))
      && (Pending(log.watch, id) ==> log.watch.now - call.started >= settings.slow)
      && (call.stage.Claimed? ==> call.stage.elapsed >= settings.slow)
      && forall record :: record in log.records && SlowOf(record, id) ==> Truthful(settings, log, call, record)
  }

  /** A final record gives the final time; a running one a time that the call had reached. */
  ghost predicate Truthful(settings: Settings, log: Log, call: Call, record: Record) {
    if record.running then
      exists elapsed: int ::
        elapsed >= settings.slow && Within(log, call, elapsed) && record.elapsedMs == settings.milliseconds(elapsed)
    else Settled(settings, call) && record.elapsedMs == settings.milliseconds(call.stage.elapsed)
  }

  ghost predicate Consistent(settings: Settings, log: Log) {
    && (!log.watch.Resting? ==> log.watch.now <= log.clock)
    && forall id: CallId :: Tidy(settings, log, id)
  }

  /** Same call, same records of it, a later time, and a watchdog that looks at it no more than before. */
  ghost predicate Undisturbed(log: Log, after: Log, id: CallId) {
    && (id in after.calls <==> id in log.calls) && (id in log.calls ==> after.calls[id] == log.calls[id])
    && after.clock >= log.clock
    && RunningTimes(after.records, id) == RunningTimes(log.records, id)
    && FinalTimes(after.records, id) == FinalTimes(log.records, id)
    && (forall record :: record in after.records && SlowOf(record, id) ==> record in log.records)
    && (Looked(after.watch, id) ==> Looked(log.watch, id) && after.watch.now == log.watch.now)
    && (Reported(after.watch, id) ==> Reported(log.watch, id))
    && (Pending(after.watch, id) ==> Pending(log.watch, id))
  }

  lemma TruthLasts(settings: Settings, log: Log, after: Log, call: Call, later: Call, record: Record)
    requires Truthful(settings, log, call, record)
    requires forall elapsed: int :: Within(log, call, elapsed) ==> Within(after, later, elapsed)
    requires Settled(settings, call) ==> later.stage == call.stage
    ensures Truthful(settings, after, later, record)
  {
    if record.running {
      var elapsed: int :| elapsed >= settings.slow && Within(log, call, elapsed)
        && record.elapsedMs == settings.milliseconds(elapsed);
      assert Within(after, later, elapsed);
    }
  }

  lemma UndisturbedIsTidy(settings: Settings, log: Log, after: Log, id: CallId)
    requires Tidy(settings, log, id) && Undisturbed(log, after, id)
    ensures Tidy(settings, after, id)
  {
    if id in log.calls {
      forall record | record in after.records && SlowOf(record, id)
        ensures Truthful(settings, after, after.calls[id], record) {
        assert record in log.records;
        TruthLasts(settings, log, after, log.calls[id], log.calls[id], record);
      }
    }
  }

  lemma OneRecordMore(records: seq<Record>, record: Record, id: CallId)
    ensures RunningTimes(records + [record], id)
            == RunningTimes(records, id) + if SlowOf(record, id) && record.running then 1 else 0
    ensures FinalTimes(records + [record], id)
            == FinalTimes(records, id) + if SlowOf(record, id) && !record.running then 1 else 0
  {
    assert (records + [record])[..|records|] == records;
  }

  /** A call moves on to a stage where all that could be said of its time still holds. */
  lemma MovedIsTidy(settings: Settings, log: Log, after: Log, id: CallId)
    requires Tidy(settings, log, id) && id in log.calls && id in after.calls && !Settled(settings, log.calls[id])
    requires after.watch == log.watch && after.records == log.records && after.clock >= log.clock
    requires after.calls[id].started == log.calls[id].started && (log.calls[id].flagged ==> after.calls[id].flagged)
    requires forall elapsed: int :: Within(log, log.calls[id], elapsed) ==> Within(after, after.calls[id], elapsed)
    requires after.calls[id].stage.Claimed? ==> after.calls[id].stage.elapsed >= settings.slow
    requires !Settled(settings, after.calls[id])
    ensures Tidy(settings, after, id)
  {
    forall record | record in after.records && SlowOf(record, id)
      ensures Truthful(settings, after, after.calls[id], record) {
      TruthLasts(settings, log, after, log.calls[id], after.calls[id], record);
    }
  }

  lemma WriteEndIsTidy(settings: Settings, log: Log, id: CallId, outcome: string)
    requires Tidy(settings, log, id) && Enabled(settings, log, WriteEnd(id, outcome))
    ensures Tidy(settings, Step(settings, log, WriteEnd(id, outcome)), id)
  {
    var after := Step(settings, log, WriteEnd(id, outcome));
    var elapsed := log.calls[id].stage.elapsed;
    var final := SlowRecord(settings, id, elapsed, false, outcome);
    OneRecordMore(log.records, final, id);
    forall record | record in after.records && SlowOf(record, id)
      ensures Truthful(settings, after, after.calls[id], record) {
      if record in log.records {
        TruthLasts(settings, log, after, log.calls[id], after.calls[id], record);
      } else {
        assert record == final;
      }
    }
  }

  /** The watchdog's record of a call that has none yet. */
  lemma RunningRecordIsTidy(settings: Settings, log: Log, id: CallId, elapsed: int)
    requires Tidy(settings, log, id) && id in log.calls && RunningTimes(log.records, id) == 0 && log.calls[id].flagged
    requires !Reported(log.watch, id) && Within(log, log.calls[id], elapsed) && elapsed >= settings.slow
    ensures Tidy(settings, Recorded(log, Some(SlowRecord(settings, id, elapsed, true, ""))), id)
  {
    var running := SlowRecord(settings, id, elapsed, true, "");
    var after := Recorded(log, Some(running));
    OneRecordMore(log.records, running, id);
    forall record | record in after.records && SlowOf(record, id)
      ensures Truthful(settings, after, log.calls[id], record) {
      if record in log.records {
        TruthLasts(settings, log, after, log.calls[id], log.calls[id], record);
      } else {
        assert record == running && Within(after, log.calls[id], elapsed);
      }
    }
  }

  /** Putting a report down leaves the call tidy, and without a running record so far. */
  lemma PutDownIsTidy(settings: Settings, log: Log, id: CallId)
    requires Tidy(settings, log, id) && Enabled(settings, log, Report(false)) && log.watch.id == id
    ensures var moved := Moved(settings, log, Report(false));
            && Tidy(settings, moved, id) && RunningTimes(moved.records, id) == 0 && moved.calls[id].flagged
            && Within(moved, moved.calls[id], log.watch.now - moved.calls[id].started)
  {
    var moved := Moved(settings, log, Report(false));
    forall record | record in moved.records && SlowOf(record, id)
      ensures Truthful(settings, moved, moved.calls[id], record) {
      TruthLasts(settings, log, moved, log.calls[id], log.calls[id], record);
    }
  }

  /** The record that a report writes, and what it is put behind. */
  lemma ReportSplits(settings: Settings, log: Log, id: CallId, elapsed: int)
    requires Enabled(settings, log, Report(false)) && log.watch.id == id
             && elapsed == log.watch.now - log.calls[id].started
    ensures Step(settings, log, Report(false))
            == Recorded(Moved(settings, log, Report(false)), Some(SlowRecord(settings, id, elapsed, true, "")))
    ensures !Reported(Moved(settings, log, Report(false)).watch, id)
  {
  }

  lemma ReportIsTidy(settings: Settings, log: Log, id: CallId)
    requires Tidy(settings, log, id) && Enabled(settings, log, Report(false)) && log.watch.id == id
    ensures Tidy(settings, Step(settings, log, Report(false)), id)
  {
    var elapsed, moved := log.watch.now - log.calls[id].started, Moved(settings, log, Report(false));
    assert elapsed >= settings.slow;
    PutDownIsTidy(settings, log, id);
    ReportSplits(settings, log, id, elapsed);
    RunningRecordIsTidy(settings, moved, id, elapsed);
  }

  lemma RecordedUndisturbed(log: Log, after: Log, record: Option<Record>, id: CallId)
    requires Undisturbed(log, after, id) && (record.Some? ==> !SlowOf(record.value, id))
    ensures Undisturbed(log, Recorded(after, record), id)
  {
    if record.Some? {
      OneRecordMore(after.records, record.value, id);
    }
  }

  /** The call a step is about. */
  predicate Concerns(settings: Settings, log: Log, event: Event, id: CallId)
    requires Enabled(settings, log, event)
  {
    match event
    case Look => log.watch.todo[0] == id
    case Claim => log.watch.id == id
    case Report(_) => log.watch.id == id
    case Begin(other, _) => other == id
    case Pop(other) => other == id
    case Time(other, _) => other == id
    case ClaimEnd(other) => other == id
    case WriteEnd(other, _) => other == id
    case _ => false
  }

  /** A step leaves every call it is not about undisturbed; a snapshot is about all of them. */
  lemma OthersUndisturbed(settings: Settings, log: Log, event: Event, id: CallId)
    requires Enabled(settings, log, event) && !Concerns(settings, log, event, id) && !event.Snapshot?
    ensures Undisturbed(log, Moved(settings, log, event), id)
    ensures Written(settings, log, event).Some? ==> !SlowOf(Written(settings, log, event).value, id)
  {
  }

  lemma OthersStayUndisturbed(settings: Settings, log: Log, event: Event, id: CallId)
    requires Enabled(settings, log, event) && !Concerns(settings, log, event, id) && !event.Snapshot?
    ensures Undisturbed(log, Step(settings, log, event), id)
  {
    OthersUndisturbed(settings, log, event, id);
    RecordedUndisturbed(log, Moved(settings, log, event), Written(settings, log, event), id);
  }

  lemma SnapshotIsTidy(settings: Settings, log: Log, ids: seq<CallId>, id: CallId)
    requires Consistent(settings, log) && Enabled(settings, log, Snapshot(ids))
    ensures Tidy(settings, Step(settings, log, Snapshot(ids)), id)
  {
    var after := Step(settings, log, Snapshot(ids));
    assert Tidy(settings, log, id);
    if id in log.calls {
      forall record | record in after.records && SlowOf(record, id)
        ensures Truthful(settings, after, after.calls[id], record) {
        TruthLasts(settings, log, after, log.calls[id], log.calls[id], record);
      }
    }
  }

  /** The watchdog looks at a call, claims it, or finds it claimed. */
  lemma WatchingIsTidy(settings: Settings, log: Log, event: Event, id: CallId)
    requires Tidy(settings, log, id) && Enabled(settings, log, event)
    requires (event.Look? && log.watch.todo[0] == id) || (event.Claim? && log.watch.id == id)
             || (event == Report(true) && log.watch.id == id)
    ensures Tidy(settings, Step(settings, log, event), id)
  {
    var after := Step(settings, log, event);
    forall record | record in after.records && SlowOf(record, id)
      ensures Truthful(settings, after, after.calls[id], record) {
      TruthLasts(settings, log, after, log.calls[id], after.calls[id], record);
    }
  }

  /** A step that is about the call itself. */
  lemma OwnStepIsTidy(settings: Settings, log: Log, event: Event, id: CallId)
    requires Tidy(settings, log, id) && Enabled(settings, log, event) && Concerns(settings, log, event, id)
    requires !log.watch.Resting? ==> log.watch.now <= log.clock
    ensures Tidy(settings, Step(settings, log, event), id)
  {
    match event
    case Begin(_, _) =>
    case Pop(_) => MovedIsTidy(settings, log, Step(settings, log, event), id);
    case Time(_, _) => MovedIsTidy(settings, log, Step(settings, log, event), id);
    case ClaimEnd(_) => MovedIsTidy(settings, log, Step(settings, log, event), id);
    case WriteEnd(_, outcome) => WriteEndIsTidy(settings, log, id, outcome);
    case Report(blocked) =>
      if blocked {
        WatchingIsTidy(settings, log, event, id);
      } else {
        ReportIsTidy(settings, log, id);
      }
    case Look => WatchingIsTidy(settings, log, event, id);
    case Claim => WatchingIsTidy(settings, log, event, id);
  }

  lemma StepIsTidy(settings: Settings, log: Log, event: Event, id: CallId)
    requires Consistent(settings, log) && Enabled(settings, log, event)
    ensures Tidy(settings, Step(settings, log, event), id)
  {
    assert Tidy(settings, log, id);
    if event.Snapshot? {
      SnapshotIsTidy(settings, log, event.ids, id);
    } else if Concerns(settings, log, event, id) {
      OwnStepIsTidy(settings, log, event, id);
    } else {
      OthersStayUndisturbed(settings, log, event, id);
      UndisturbedIsTidy(settings, log, Step(settings, log, event), id);
    }
  }

  lemma StepKeepsConsistent(settings: Settings, log: Log, event: Event)
    requires Consistent(settings, log) && Enabled(settings, log, event)
    ensures Consistent(settings, Step(settings, log, event))
  {
    forall id: CallId ensures Tidy(settings, Step(settings, log, event), id) {
      StepIsTidy(settings, log, event, id);
    }
  }

  // ---------------------------------------------------------------- whole runs

  function Run(settings: Settings, events: seq<Event>): Option<Log> {
    if events == [] then Some(EMPTY)
    else
      var before, last := Run(settings, events[..|events| - 1]), events[|events| - 1];
      if before.Some? && Enabled(settings, before.value, last) then Some(Step(settings, before.value, last)) else None
  }

  lemma {:induction false} RunsStayConsistent(settings: Settings, events: seq<Event>)
    requires Run(settings, events).Some?
    ensures Consistent(settings, Run(settings, events).value)
  {
    if events != [] {
      RunsStayConsistent(settings, events[..|events| - 1]);
      StepKeepsConsistent(settings, Run(settings, events[..|events| - 1]).value, events[|events| - 1]);
    }
  }

  /** The watchdog writes at most one record of a running call, and the end at most one final record. */
  lemma AtMostOneOfEach(settings: Settings, events: seq<Event>, id: CallId)
    requires Run(settings, events).Some?
    ensures RunningTimes(Run(settings, events).value.records, id) <= 1
            && FinalTimes(Run(settings, events).value.records, id) <= 1
  {
    RunsStayConsistent(settings, events);
    assert Tidy(settings, Run(settings, events).value, id);
  }

  /** How often the watchdog reported the call while the loop was not blocked. */
  function Reports(settings: Settings, events: seq<Event>, id: CallId): nat {
    if events == [] then 0
    else
      var front, last := events[..|events| - 1], events[|events| - 1];
      Reports(settings, front, id) + if UnblockedReport(Run(settings, front), last, id) then 1 else 0
  }

  predicate UnblockedReport(log: Option<Log>, event: Event, id: CallId) {
    event.Report? && !event.blocked && log.Some? && log.value.watch.Reporting? && log.value.watch.id == id
  }

  /** A report is written as a record of the running call exactly when the loop is not blocked. */
  lemma {:induction false} RunningRecordsAreReports(settings: Settings, events: seq<Event>, id: CallId)
    requires Run(settings, events).Some?
    ensures RunningTimes(Run(settings, events).value.records, id) == Reports(settings, events, id)
  {
    if events != [] {
      var front, last := events[..|events| - 1], events[|events| - 1];
      RunningRecordsAreReports(settings, front, id);
      var before := Run(settings, front).value;
      var written := Written(settings, before, last);
      if written.Some? {
        OneRecordMore(before.records, written.value, id);
      }
    }
  }

  ghost predicate Rounds(settings: Settings) {
    && settings.slow >= 0 && settings.milliseconds(0) >= 0
    && forall x: int, y: int :: x <= y ==> settings.milliseconds(x) <= settings.milliseconds(y)
  }

  lemma {:induction false} FinalAt(records: seq<Record>, id: CallId) returns (i: nat)
    requires FinalTimes(records, id) > 0
    ensures i < |records| && SlowOf(records[i], id) && !records[i].running
  {
    var last := records[|records| - 1];
    if SlowOf(last, id) && !last.running {
      i := |records| - 1;
    } else {
      i := FinalAt(records[..|records| - 1], id);
    }
  }

  lemma {:induction false} FinalIsCounted(records: seq<Record>, id: CallId, i: nat)
    requires i < |records| && SlowOf(records[i], id) && !records[i].running
    ensures FinalTimes(records, id) >= 1
  {
    if i < |records| - 1 {
      FinalIsCounted(records[..|records| - 1], id, i);
    }
  }

  lemma {:induction false} OnlyOneFinal(records: seq<Record>, id: CallId, i: nat, j: nat)
    requires FinalTimes(records, id) <= 1 && i < |records| && j < |records|
    requires SlowOf(records[i], id) && !records[i].running && SlowOf(records[j], id) && !records[j].running
    ensures i == j
  {
    var n := |records| - 1;
    if i < n && j < n {
      OnlyOneFinal(records[..n], id, i, j);
    } else if i < n {
      FinalIsCounted(records[..n], id, i);
    } else if j < n {
      FinalIsCounted(records[..n], id, j);
    }
  }

  /** In the export a call that ended past the threshold is one slow record, with its final time. */
  lemma EndedCallIsOneRecord(settings: Settings, events: seq<Event>, id: CallId)
    requires Rounds(settings) && Run(settings, events).Some?
    requires id in Run(settings, events).value.calls && Settled(settings, Run(settings, events).value.calls[id])
    ensures var log := Run(settings, events).value;
            && Times(Merged(log.records), id) == 1 && Longest(log.records, id).Some?
            && Longest(log.records, id).value in Merged(log.records)
            && Longest(log.records, id).value.elapsedMs == settings.milliseconds(log.calls[id].stage.elapsed)
            && Others(log.records) <= Merged(log.records)
  {
    var log := Run(settings, events).value;
    RunsStayConsistent(settings, events);
    assert Tidy(settings, log, id);
    var f := FinalAt(log.records, id);
    var final := log.records[f];
    assert final in log.records && Truthful(settings, log, log.calls[id], final);
    assert settings.milliseconds(0) <= final.elapsedMs;
    LongestIsLongest(log.records, id, final);
    LongestIsOf(log.records, id);
    var kept := Longest(log.records, id).value;
    assert Truthful(settings, log, log.calls[id], kept);
    MergedHasOne(log.records, id);
  }

  /** It is the record that end() wrote exactly unless the watchdog's record came later and gives the
      same rounded time. */
  lemma FinalRecordLosesOnlyTies(settings: Settings, events: seq<Event>, id: CallId, f: nat)
    requires Rounds(settings) && Run(settings, events).Some?
    requires id in Run(settings, events).value.calls && Settled(settings, Run(settings, events).value.calls[id])
    requires f < |Run(settings, events).value.records|
    requires SlowOf(Run(settings, events).value.records[f], id) && !Run(settings, events).value.records[f].running
    ensures var records := Run(settings, events).value.records;
            Longest(records, id).Some?
            && (Longest(records, id).value == records[f] <==>
                  !exists j :: f < j < |records| && SlowOf(records[j], id)
                    && records[j].elapsedMs == records[f].elapsedMs)
  {
    var log := Run(settings, events).value;
    var records := log.records;
    EndedCallIsOneRecord(settings, events, id);
    RunsStayConsistent(settings, events);
    assert Tidy(settings, log, id);
    assert records[f] in records && Truthful(settings, log, log.calls[id], records[f]);
    var i := LongestIsLatest(records, id);
    LongestIsOf(records, id);
    if records[i] == records[f] {
      OnlyOneFinal(records, id, i, f);
    } else {
      assert records[f].elapsedMs == records[i].elapsedMs;
      assert i > f;
    }
  }

  /** A call that ends before the threshold leaves no slow record. */
  lemma ShortCallLeavesNone(settings: Settings, events: seq<Event>, id: CallId, record: Record)
    requires Run(settings, events).Some? && id in Run(settings, events).value.calls
    requires Run(settings, events).value.calls[id].stage.Ended?
             && !Settled(settings, Run(settings, events).value.calls[id])
    requires record in Run(settings, events).value.records
    ensures !SlowOf(record, id)
  {
    var log := Run(settings, events).value;
    RunsStayConsistent(settings, events);
    assert Tidy(settings, log, id);
    assert SlowOf(record, id) ==> Truthful(settings, log, log.calls[id], record);
  }

  lemma OneMore(settings: Settings, events: seq<Event>, log: Log, event: Event)
    requires Run(settings, events) == Some(log) && Enabled(settings, log, event)
    ensures Run(settings, events + [event]) == Some(Step(settings, log, event))
  {
    assert (events + [event])[..|events|] == events;
  }

  const IN_MILLISECONDS := Settings(60, (elapsed: int) => elapsed)

  lemma WatchdogClaimsFirst() returns (events: seq<Event>, log: Log)
    ensures Run(IN_MILLISECONDS, events) == Some(log)
    ensures log == Log(60, map[1 := Call(0, true, Running)], Reporting(60, 1, []), [])
  {
    log, events := EMPTY, [];
    OneMore(IN_MILLISECONDS, events, log, Begin(1, 0));
    log, events := Step(IN_MILLISECONDS, log, Begin(1, 0)), events + [Begin(1, 0)];
    OneMore(IN_MILLISECONDS, events, log, ReadClock(60));
    log, events := Step(IN_MILLISECONDS, log, ReadClock(60)), events + [ReadClock(60)];
    OneMore(IN_MILLISECONDS, events, log, Snapshot([1]));
    log, events := Step(IN_MILLISECONDS, log, Snapshot([1])), events + [Snapshot([1])];
    OneMore(IN_MILLISECONDS, events, log, Look);
    log, events := Step(IN_MILLISECONDS, log, Look), events + [Look];
    assert log.watch.todo == [];
    OneMore(IN_MILLISECONDS, events, log, Claim);
    log, events := Step(IN_MILLISECONDS, log, Claim), events + [Claim];
    assert log.calls == map[1 := Call(0, true, Running)];
  }

  /** The call ends while the watchdog, which has claimed it, has not written yet. */
  lemma CallEndsFirst() returns (events: seq<Event>, log: Log)
    ensures Run(IN_MILLISECONDS, events) == Some(log) && 1 in log.calls && log.calls[1] == Call(0, true, Ended(60))
    ensures log.watch == Reporting(60, 1, []) && log.records == [SlowRecord(IN_MILLISECONDS, 1, 60, false, "")]
  {
    events, log := WatchdogClaimsFirst();
    OneMore(IN_MILLISECONDS, events, log, Pop(1));
    log, events := Step(IN_MILLISECONDS, log, Pop(1)), events + [Pop(1)];
    OneMore(IN_MILLISECONDS, events, log, Time(1, 60));
    log, events := Step(IN_MILLISECONDS, log, Time(1, 60)), events + [Time(1, 60)];
    OneMore(IN_MILLISECONDS, events, log, ClaimEnd(1));
    log, events := Step(IN_MILLISECONDS, log, ClaimEnd(1)), events + [ClaimEnd(1)];
    OneMore(IN_MILLISECONDS, events, log, WriteEnd(1, ""));
    log, events := Step(IN_MILLISECONDS, log, WriteEnd(1, "")), events + [WriteEnd(1, "")];
  }

  lemma LaterOneIsKept(first: Record, second: Record, id: CallId)
    requires SlowOf(first, id) && SlowOf(second, id) && 0 <= first.elapsedMs <= second.elapsedMs
    ensures Longest([first] + [second], id) == Some(second)
  {
    assert ([first] + [second])[..1] == [first] && [first][..0] == [];
    assert Longest([first], id) == Some(first);
  }

  /** So a tie happens: the export then keeps the record that says the call is running. */
  lemma LateWatchdogWinsTies() returns (events: seq<Event>)
    ensures Run(IN_MILLISECONDS, events).Some? && Longest(Run(IN_MILLISECONDS, events).value.records, 1).Some?
    ensures Longest(Run(IN_MILLISECONDS, events).value.records, 1).value.running
    ensures 1 in Run(IN_MILLISECONDS, events).value.calls
            && Settled(IN_MILLISECONDS, Run(IN_MILLISECONDS, events).value.calls[1])
  {
    var log: Log;
    events, log := CallEndsFirst();
    OneMore(IN_MILLISECONDS, events, log, Report(false));
    events := events + [Report(false)];
    LaterOneIsKept(SlowRecord(IN_MILLISECONDS, 1, 60, false, ""), SlowRecord(IN_MILLISECONDS, 1, 60, true, ""), 1);
  }
}
