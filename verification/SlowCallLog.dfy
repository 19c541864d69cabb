/** The incident log's calls in flight as they run: the watchdog's pass and the end of a call, cut
    where the other thread can come in between, on shared flags and one file of records. */
module SlowCallLog {
  import opened SlowCallMerge
  import opened SlowCallWatch

  lemma StepStaysConsistent(settings: Settings, log: Log, event: Event)
    requires Enabled(settings, log, event)
    ensures Consistent(settings, log) ==> Consistent(settings, Step(settings, log, event))
  {
    if Consistent(settings, log) {
      StepKeepsConsistent(settings, log, event);
    }
  }

  class CallLog {
    const settings: Settings
    var clock: int
    var calls: map<CallId, Call>
    var watch: Watch
    var records: seq<Record>

    constructor (settings: Settings)
      ensures this.settings == settings && Contents() == EMPTY && Consistent(settings, Contents())
    {
      this.settings := settings;
      clock, calls, watch, records := 0, map[], Resting, [];
    }

    function Contents(): Log
      reads this
    {
      Log(clock, calls, watch, records)
    }

    /** Sets the once-per-call flag; false if it was set before. */
    method TryClaim(id: CallId) returns (claimed: bool)
      requires id in calls
      modifies `calls
      ensures claimed == !old(calls[id].flagged)
      ensures Contents() == if claimed then Flagged(old(Contents()), id) else old(Contents())
    {
      if calls[id].flagged {
        return false;
      }
      calls := calls[id := calls[id].(flagged := true)];
      claimed := true;
    }

    method BeginCall(id: CallId, now: int)
      requires Enabled(settings, Contents(), Begin(id, now))
      modifies this
      ensures Contents() == Step(settings, old(Contents()), Begin(id, now))
      ensures Consistent(settings, old(Contents())) ==> Consistent(settings, Contents())
    {
      StepStaysConsistent(settings, Contents(), Begin(id, now));
      clock := now;
      calls := calls[id := Call(now, false, Running)];
    }

    // -------------------------------------------------------------- the watchdog's pass

    method StartTick(now: int)
      requires Enabled(settings, Contents(), ReadClock(now))
      modifies this
      ensures Contents() == Step(settings, old(Contents()), ReadClock(now))
      ensures Consistent(settings, old(Contents())) ==> Consistent(settings, Contents())
    {
      StepStaysConsistent(settings, Contents(), ReadClock(now));
      clock := now;
      watch := Clocked(now);
    }

    method TakeSnapshot(ids: seq<CallId>)
      requires Enabled(settings, Contents(), Snapshot(ids))
      modifies this
      ensures Contents() == Step(settings, old(Contents()), Snapshot(ids))
      ensures Consistent(settings, old(Contents())) ==> Consistent(settings, Contents())
    {
      StepStaysConsistent(settings, Contents(), Snapshot(ids));
      watch := Visiting(watch.now, ids);
    }

    method LookAtCall()
      requires Enabled(settings, Contents(), Look)
      modifies this
      ensures Contents() == Step(settings, old(Contents()), Look)
      ensures Consistent(settings, old(Contents())) ==> Consistent(settings, Contents())
    {
      StepStaysConsistent(settings, Contents(), Look);
      var id, todo := watch.todo[0], watch.todo[1..];
      var elapsed := watch.now - calls[id].started;
      if !calls[id].flagged && elapsed >= settings.slow {
        watch := Suspecting(watch.now, id, todo);
      } else {
        watch := Visiting(watch.now, todo);
      }
    }

    method ClaimSuspect()
      requires Enabled(settings, Contents(), Claim)
      modifies this
      ensures Contents() == Step(settings, old(Contents()), Claim)
      ensures Consistent(settings, old(Contents())) ==> Consistent(settings, Contents())
    {
      StepStaysConsistent(settings, Contents(), Claim);
      var claimed := TryClaim(watch.id);
      if claimed {
        watch := Reporting(watch.now, watch.id, watch.todo);
      } else {
        watch := Visiting(watch.now, watch.todo);
      }
    }

    /** A blocked event loop is reported in another kind of record. */
    method ReportSuspect(blocked: bool)
      requires Enabled(settings, Contents(), Report(blocked))
      modifies this
      ensures Contents() == Step(settings, old(Contents()), Report(blocked))
      ensures Consistent(settings, old(Contents())) ==> Consistent(settings, Contents())
    {
      StepStaysConsistent(settings, Contents(), Report(blocked));
      if !blocked {
        var elapsed := watch.now - calls[watch.id].started;
        records := records + [SlowRecord(settings, watch.id, elapsed, true, "")];
      }
      watch := Visiting(watch.now, watch.todo);
    }

    method FinishTick()
      requires Enabled(settings, Contents(), Rest)
      modifies this
      ensures Contents() == Step(settings, old(Contents()), Rest)
      ensures Consistent(settings, old(Contents())) ==> Consistent(settings, Contents())
    {
      StepStaysConsistent(settings, Contents(), Rest);
      watch := Resting;
    }

    // -------------------------------------------------------------- the end of a call

    method SetStage(id: CallId, stage: Stage)
      requires id in calls
      modifies `calls
      ensures Contents() == Staged(old(Contents()), id, stage)
    {
      calls := calls[id := calls[id].(stage := stage)];
    }

    method PopCall(id: CallId)
      requires Enabled(settings, Contents(), Pop(id))
      modifies this
      ensures Contents() == Step(settings, old(Contents()), Pop(id))
      ensures Consistent(settings, old(Contents())) ==> Consistent(settings, Contents())
    {
      StepStaysConsistent(settings, Contents(), Pop(id));
      SetStage(id, Popped);
    }

    method ReadElapsed(id: CallId, now: int)
      requires Enabled(settings, Contents(), Time(id, now))
      modifies this
      ensures Contents() == Step(settings, old(Contents()), Time(id, now))
      ensures Consistent(settings, old(Contents())) ==> Consistent(settings, Contents())
    {
      StepStaysConsistent(settings, Contents(), Time(id, now));
      clock := now;
      SetStage(id, Timed(now - calls[id].started));
    }

    /** A slow call is recorded also when the watchdog has its flag. */
    method ClaimEnded(id: CallId)
      requires Enabled(settings, Contents(), ClaimEnd(id))
      modifies this
      ensures Contents() == Step(settings, old(Contents()), ClaimEnd(id))
      ensures Consistent(settings, old(Contents())) ==> Consistent(settings, Contents())
    {
      StepStaysConsistent(settings, Contents(), ClaimEnd(id));
      var elapsed := calls[id].stage.elapsed;
      if elapsed >= settings.slow {
        ghost var before := Contents();
        var claimed := TryClaim(id);
        assert !claimed ==> before.calls[id] == before.calls[id].(flagged := true);
        SetStage(id, Claimed(elapsed));
      } else {
        SetStage(id, Ended(elapsed));
      }
    }

    method RecordEnded(id: CallId, outcome: string)
      requires Enabled(settings, Contents(), WriteEnd(id, outcome))
      modifies this
      ensures Contents() == Step(settings, old(Contents()), WriteEnd(id, outcome))
      ensures Consistent(settings, old(Contents())) ==> Consistent(settings, Contents())
    {
      StepStaysConsistent(settings, Contents(), WriteEnd(id, outcome));
      var elapsed := calls[id].stage.elapsed;
      SetStage(id, Ended(elapsed));
      records := records + [SlowRecord(settings, id, elapsed, false, outcome)];
    }
  }
}
