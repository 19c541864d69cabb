/** The pool as it runs: fields updated in place, one method for what happens between two awaits. */
module ConnectionPool {
  import opened PoolModel
  import opened PoolSafety

  /** A step that the pool's callers may take keeps the slots accounted for. */
  ghost predicate KeepsSound(before: Pool, event: Event, after: Pool) {
    Sound(before) && Allowed(before, event) ==> Sound(after)
  }

  lemma StepStaysSound(before: Pool, event: Event)
    requires Enabled(before, event)
    ensures KeepsSound(before, event, Step(before, event).pool)
  {
    if Sound(before) && Allowed(before, event) {
      StepKeepsSound(before, event);
    }
  }

  lemma EmptyIsSound(limit: nat)
    ensures Sound(Empty(limit))
  {
    assert Occupants(Empty(limit).phases) == {};
  }

  class Pools {
    const limit: nat
    var size: int
    var idle: seq<Conn>
    var idleSince: map<Conn, real>
    var leases: map<Conn, Task>
    /** Where the suspended coroutines stand. */
    var phases: map<Task, Phase>
    var closed: bool
    var failures: nat
    var lastFailure: real
    var isOpen: bool
    var acquires: nat
    var releases: nat
    var discards: nat
    var creates: nat
    var active: nat
    var peak: nat

    constructor (limit: nat)
      ensures Contents() == Empty(limit) && Sound(Contents())
    {
      EmptyIsSound(limit);
      this.limit := limit;
      size, idle, idleSince, leases, phases, closed := 0, [], map[], map[], map[], false;
      failures, lastFailure, isOpen := 0, 0.0, false;
      acquires, releases, discards, creates, active, peak := 0, 0, 0, 0, 0, 0;
    }

    function Contents(): Pool
      reads this
    {
      Pool(limit, size, idle, idleSince, leases, phases, closed, Breaker(failures, lastFailure, isOpen),
           Metrics(acquires, releases, discards, creates, active, peak))
    }

    method RecordSuccess()
      modifies `failures, `isOpen
      ensures Contents().breaker == Succeed(old(Contents().breaker))
    {
      failures := 0;
      isOpen := false;
    }

    method RecordFailure(now: real)
      modifies `failures, `lastFailure, `isOpen
      ensures Contents().breaker == Fail(old(Contents().breaker), now)
    {
      failures := failures + 1;
      lastFailure := now;
      if failures >= CIRCUIT_BREAKER_THRESHOLD {
        isOpen := true;
      }
    }

    /** An open breaker refuses until its cooldown has passed, and then lets a probe through. */
    method PassBreaker(now: real) returns (refused: bool)
      modifies `isOpen
      ensures refused == CoolingDown(old(Contents().breaker), now)
      ensures Contents().breaker == if refused then old(Contents().breaker) else Admit(old(Contents().breaker))
    {
      if isOpen {
        if now - lastFailure < CIRCUIT_BREAKER_COOLDOWN {
          return true;
        }
        isOpen := false;
      }
      refused := false;
    }

    /** The common end of acquire. */
    method LendTo(task: Task, conn: Conn)
      modifies this
      ensures Contents() == Lend(old(Contents()), task, conn)
    {
      RecordSuccess();
      active := active + 1;
      if peak < active {
        peak := active;
      }
      leases := leases[conn := task];
    }

    method TakeFromQueue(task: Task, now: real) returns (outcome: Outcome)
      requires idle != []
      modifies this
      ensures Stepped(Contents(), outcome) == TakeIdle(old(Contents()), task, now)
    {
      var conn := idle[0];
      idle := idle[1..];
      if conn in idleSince && now - idleSince[conn] < VALIDATION_IDLE_SECONDS {
        LendTo(task, conn);
        outcome := Granted(conn);
      } else {
        phases := phases[task := Checking(conn)];
        outcome := Suspended;
      }
    }

    /** acquire's loop body: an idle connection, or a slot for a new one, or the queue. */
    method SeekConnection(task: Task, now: real) returns (outcome: Outcome)
      modifies this
      ensures Stepped(Contents(), outcome) == Turn(old(Contents()), task, now)
    {
      if idle != [] {
        outcome := TakeFromQueue(task, now);
      } else {
        if size < limit {
          size := size + 1;
          phases := phases[task := Creating];
        } else {
          phases := phases[task := Waiting];
        }
        outcome := Suspended;
      }
    }

    method BeginDiscard(task: Task, conn: Conn, next: Next)
      modifies this
      ensures Stepped(Contents(), Suspended) == StartDiscard(old(Contents()), task, conn, next)
    {
      var wasLeased := conn in leases;
      leases := Without(leases, conn);
      idleSince := Without(idleSince, conn);
      discards := discards + 1;
      if wasLeased && active > 0 {
        active := active - 1;
      }
      phases := phases[task := Closing(conn, next)];
    }

    method DrainQueue(task: Task) returns (outcome: Outcome)
      modifies this
      ensures Stepped(Contents(), outcome) == DrainIdle(old(Contents()), task)
    {
      if idle == [] {
        outcome := Returned;
      } else {
        var conn := idle[0];
        idle := idle[1..];
        BeginDiscard(task, conn, Drain);
        outcome := Suspended;
      }
    }

    method EndLease(conn: Conn, now: real)
      modifies this
      ensures Contents() == Unleased(old(Contents()), conn, now)
    {
      leases := Without(leases, conn);
      idleSince := idleSince[conn := now];
      releases := releases + 1;
      if active > 0 {
        active := active - 1;
      }
    }

    // -------------------------------------------------------------- steps

    method EnterAcquire(task: Task, now: real) returns (outcome: Outcome)
      requires Enabled(Contents(), Acquire(task, now))
      modifies this
      ensures Stepped(Contents(), outcome) == Step(old(Contents()), Acquire(task, now))
      ensures KeepsSound(old(Contents()), Acquire(task, now), Contents())
    {
      StepStaysSound(Contents(), Acquire(task, now));
      ghost var before := Contents();
      if closed {
        return Refused;
      }
      var refused := PassBreaker(now);
      if refused {
        return Refused;
      }
      acquires := acquires + 1;
      assert Contents() == Admitted(before);
      outcome := SeekConnection(task, now);
    }

    method FinishCheck(task: Task, usable: bool) returns (outcome: Outcome)
      requires Enabled(Contents(), Checked(task, usable))
      modifies this
      ensures Stepped(Contents(), outcome) == Step(old(Contents()), Checked(task, usable))
      ensures KeepsSound(old(Contents()), Checked(task, usable), Contents())
    {
      StepStaysSound(Contents(), Checked(task, usable));
      var conn := phases[task].conn;
      phases := Without(phases, task);
      if usable {
        LendTo(task, conn);
        outcome := Granted(conn);
      } else {
        BeginDiscard(task, conn, Retry);
        outcome := Suspended;
      }
    }

    method FinishCreate(task: Task, conn: Conn) returns (outcome: Outcome)
      requires Enabled(Contents(), Created(task, conn))
      modifies this
      ensures Stepped(Contents(), outcome) == Step(old(Contents()), Created(task, conn))
      ensures KeepsSound(old(Contents()), Created(task, conn), Contents())
    {
      StepStaysSound(Contents(), Created(task, conn));
      phases := Without(phases, task);
      creates := creates + 1;
      LendTo(task, conn);
      outcome := Granted(conn);
    }

    method FailCreate(task: Task, now: real) returns (outcome: Outcome)
      requires Enabled(Contents(), CreateFailed(task, now))
      modifies this
      ensures Stepped(Contents(), outcome) == Step(old(Contents()), CreateFailed(task, now))
      ensures KeepsSound(old(Contents()), CreateFailed(task, now), Contents())
    {
      StepStaysSound(Contents(), CreateFailed(task, now));
      phases := Without(phases, task);
      size := size - 1;
      RecordFailure(now);
      outcome := Refused;
    }

    method Wake(task: Task, now: real) returns (outcome: Outcome)
      requires Enabled(Contents(), Woken(task, now))
      modifies this
      ensures Stepped(Contents(), outcome) == Step(old(Contents()), Woken(task, now))
      ensures KeepsSound(old(Contents()), Woken(task, now), Contents())
    {
      StepStaysSound(Contents(), Woken(task, now));
      phases := Without(phases, task);
      outcome := TakeFromQueue(task, now);
    }

    method FinishClose(task: Task, now: real) returns (outcome: Outcome)
      requires Enabled(Contents(), Event.Closed(task, now))
      modifies this
      ensures Stepped(Contents(), outcome) == Step(old(Contents()), Event.Closed(task, now))
      ensures KeepsSound(old(Contents()), Event.Closed(task, now), Contents())
    {
      StepStaysSound(Contents(), Event.Closed(task, now));
      var next := phases[task].next;
      phases := Without(phases, task);
      if size > 0 {
        size := size - 1;
      }
      match next {
        case Retry => outcome := SeekConnection(task, now);
        case Drain => outcome := DrainQueue(task);
        case Finish => outcome := Returned;
      }
    }

    method EnterRelease(task: Task, conn: Conn, now: real) returns (outcome: Outcome)
      requires Enabled(Contents(), Release(task, conn, now))
      modifies this
      ensures Stepped(Contents(), outcome) == Step(old(Contents()), Release(task, conn, now))
      ensures KeepsSound(old(Contents()), Release(task, conn, now), Contents())
    {
      StepStaysSound(Contents(), Release(task, conn, now));
      EndLease(conn, now);
      if closed {
        BeginDiscard(task, conn, Finish);
        outcome := Suspended;
      } else if |idle| < limit {
        idle := idle + [conn];
        outcome := Returned;
      } else {
        BeginDiscard(task, conn, Finish);
        outcome := Suspended;
      }
    }

    method EnterDiscard(task: Task, conn: Conn) returns (outcome: Outcome)
      requires Enabled(Contents(), Discard(task, conn))
      modifies this
      ensures Stepped(Contents(), outcome) == Step(old(Contents()), Discard(task, conn))
      ensures KeepsSound(old(Contents()), Discard(task, conn), Contents())
    {
      StepStaysSound(Contents(), Discard(task, conn));
      BeginDiscard(task, conn, Finish);
      outcome := Suspended;
    }

    method EnterCloseAll(task: Task) returns (outcome: Outcome)
      requires Enabled(Contents(), CloseAll(task))
      modifies this
      ensures Stepped(Contents(), outcome) == Step(old(Contents()), CloseAll(task))
      ensures KeepsSound(old(Contents()), CloseAll(task), Contents())
    {
      StepStaysSound(Contents(), CloseAll(task));
      closed := true;
      outcome := DrainQueue(task);
    }
  }
}
