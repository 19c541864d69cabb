/** Which connections are lent, and when without a check, read off the events of a run. */
module PoolLending {
  import opened Wrappers
  import opened PoolModel
  import opened PoolSafety

  /** When the connection was handed back for the last time. */
  function LastRelease(events: seq<Event>, conn: Conn): Option<real> {
    if events == [] then None
    else
      var last := events[|events| - 1];
      if last.Release? && last.conn == conn then Some(last.now) else LastRelease(events[..|events| - 1], conn)
  }

  /** Idle connections were handed back, and their idle time runs from then on. */
  ghost predicate IdleSinceRelease(pool: Pool, events: seq<Event>) {
    forall conn :: conn in pool.idle ==> SinceRelease(pool, events, conn)
  }

  ghost predicate SinceRelease(pool: Pool, events: seq<Event>, conn: Conn) {
    conn in pool.idleSince && LastRelease(events, conn) == Some(pool.idleSince[conn])
  }

  /** The connection is idle after a step as it was before, since the same time. */
  predicate StaysIdle(pool: Pool, after: Pool, conn: Conn) {
    conn in pool.idleSince && conn in after.idleSince && after.idleSince[conn] == pool.idleSince[conn]
  }

  lemma TurnKeepsIdleTime(pool: Pool, task: Task, now: real)
    ensures Turn(pool, task, now).pool.idleSince == pool.idleSince
  {
  }

  lemma DiscardKeepsIdleTime(pool: Pool, task: Task, other: Conn, next: Next, conn: Conn)
    requires conn in pool.idleSince && other != conn
    ensures StaysIdle(pool, StartDiscard(pool, task, other, next).pool, conn)
  {
  }

  lemma ReleaseKeepsIdleTime(pool: Pool, task: Task, other: Conn, now: real, conn: Conn)
    requires conn in pool.idleSince && other != conn
    ensures StaysIdle(pool, ReleaseStep(pool, task, other, now).pool, conn)
  {
    DiscardKeepsIdleTime(Unleased(pool, other, now), task, other, Finish, conn);
  }

  lemma CheckedKeepsIdleTime(pool: Pool, task: Task, other: Conn, usable: bool, conn: Conn)
    requires conn in pool.idleSince && other != conn
    ensures StaysIdle(pool, CheckedStep(pool, task, other, usable).pool, conn)
  {
    DiscardKeepsIdleTime(Leave(pool, task), task, other, Retry, conn);
  }

  lemma DrainKeepsIdleTime(pool: Pool, task: Task, conn: Conn)
    requires Apart(pool) && conn in pool.idleSince && conn in DrainIdle(pool, task).pool.idle
    ensures StaysIdle(pool, DrainIdle(pool, task).pool, conn)
  {
    if pool.idle != [] {
      var i :| 0 <= i < |pool.idle| - 1 && pool.idle[1..][i] == conn;
      assert pool.idle[i + 1] == conn && pool.idle[0] != conn;
      DiscardKeepsIdleTime(pool.(idle := pool.idle[1..]), task, pool.idle[0], Drain, conn);
    }
  }

  lemma ClosedKeepsIdleTime(pool: Pool, task: Task, now: real, conn: Conn)
    requires Sound(pool) && task in pool.phases && pool.phases[task].Closing? && conn in pool.idleSince
    requires conn in ClosedStep(pool, task, pool.phases[task].next, now).pool.idle
    ensures StaysIdle(pool, ClosedStep(pool, task, pool.phases[task].next, now).pool, conn)
  {
    Freeing(pool, task);
    match pool.phases[task].next
    case Retry => TurnKeepsIdleTime(Freed(pool, task), task, now);
    case Drain => DrainKeepsIdleTime(Freed(pool, task), task, conn);
    case Finish =>
  }

  /** These steps start and end no idle time. */
  lemma PlainKeepsIdleTime(pool: Pool, event: Event)
    requires Enabled(pool, event) && (event.Acquire? || event.Woken? || event.Created? || event.CreateFailed?)
    ensures Step(pool, event).pool.idleSince == pool.idleSince
  {
  }

  /** A connection that is idle is in nobody's hands. */
  lemma IdleIsInNoHands(pool: Pool, event: Event, conn: Conn)
    requires Sound(pool) && Allowed(pool, event) && conn in pool.idle
    ensures event.Release? || event.Discard? ==> event.conn != conn
    ensures event.Checked? ==> pool.phases[event.task].conn != conn
  {
  }

  lemma HandedKeepsIdleTime(pool: Pool, event: Event, conn: Conn)
    requires Enabled(pool, event) && (event.Checked? || event.Release? || event.Discard?) && conn in pool.idleSince
    requires event.Release? || event.Discard? ==> event.conn != conn
    requires event.Checked? ==> pool.phases[event.task].conn != conn
    ensures StaysIdle(pool, Step(pool, event).pool, conn)
  {
    if event.Checked? {
      CheckedKeepsIdleTime(pool, event.task, pool.phases[event.task].conn, event.usable, conn);
    } else if event.Release? {
      ReleaseKeepsIdleTime(pool, event.task, event.conn, event.now, conn);
    } else {
      DiscardKeepsIdleTime(pool, event.task, event.conn, Finish, conn);
    }
  }

  /** A step keeps the idle time of every connection that was idle before it and still is. */
  lemma IdleTimeStays(pool: Pool, event: Event, conn: Conn)
    requires Sound(pool) && Allowed(pool, event) && conn in pool.idle && conn in Step(pool, event).pool.idle
    requires conn in pool.idleSince
    ensures StaysIdle(pool, Step(pool, event).pool, conn)
    ensures event.Release? ==> event.conn != conn
  {
    IdleIsInNoHands(pool, event, conn);
    if event.Closed? {
      ClosedKeepsIdleTime(pool, event.task, event.now, conn);
    } else if event.CloseAll? {
      DrainKeepsIdleTime(pool.(closed := true), event.task, conn);
    } else if event.Checked? || event.Release? || event.Discard? {
      HandedKeepsIdleTime(pool, event, conn);
    } else {
      PlainKeepsIdleTime(pool, event);
    }
  }

  lemma NewlyIdle(pool: Pool, event: Event, conn: Conn)
    requires Enabled(pool, event) && conn !in pool.idle && conn in Step(pool, event).pool.idle
    ensures event.Release? && event.conn == conn
    ensures conn in Step(pool, event).pool.idleSince && Step(pool, event).pool.idleSince[conn] == event.now
  {
  }

  lemma {:induction false} RunsIdleSinceRelease(limit: nat, events: seq<Event>)
    requires AllowedRun(limit, events)
    ensures After(limit, events).Some? && IdleSinceRelease(After(limit, events).value, events)
  {
    if events != [] {
      var front, last := events[..|events| - 1], events[|events| - 1];
      RunsIdleSinceRelease(limit, front);
      RunsStaySound(limit, front);
      var pool := After(limit, front).value;
      forall conn | conn in Step(pool, last).pool.idle ensures SinceRelease(Step(pool, last).pool, events, conn) {
        if conn in pool.idle {
          assert SinceRelease(pool, front, conn);
          IdleTimeStays(pool, last, conn);
        } else {
          NewlyIdle(pool, last, conn);
        }
      }
    }
  }

  /** A task that looks for a connection: admitted just now, woken by a release, or back from closing an
      unusable one. */
  predicate Seeks(pool: Pool, event: Event)
    requires Enabled(pool, event)
  {
    || event.Woken?
    || (event.Closed? && pool.phases[event.task].next == Retry)
    || (event.Acquire? && Step(pool, event).outcome != Refused)
  }

  /** It takes the connection that is idle the longest. */
  predicate Takes(pool: Pool, event: Event, conn: Conn)
    requires Enabled(pool, event)
  {
    Seeks(pool, event) && pool.idle != [] && pool.idle[0] == conn
  }

  /** What a seeking task does with the idle connection it takes. */
  lemma TakingStep(pool: Pool, event: Event, conn: Conn)
    requires Enabled(pool, event) && Takes(pool, event, conn)
    ensures var recent, stepped := RecentlyUsed(pool, conn, event.now), Step(pool, event);
            && stepped.pool.idle == pool.idle[1..]
            && (recent ==> stepped.outcome == Granted(conn) && stepped.pool.leases == pool.leases[conn := event.task])
            && (!recent ==>
                  && stepped.outcome == Suspended && stepped.pool.leases == pool.leases
                  && event.task in stepped.pool.phases && stepped.pool.phases[event.task] == Checking(conn))
  {
  }

  /** An idle connection is lent in the step that takes it if and only if it was handed back less than
      sixty seconds before; otherwise the task is suspended until it is checked. */
  lemma IdleIsLentExactlyWhenFresh(limit: nat, events: seq<Event>, event: Event, conn: Conn)
    requires AllowedRun(limit, events)
    requires After(limit, events).Some? && Enabled(After(limit, events).value, event)
    requires Takes(After(limit, events).value, event, conn)
    ensures LastRelease(events, conn).Some?
    ensures var stepped, recent :=
              Step(After(limit, events).value, event), event.now - LastRelease(events, conn).value < 60.0;
            && (stepped.outcome == Granted(conn) <==> recent)
            && (conn in stepped.pool.leases <==> recent)
            && (!recent ==> event.task in stepped.pool.phases && stepped.pool.phases[event.task] == Checking(conn))
  {
    var pool := After(limit, events).value;
    RunsIdleSinceRelease(limit, events);
    RunsStaySound(limit, events);
    assert conn in pool.idle && SinceRelease(pool, events, conn);
    TakingStep(pool, event, conn);
  }

  /** What a seeking task gets besides: nothing. */
  lemma SeekingStep(pool: Pool, event: Event)
    requires Enabled(pool, event) && Seeks(pool, event) && pool.idle == []
    ensures Step(pool, event).outcome == Suspended
  {
  }

  lemma OtherSteps(pool: Pool, event: Event)
    requires Enabled(pool, event) && !Seeks(pool, event)
    ensures var outcome := Step(pool, event).outcome;
            if event.Created? then outcome == Granted(event.conn)
            else if event.Checked? && event.usable then outcome == Granted(pool.phases[event.task].conn)
            else !outcome.Granted?
  {
  }

  /** Nothing is lent but a connection that was made just now, one that passed its check just now, and
      one that was taken from the queue less than sixty seconds after it was handed back. */
  lemma GrantedExactly(limit: nat, events: seq<Event>, event: Event, conn: Conn)
    requires AllowedRun(limit, events)
    requires After(limit, events).Some? && Enabled(After(limit, events).value, event)
    ensures var pool := After(limit, events).value;
            Step(pool, event).outcome == Granted(conn) <==>
              || (event.Created? && event.conn == conn)
              || (event.Checked? && event.usable && pool.phases[event.task].conn == conn)
              || (Takes(pool, event, conn) && LastRelease(events, conn).Some?
                  && event.now - LastRelease(events, conn).value < 60.0)
  {
    var pool := After(limit, events).value;
    if Seeks(pool, event) {
      if pool.idle == [] {
        SeekingStep(pool, event);
      } else {
        IdleIsLentExactlyWhenFresh(limit, events, event, pool.idle[0]);
        TakingStep(pool, event, pool.idle[0]);
      }
    } else {
      OtherSteps(pool, event);
    }
  }

  // ---------------------------------------------------------------- the counters

  /** What one event adds to the counters of acquires, releases, creations and discards. */
  function Counts(pool: Pool, event: Event): (nat, nat, nat, nat)
    requires Enabled(pool, event)
  {
    var after := Step(pool, event).pool;
    (if event.Acquire? && Step(pool, event).outcome != Refused then 1 else 0,
     if event.Release? then 1 else 0,
     if event.Created? then 1 else 0,
     if event.task in after.phases && after.phases[event.task].Closing? then 1 else 0)
  }

  function Tally(limit: nat, events: seq<Event>): (nat, nat, nat, nat)
  {
    if events == [] then (0, 0, 0, 0)
    else
      var front, last := events[..|events| - 1], events[|events| - 1];
      var before := After(limit, front);
      var sum, more :=
        Tally(limit, front), if before.Some? && Enabled(before.value, last) then Counts(before.value, last)
          else (0, 0, 0, 0);
      (sum.0 + more.0, sum.1 + more.1, sum.2 + more.2, sum.3 + more.3)
  }

  /** A turn counts nothing, and closes nothing. */
  lemma TurnCounts(pool: Pool, task: Task, now: real)
    ensures var after := Turn(pool, task, now).pool;
            && after.metrics.(active := 0, peak := 0) == pool.metrics.(active := 0, peak := 0)
            && (task !in pool.phases ==> !(task in after.phases && after.phases[task].Closing?))
  {
  }

  lemma DrainCounts(pool: Pool, task: Task)
    requires task !in pool.phases
    ensures var after := DrainIdle(pool, task).pool;
            && (task in after.phases <==> pool.idle != []) && (pool.idle != [] ==> after.phases[task].Closing?)
            && after.metrics.(active := 0, discards := pool.metrics.discards) == pool.metrics.(active := 0)
            && after.metrics.discards == pool.metrics.discards + if pool.idle != [] then 1 else 0
  {
  }

  lemma ClosedCounts(pool: Pool, event: Event)
    requires Enabled(pool, event) && event.Closed?
    ensures AddsUp(pool, event)
  {
    var freed := Freed(pool, event.task);
    TurnCounts(freed, event.task, event.now);
    DrainCounts(freed, event.task);
  }

  lemma StepCounts(pool: Pool, event: Event)
    requires Enabled(pool, event)
    ensures AddsUp(pool, event)
  {
    match event
    case Acquire(task, now) => TurnCounts(Admitted(pool), task, now);
    case Closed(_, _) => ClosedCounts(pool, event);
    case CloseAll(task) => DrainCounts(pool.(closed := true), task);
    case _ =>
  }

  predicate AddsUp(pool: Pool, event: Event)
    requires Enabled(pool, event)
  {
    var more, after := Counts(pool, event), Step(pool, event).pool.metrics;
    && after.acquires == pool.metrics.acquires + more.0 && after.releases == pool.metrics.releases + more.1
    && after.creates == pool.metrics.creates + more.2 && after.discards == pool.metrics.discards + more.3
  }

  /** The counters count: acquires that were let in, releases, connections made, and closes begun. */
  lemma {:induction false} CountersCount(limit: nat, events: seq<Event>)
    requires After(limit, events).Some?
    ensures var metrics, tally := After(limit, events).value.metrics, Tally(limit, events);
            && metrics.acquires == tally.0 && metrics.releases == tally.1
            && metrics.creates == tally.2 && metrics.discards == tally.3
  {
    if events != [] {
      var front := events[..|events| - 1];
      CountersCount(limit, front);
      StepCounts(After(limit, front).value, events[|events| - 1]);
    }
  }
}
