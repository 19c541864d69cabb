/** The circuit breaker read off the history of the connection attempts, and the limits of waiting. */
module PoolBreaker {
  import opened Wrappers
  import opened PoolModel
  import opened PoolSafety

  /** Probe: an acquire let through because the cooldown of an open breaker had passed. */
  datatype Mark = Success | Failure(at: real) | Probe

  function MarksOf(pool: Pool, event: Event): seq<Mark>
    requires Enabled(pool, event)
  {
    var outcome := Step(pool, event).outcome;
    (if event.Acquire? && outcome != Refused && pool.breaker.open then [Probe] else [])
    + (if event.CreateFailed? then [Failure(event.now)] else [])
    + (if outcome.Granted? then [Success] else [])
  }

  function History(limit: nat, events: seq<Event>): seq<Mark>
  {
    if events == [] then []
    else
      var before, last := After(limit, events[..|events| - 1]), events[|events| - 1];
      History(limit, events[..|events| - 1])
      + if before.Some? && Enabled(before.value, last) then MarksOf(before.value, last) else []
  }

  /** Failures since the last success. */
  function Streak(history: seq<Mark>): nat {
    if history == [] then 0
    else
      var front, last := history[..|history| - 1], history[|history| - 1];
      if last.Success? then 0 else Streak(front) + if last.Failure? then 1 else 0
  }

  /** Five failures in a row, and nothing but failures since the last probe or success. */
  predicate Tripped(history: seq<Mark>) {
    history != [] && history[|history| - 1].Failure? && Streak(history) >= 5
  }

  predicate Reads(breaker: Breaker, history: seq<Mark>) {
    && breaker.failures == Streak(history)
    && breaker.open == Tripped(history)
    && (Tripped(history) ==> breaker.lastFailure == history[|history| - 1].at)
  }

  function Marked(breaker: Breaker, mark: Mark): Breaker {
    match mark case Success => Succeed(breaker) case Failure(at) => Fail(breaker, at) case Probe => Admit(breaker)
  }

  lemma MarkReads(breaker: Breaker, history: seq<Mark>, mark: Mark)
    requires Reads(breaker, history)
    ensures Reads(Marked(breaker, mark), history + [mark])
  {
    assert (history + [mark])[..|history|] == history;
  }

  function MarkedAll(breaker: Breaker, marks: seq<Mark>): Breaker
    decreases |marks|
  {
    if marks == [] then breaker else MarkedAll(Marked(breaker, marks[0]), marks[1..])
  }

  lemma {:induction false} MarksRead(breaker: Breaker, history: seq<Mark>, marks: seq<Mark>)
    requires Reads(breaker, history)
    ensures Reads(MarkedAll(breaker, marks), history + marks)
    decreases |marks|
  {
    if marks == [] {
      assert history + marks == history;
    } else {
      MarkReads(breaker, history, marks[0]);
      MarksRead(Marked(breaker, marks[0]), history + [marks[0]], marks[1..]);
      assert history + marks == history + [marks[0]] + marks[1..];
    }
  }

  lemma FewMarks(breaker: Breaker, first: Mark, second: Mark)
    ensures MarkedAll(breaker, [first]) == Marked(breaker, first)
    ensures MarkedAll(breaker, [first, second]) == Marked(Marked(breaker, first), second)
  {
    assert [first, second][1..] == [second];
    assert MarkedAll(Marked(breaker, first), [second]) == Marked(Marked(breaker, first), second);
  }

  lemma TurnMarks(pool: Pool, task: Task, now: real)
    ensures var turned := Turn(pool, task, now);
            && turned.outcome != Refused
            && turned.pool.breaker == if turned.outcome.Granted? then Succeed(pool.breaker) else pool.breaker
  {
  }

  /** The breaker changes by marks only. */
  lemma StepMarks(pool: Pool, event: Event)
    requires Enabled(pool, event)
    ensures Step(pool, event).pool.breaker == MarkedAll(pool.breaker, MarksOf(pool, event))
  {
    if event.Acquire? {
      TurnMarks(Admitted(pool), event.task, event.now);
      FewMarks(pool.breaker, Probe, Success);
      if pool.breaker.open && Step(pool, event).outcome.Granted? {
        assert MarksOf(pool, event) == [Probe, Success];
      }
    } else if event.Closed? {
      TurnMarks(Freed(pool, event.task), event.task, event.now);
    }
  }

  lemma {:induction false} BreakerReadsHistory(limit: nat, events: seq<Event>)
    ensures After(limit, events).Some? ==> Reads(After(limit, events).value.breaker, History(limit, events))
  {
    if events != [] {
      var front, last := events[..|events| - 1], events[|events| - 1];
      BreakerReadsHistory(limit, front);
      if After(limit, front).Some? && Enabled(After(limit, front).value, last) {
        var before := After(limit, front).value;
        StepMarks(before, last);
        MarksRead(before.breaker, History(limit, front), MarksOf(before, last));
      }
    }
  }

  /** An acquire is refused exactly when the pool is closed, or the last attempts were at least five
      failures in a row, without a probe after them, and the last of them is less than a cooldown ago. */
  lemma RefusedExactlyWhenTripped(limit: nat, events: seq<Event>, task: Task, now: real)
    requires After(limit, events).Some? && Enabled(After(limit, events).value, Acquire(task, now))
    ensures var pool, history := After(limit, events).value, History(limit, events);
            Step(pool, Acquire(task, now)).outcome == Refused <==>
              pool.closed || (Tripped(history) && now - history[|history| - 1].at < 30.0)
  {
    BreakerReadsHistory(limit, events);
  }

  // ---------------------------------------------------------------- waiting

  /** Nothing but the release of a connection ever puts one where a waiting task can get it. */
  lemma OnlyReleasesFeedTheQueue(pool: Pool, event: Event, conn: Conn)
    requires Enabled(pool, event) && conn !in pool.idle && conn in Step(pool, event).pool.idle
    ensures event.Release? && event.conn == conn && !pool.closed
  {
  }

  ghost predicate SomeoneWaits(pool: Pool) { exists task :: task in pool.phases && pool.phases[task].Waiting? }

  /** A task waits although a slot is free, so that it could make a connection of its own. */
  ghost predicate WaitsBesideSlot(pool: Pool) {
    pool.size < pool.limit && SomeoneWaits(pool)
  }

  /** It comes to that only when a slot is given back: at the end of a close or at a failed creation. */
  lemma OnlyFreedSlotsAreMissed(pool: Pool, event: Event)
    requires Enabled(pool, event) && !WaitsBesideSlot(pool) && WaitsBesideSlot(Step(pool, event).pool)
    ensures event.Closed? || event.CreateFailed?
  {
    var after := Step(pool, event).pool;
    var task :| task in after.phases && after.phases[task].Waiting?;
    assert task in pool.phases && pool.phases[task].Waiting? ==> pool.size >= pool.limit;
  }

  /** An acquire that goes on after its close takes the freed slot again when nothing is idle. */
  predicate TakesSlotAgain(pool: Pool, event: Event)
    requires Enabled(pool, event)
  {
    event.Closed? && pool.phases[event.task].next == Retry && pool.idle == [] && pool.size == pool.limit
  }

  lemma TurnMisses(pool: Pool, task: Task, now: real)
    requires task !in pool.phases && pool.size <= pool.limit
    ensures WaitsBesideSlot(Turn(pool, task, now).pool) <==>
              SomeoneWaits(pool) && (if pool.idle != [] then pool.size < pool.limit else pool.size + 1 < pool.limit)
  {
    var after := Turn(pool, task, now).pool;
    if SomeoneWaits(pool) {
      var waiter :| waiter in pool.phases && pool.phases[waiter].Waiting?;
      assert waiter in after.phases && after.phases[waiter].Waiting?;
    }
  }

  lemma FreeingKeepsWaiters(pool: Pool, task: Task)
    requires Sound(pool) && task in pool.phases && !pool.phases[task].Waiting?
    ensures SomeoneWaits(Freed(pool, task)) <==> SomeoneWaits(pool)
    ensures Freed(pool, task).size == pool.size - 1 && pool.size <= pool.limit
  {
    var after := Freed(pool, task);
    Freeing(pool, task);
    if SomeoneWaits(pool) {
      var waiter :| waiter in pool.phases && pool.phases[waiter].Waiting?;
      assert waiter in after.phases && after.phases[waiter].Waiting?;
    }
  }

  lemma DrainMisses(pool: Pool, task: Task)
    requires task !in pool.phases
    ensures WaitsBesideSlot(DrainIdle(pool, task).pool) <==> WaitsBesideSlot(pool)
  {
    var after := DrainIdle(pool, task).pool;
    if SomeoneWaits(pool) {
      var waiter :| waiter in pool.phases && pool.phases[waiter].Waiting?;
      assert waiter in after.phases && after.phases[waiter].Waiting?;
    }
  }

  /** When a slot is given back, it is missed exactly when some task waits, unless the same step takes
      it again. */
  lemma FreedSlotIsMissedExactly(pool: Pool, event: Event)
    requires Sound(pool) && Enabled(pool, event) && (event.CreateFailed? || event.Closed?)
    ensures WaitsBesideSlot(Step(pool, event).pool) <==> SomeoneWaits(pool) && !TakesSlotAgain(pool, event)
  {
    var freed := Freed(pool, event.task);
    FreeingKeepsWaiters(pool, event.task);
    if event.Closed? {
      match pool.phases[event.task].next
      case Retry => TurnMisses(freed, event.task, event.now);
      case Drain => DrainMisses(freed, event.task);
      case Finish =>
    } else {
      var after := Step(pool, event).pool;
      assert after.phases == freed.phases && after.size == freed.size;
    }
  }

  /** Nothing is discarded, no check or creation fails, and the pool is not closed. */
  predicate Smooth(event: Event) {
    !event.Discard? && !event.CloseAll? && !event.CreateFailed? && (event.Checked? ==> event.usable)
  }

  predicate Calm(pool: Pool) {
    !pool.closed && forall task :: task in pool.phases ==> !pool.phases[task].Closing?
  }

  lemma TurnStaysCalm(pool: Pool, task: Task, now: real)
    requires Calm(pool)
    ensures Calm(Turn(pool, task, now).pool)
    ensures pool.idle != [] ==> Calm(TakeIdle(pool, task, now).pool)
  {
  }

  lemma SmoothStaysCalm(pool: Pool, event: Event)
    requires Sound(pool) && Calm(pool) && Allowed(pool, event) && Smooth(event)
    ensures Calm(Step(pool, event).pool) && !event.Closed?
  {
    match event
    case Acquire(task, now) => TurnStaysCalm(Admitted(pool), task, now);
    case Woken(task, now) => TurnStaysCalm(Leave(pool, task), task, now);
    case Release(task, conn, now) => ReleaseKeeps(pool, task, conn, now);
    case _ =>
  }

  /** So no task waits beside a free slot in a run in which nothing is discarded and nothing fails. */
  lemma {:induction false} SmoothRunsMissNoSlot(limit: nat, events: seq<Event>)
    requires AllowedRun(limit, events) && forall i :: 0 <= i < |events| ==> Smooth(events[i])
    ensures After(limit, events).Some? && Calm(After(limit, events).value)
            && !WaitsBesideSlot(After(limit, events).value)
  {
    if events != [] {
      var front, last := events[..|events| - 1], events[|events| - 1];
      SmoothRunsMissNoSlot(limit, front);
      RunsStaySound(limit, front);
      var pool := After(limit, front).value;
      SmoothStaysCalm(pool, last);
      if WaitsBesideSlot(Step(pool, last).pool) {
        OnlyFreedSlotsAreMissed(pool, last);
      }
    }
  }

  /** Every task in the pool is waiting, and no connection is left to come back. */
  predicate Stranded(pool: Pool) {
    && pool.idle == [] && pool.leases == map[] && pool.phases != map[]
    && forall task :: task in pool.phases ==> pool.phases[task].Waiting?
  }

  /** A stranded pool has all its slots free, and stays as it is until somebody else acquires. */
  lemma StrandedStays(pool: Pool, event: Event)
    requires Sound(pool) && Stranded(pool) && Allowed(pool, event) && !event.Acquire?
    ensures pool.size == 0
    ensures var after := Step(pool, event).pool; Stranded(after) && after.phases == pool.phases
  {
    assert Occupants(pool.phases) == {};
  }

  lemma WaitBehindALease() returns (events: seq<Event>, pool: Pool)
    ensures AllowedRun(1, events) && After(1, events) == Some(pool)
    ensures pool.size == 1 && pool.idle == [] && pool.leases == map[7 := 1] && pool.phases == map[2 := Waiting]
  {
    pool, events := Empty(1), [];
    OneMore(1, events, pool, Acquire(1, 0.0));
    pool, events := Step(pool, Acquire(1, 0.0)).pool, events + [Acquire(1, 0.0)];
    OneMore(1, events, pool, Created(1, 7));
    pool, events := Step(pool, Created(1, 7)).pool, events + [Created(1, 7)];
    OneMore(1, events, pool, Acquire(2, 0.0));
    pool, events := Step(pool, Acquire(2, 0.0)).pool, events + [Acquire(2, 0.0)];
  }

  /** Discarding the last lease strands everybody who waits: the slot is freed and nobody is woken. */
  lemma LastDiscardStrands(pool: Pool, task: Task, conn: Conn, now: real)
    requires Sound(pool) && pool.idle == [] && pool.leases.Keys == {conn} && pool.phases != map[]
             && task !in pool.phases
    requires forall other :: other in pool.phases ==> pool.phases[other].Waiting?
    ensures var between := Step(pool, Discard(task, conn)).pool;
            Allowed(between, Closed(task, now)) && Stranded(Step(between, Closed(task, now)).pool)
  {
    var between := Step(pool, Discard(task, conn)).pool;
    var after := Step(between, Closed(task, now)).pool;
    assert after.phases == pool.phases;
    assert after.leases == map[];
  }

  /** So a run may leave a task waiting although the pool's only slot is free. */
  lemma RunsMayStrand() returns (events: seq<Event>)
    ensures AllowedRun(1, events) && After(1, events).Some? && Stranded(After(1, events).value)
  {
    var pool: Pool;
    events, pool := WaitBehindALease();
    RunsStaySound(1, events);
    assert 2 in pool.phases;
    LastDiscardStrands(pool, 1, 7, 0.0);
    OneMore(1, events, pool, Discard(1, 7));
    OneMore(1, events + [Discard(1, 7)], Step(pool, Discard(1, 7)).pool, Closed(1, 0.0));
    events := events + [Discard(1, 7)] + [Closed(1, 0.0)];
  }
}
