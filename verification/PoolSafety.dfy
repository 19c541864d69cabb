/** Slot accounting of the pool in every interleaving. */
module PoolSafety {
  import opened Wrappers
  import opened PoolModel

  predicate Holding(phase: Phase) { phase.Checking? || phase.Closing? }

  /** The tasks that take up a slot. */
  function Occupants(phases: map<Task, Phase>): set<Task> { set task | task in phases && !phases[task].Waiting? }

  /** The connection is nowhere in the pool. */
  predicate Nowhere(pool: Pool, conn: Conn) {
    && conn !in pool.idle && conn !in pool.leases
    && forall task :: task in pool.phases && Holding(pool.phases[task]) ==> pool.phases[task].conn != conn
  }

  /** Every connection is in one place only: idle, leased, or in the hands of one task. */
  predicate Apart(pool: Pool) {
    && (forall i, j :: 0 <= i < j < |pool.idle| ==> pool.idle[i] != pool.idle[j])
    && (forall conn :: conn in pool.idle ==> conn !in pool.leases)
    && (forall task :: task in pool.phases && Holding(pool.phases[task]) ==>
          pool.phases[task].conn !in pool.idle && pool.phases[task].conn !in pool.leases)
    && forall a, b ::
      a in pool.phases && b in pool.phases && a != b && Holding(pool.phases[a]) && Holding(pool.phases[b]) ==>
         pool.phases[a].conn != pool.phases[b].conn
  }

  /** The slots are those of idle, leased and handled connections, and `extra` in passing. */
  predicate Counted(pool: Pool, extra: nat) {
    && pool.size == |pool.idle| + |pool.leases| + |Occupants(pool.phases)| + extra
    && pool.size <= pool.limit
    && pool.metrics.active == |pool.leases|
    && pool.metrics.active <= pool.metrics.peak <= pool.limit
  }

  predicate Sound(pool: Pool) { Apart(pool) && Counted(pool, 0) }

  /** What the pool's callers and the driver promise: a connection is handed back only while it
      is leased, and a new connection is none of those in the pool. */
  predicate Allowed(pool: Pool, event: Event) {
    && Enabled(pool, event)
    && (event.Release? || event.Discard? ==> event.conn in pool.leases)
    && (event.Created? ==> Nowhere(pool, event.conn))
  }

  // ---------------------------------------------------------------- pieces

  /** Soundness is a matter of the connections, the slots and the two gauges alone. */
  lemma SameSlots(pool: Pool, other: Pool)
    requires Sound(pool)
    requires other.idle == pool.idle && other.leases == pool.leases && other.phases == pool.phases
    requires other.size == pool.size && other.limit == pool.limit
    requires other.metrics.active == pool.metrics.active && other.metrics.peak == pool.metrics.peak
    ensures Sound(other)
  {
  }

  lemma Leaving(pool: Pool, task: Task)
    requires Apart(pool) && Counted(pool, 0) && task in pool.phases && !pool.phases[task].Waiting?
    ensures Apart(Leave(pool, task)) && Counted(Leave(pool, task), 1)
    ensures Holding(pool.phases[task]) ==> Nowhere(Leave(pool, task), pool.phases[task].conn)
  {
    assert Occupants(Leave(pool, task).phases) == Occupants(pool.phases) - {task};
  }

  lemma LeavingQueue(pool: Pool, task: Task)
    requires Sound(pool) && task in pool.phases && pool.phases[task].Waiting?
    ensures Sound(Leave(pool, task))
  {
    assert Occupants(Leave(pool, task).phases) == Occupants(pool.phases);
  }

  lemma Entering(pool: Pool, task: Task, phase: Phase, extra: nat)
    requires Apart(pool) && Counted(pool, extra) && task !in pool.phases
    requires phase.Waiting? <==> extra == 0
    requires extra <= 1 && (Holding(phase) ==> Nowhere(pool, phase.conn))
    ensures Sound(pool.(phases := pool.phases[task := phase]))
  {
    var phases := pool.phases[task := phase];
    assert Occupants(phases) == if phase.Waiting? then Occupants(pool.phases) else Occupants(pool.phases) + {task};
  }

  lemma Lending(pool: Pool, task: Task, conn: Conn)
    requires Apart(pool) && Counted(pool, 1) && Nowhere(pool, conn)
    ensures Sound(Lend(pool, task, conn))
  {
    assert pool.leases[conn := task].Keys == pool.leases.Keys + {conn};
    assert |pool.leases[conn := task].Keys| == |pool.leases[conn := task]|;
    assert |pool.leases.Keys| == |pool.leases|;
  }

  /** Ending a lease frees no slot: the connection is in passing. */
  lemma Unleasing(pool: Pool, conn: Conn)
    requires Sound(pool) && conn in pool.leases
    ensures var after := pool.(leases := Without(pool.leases, conn), metrics := LessActive(pool.metrics));
            Apart(after) && Counted(after, 1) && Nowhere(after, conn) && pool.metrics.active > 0
  {
    var left := Without(pool.leases, conn);
    assert left.Keys == pool.leases.Keys - {conn};
    assert |left.Keys| == |left| && |pool.leases.Keys| == |pool.leases|;
  }

  lemma Popping(pool: Pool)
    requires Sound(pool) && pool.idle != []
    ensures var after := pool.(idle := pool.idle[1..]);
            Apart(after) && Counted(after, 1) && Nowhere(after, pool.idle[0])
  {
    assert pool.idle[0] in pool.idle;
    forall conn | conn in pool.idle[1..] ensures conn in pool.idle {}
  }

  lemma Discarding(pool: Pool, task: Task, conn: Conn, next: Next)
    requires Apart(pool) && Counted(pool, 1) && Nowhere(pool, conn) && task !in pool.phases
    ensures Sound(StartDiscard(pool, task, conn, next).pool)
  {
    assert Without(pool.leases, conn) == pool.leases;
    Entering(pool, task, Closing(conn, next), 1);
  }

  lemma TakingIdle(pool: Pool, task: Task, now: real)
    requires Sound(pool) && pool.idle != [] && task !in pool.phases
    ensures Sound(TakeIdle(pool, task, now).pool)
  {
    var conn, rest := pool.idle[0], pool.(idle := pool.idle[1..]);
    Popping(pool);
    if RecentlyUsed(pool, conn, now) {
      Lending(rest, task, conn);
    } else {
      Entering(rest, task, Checking(conn), 1);
    }
  }

  lemma Turning(pool: Pool, task: Task, now: real)
    requires Sound(pool) && task !in pool.phases
    ensures Sound(Turn(pool, task, now).pool)
  {
    if pool.idle != [] {
      TakingIdle(pool, task, now);
    } else if pool.size < pool.limit {
      Entering(pool.(size := pool.size + 1), task, Creating, 1);
    } else {
      Entering(pool, task, Waiting, 0);
    }
  }

  lemma Draining(pool: Pool, task: Task)
    requires Sound(pool) && task !in pool.phases
    ensures Sound(DrainIdle(pool, task).pool)
  {
    if pool.idle != [] {
      Popping(pool);
      Discarding(pool.(idle := pool.idle[1..]), task, pool.idle[0], Drain);
    }
  }

  // ---------------------------------------------------------------- every step

  lemma CheckedKeeps(pool: Pool, task: Task, conn: Conn, usable: bool)
    requires Sound(pool) && task in pool.phases && pool.phases[task] == Checking(conn)
    ensures Sound(CheckedStep(pool, task, conn, usable).pool)
  {
    Leaving(pool, task);
    if usable {
      Lending(Leave(pool, task), task, conn);
    } else {
      Discarding(Leave(pool, task), task, conn, Retry);
    }
  }

  lemma CreatedKeeps(pool: Pool, task: Task, conn: Conn)
    requires Sound(pool) && Allowed(pool, Created(task, conn))
    ensures Sound(CreatedStep(pool, task, conn).pool)
  {
    Leaving(pool, task);
    Lending(Leave(pool, task).(metrics := pool.metrics.(creates := pool.metrics.creates + 1)), task, conn);
  }

  lemma Freeing(pool: Pool, task: Task)
    requires Sound(pool) && task in pool.phases && !pool.phases[task].Waiting?
    ensures pool.size > 0 && Sound(Freed(pool, task)) && Sound(Leave(pool, task).(size := pool.size - 1))
  {
    Leaving(pool, task);
  }

  lemma ClosedKeeps(pool: Pool, task: Task, next: Next, now: real)
    requires Sound(pool) && task in pool.phases && pool.phases[task].Closing?
    ensures Sound(ClosedStep(pool, task, next, now).pool)
  {
    Freeing(pool, task);
    match next
    case Retry => Turning(Freed(pool, task), task, now);
    case Drain => Draining(Freed(pool, task), task);
    case Finish =>
  }

  lemma ReleaseKeeps(pool: Pool, task: Task, conn: Conn, now: real)
    requires Sound(pool) && conn in pool.leases && task !in pool.phases
    ensures Sound(ReleaseStep(pool, task, conn, now).pool) && |pool.idle| < pool.limit
  {
    Unleasing(pool, conn);
    var back := Unleased(pool, conn, now);
    assert Apart(back) && Counted(back, 1) && Nowhere(back, conn);
    if pool.closed {
      Discarding(back, task, conn, Finish);
    } else {
      assert Sound(Shelved(back, conn));
    }
  }

  lemma DiscardKeeps(pool: Pool, task: Task, conn: Conn)
    requires Sound(pool) && conn in pool.leases && task !in pool.phases
    ensures Sound(StartDiscard(pool, task, conn, Finish).pool)
  {
    Unleasing(pool, conn);
    var after := pool.(leases := Without(pool.leases, conn), metrics := LessActive(pool.metrics));
    Entering(after, task, Closing(conn, Finish), 1);
  }

  lemma AcquireKeeps(pool: Pool, task: Task, now: real)
    requires Sound(pool) && task !in pool.phases
    ensures Sound(AcquireStep(pool, task, now).pool)
  {
    if !pool.closed && !CoolingDown(pool.breaker, now) {
      SameSlots(pool, Admitted(pool));
      Turning(Admitted(pool), task, now);
    }
  }

  lemma CloseAllKeeps(pool: Pool, task: Task)
    requires Sound(pool) && task !in pool.phases
    ensures Sound(DrainIdle(pool.(closed := true), task).pool)
  {
    assert Sound(pool.(closed := true));
    Draining(pool.(closed := true), task);
  }

  lemma WokenKeeps(pool: Pool, task: Task, now: real)
    requires Sound(pool) && Allowed(pool, Woken(task, now))
    ensures Sound(TakeIdle(Leave(pool, task), task, now).pool)
  {
    LeavingQueue(pool, task);
    TakingIdle(Leave(pool, task), task, now);
  }

  /** Whatever task moves next, every slot stays accounted for. */
  lemma StepKeepsSound(pool: Pool, event: Event)
    requires Sound(pool) && Allowed(pool, event)
    ensures Sound(Step(pool, event).pool)
  {
    match event
    case Acquire(task, now) => AcquireKeeps(pool, task, now);
    case Checked(task, usable) => CheckedKeeps(pool, task, pool.phases[task].conn, usable);
    case Created(task, conn) => CreatedKeeps(pool, task, conn);
    case CreateFailed(task, now) => Freeing(pool, task);
    case Woken(task, now) => WokenKeeps(pool, task, now);
    case Closed(task, now) => ClosedKeeps(pool, task, pool.phases[task].next, now);
    case Release(task, conn, now) => ReleaseKeeps(pool, task, conn, now);
    case Discard(task, conn) => DiscardKeeps(pool, task, conn);
    case CloseAll(task) => CloseAllKeeps(pool, task);
  }

  // ---------------------------------------------------------------- whole runs

  predicate AllowedRun(limit: nat, events: seq<Event>) {
    events == [] ||
    var before := After(limit, events[..|events| - 1]);
    AllowedRun(limit, events[..|events| - 1]) && before.Some? && Allowed(before.value, events[|events| - 1])
  }

  lemma {:induction false} RunsStaySound(limit: nat, events: seq<Event>)
    requires AllowedRun(limit, events)
    ensures After(limit, events).Some? && Sound(After(limit, events).value) && After(limit, events).value.limit == limit
  {
    if events == [] {
      assert Occupants(Empty(limit).phases) == {};
    } else {
      RunsStaySound(limit, events[..|events| - 1]);
      var before := After(limit, events[..|events| - 1]).value;
      StepKeepsSound(before, events[|events| - 1]);
      StepKeepsLimit(before, events[|events| - 1]);
    }
  }

  lemma StepKeepsLimit(pool: Pool, event: Event)
    requires Enabled(pool, event)
    ensures Step(pool, event).pool.limit == pool.limit
  {
  }

  lemma OneMore(limit: nat, events: seq<Event>, pool: Pool, event: Event)
    requires AllowedRun(limit, events) && After(limit, events) == Some(pool) && Allowed(pool, event)
    ensures AllowedRun(limit, events + [event]) && After(limit, events + [event]) == Some(Step(pool, event).pool)
  {
    assert (events + [event])[..|events|] == events;
  }

  /** The slots the pool counts are its connections and the attempts to make one; never more than allowed. */
  lemma SlotsAreAccountedFor(limit: nat, events: seq<Event>)
    requires AllowedRun(limit, events)
    ensures After(limit, events).Some?
    ensures var pool := After(limit, events).value;
            && pool.size == |pool.idle| + |pool.leases| + |Occupants(pool.phases)| <= limit
            && pool.metrics.active == |pool.leases| <= pool.metrics.peak <= limit
  {
    RunsStaySound(limit, events);
  }

  /** The guards are never needed: a release finds room in the queue, a finished close finds a slot
      to give back, and the number of active connections is positive when it is lowered. */
  lemma GuardsNeverAct(limit: nat, events: seq<Event>, next: Event)
    requires AllowedRun(limit, events + [next])
    ensures After(limit, events).Some?
    ensures var pool := After(limit, events).value;
            && (next.Release? ==> |pool.idle| < pool.limit && pool.metrics.active > 0)
            && (next.Discard? ==> pool.metrics.active > 0)
            && (next.Closed? || next.CreateFailed? ==> pool.size > 0)
  {
    assert (events + [next])[..|events|] == events;
    RunsStaySound(limit, events);
    var pool := After(limit, events).value;
    if next.Release? || next.Discard? {
      Unleasing(pool, next.conn);
    } else if next.Closed? || next.CreateFailed? {
      Freeing(pool, next.task);
    }
  }
}
