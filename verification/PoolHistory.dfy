/** What the pool's counters and its queue say of a whole run. */
module PoolHistory {
  import opened PoolModel
  import opened PoolSafety

  // ---------------------------------------------------------------- no connection is lost

  function CheckingTasks(phases: map<Task, Phase>): set<Task> { set task | task in phases && phases[task].Checking? }

  /** The connections that were made and not discarded yet; `extra` are in passing. */
  predicate Balanced(pool: Pool, extra: nat) {
    pool.metrics.creates == pool.metrics.discards + |pool.idle| + |pool.leases| + |CheckingTasks(pool.phases)| + extra
  }

  lemma LeavingBalance(pool: Pool, task: Task)
    requires Balanced(pool, 0) && task in pool.phases
    ensures Balanced(Leave(pool, task), if pool.phases[task].Checking? then 1 else 0)
  {
    assert CheckingTasks(Leave(pool, task).phases) == CheckingTasks(pool.phases) - {task};
  }

  lemma EnteringBalance(pool: Pool, task: Task, phase: Phase)
    requires Balanced(pool, if phase.Checking? then 1 else 0) && task !in pool.phases
    ensures Balanced(pool.(phases := pool.phases[task := phase]), 0)
  {
    var phases := pool.phases[task := phase];
    assert CheckingTasks(phases) == if phase.Checking? then CheckingTasks(pool.phases) + {task}
           else CheckingTasks(pool.phases);
  }

  lemma LendingBalance(pool: Pool, task: Task, conn: Conn)
    requires Balanced(pool, 1) && conn !in pool.leases
    ensures Balanced(Lend(pool, task, conn), 0)
  {
    assert pool.leases[conn := task].Keys == pool.leases.Keys + {conn};
    assert |pool.leases[conn := task].Keys| == |pool.leases[conn := task]| && |pool.leases.Keys| == |pool.leases|;
  }

  lemma UnleasingBalance(leases: map<Conn, Task>, conn: Conn)
    ensures |Without(leases, conn)| == |leases| - if conn in leases then 1 else 0
  {
    assert Without(leases, conn).Keys == leases.Keys - {conn};
    assert |Without(leases, conn).Keys| == |Without(leases, conn)| && |leases.Keys| == |leases|;
  }

  /** A connection in passing, or one that is leased, is counted as discarded. */
  lemma DiscardingBalance(pool: Pool, task: Task, conn: Conn, next: Next)
    requires Balanced(pool, if conn in pool.leases then 0 else 1) && task !in pool.phases
    ensures Balanced(StartDiscard(pool, task, conn, next).pool, 0)
  {
    UnleasingBalance(pool.leases, conn);
    var phases := pool.phases[task := Closing(conn, next)];
    assert CheckingTasks(phases) == CheckingTasks(pool.phases);
  }

  lemma TakingBalance(pool: Pool, task: Task, now: real)
    requires Balanced(pool, 0) && pool.idle != [] && pool.idle[0] !in pool.leases && task !in pool.phases
    ensures Balanced(TakeIdle(pool, task, now).pool, 0)
  {
    var conn, rest := pool.idle[0], pool.(idle := pool.idle[1..]);
    assert Balanced(rest, 1);
    if RecentlyUsed(pool, conn, now) {
      LendingBalance(rest, task, conn);
    } else {
      EnteringBalance(rest, task, Checking(conn));
    }
  }

  lemma TurningBalance(pool: Pool, task: Task, now: real)
    requires Balanced(pool, 0) && Sound(pool) && task !in pool.phases
    ensures Balanced(Turn(pool, task, now).pool, 0)
  {
    if pool.idle != [] {
      assert pool.idle[0] in pool.idle;
      TakingBalance(pool, task, now);
    } else if pool.size < pool.limit {
      EnteringBalance(pool.(size := pool.size + 1), task, Creating);
    } else {
      EnteringBalance(pool, task, Waiting);
    }
  }

  lemma DrainingBalance(pool: Pool, task: Task)
    requires Balanced(pool, 0) && Sound(pool) && task !in pool.phases
    ensures Balanced(DrainIdle(pool, task).pool, 0)
  {
    if pool.idle != [] {
      assert pool.idle[0] in pool.idle;
      DiscardingBalance(pool.(idle := pool.idle[1..]), task, pool.idle[0], Drain);
    }
  }

  lemma ReleaseBalance(pool: Pool, task: Task, conn: Conn, now: real)
    requires Balanced(pool, 0) && conn in pool.leases && task !in pool.phases
    ensures Balanced(ReleaseStep(pool, task, conn, now).pool, 0)
  {
    UnleasingBalance(pool.leases, conn);
    var back := Unleased(pool, conn, now);
    assert Balanced(back, 1);
    if pool.closed || |pool.idle| >= pool.limit {
      DiscardingBalance(back, task, conn, Finish);
    }
  }

  lemma CheckedBalance(pool: Pool, event: Event)
    requires Balanced(pool, 0) && Sound(pool) && Allowed(pool, event) && event.Checked?
    ensures Balanced(Step(pool, event).pool, 0)
  {
    var task, conn := event.task, pool.phases[event.task].conn;
    LeavingBalance(pool, task);
    if event.usable {
      LendingBalance(Leave(pool, task), task, conn);
    } else {
      DiscardingBalance(Leave(pool, task), task, conn, Retry);
    }
  }

  lemma CreatedBalance(pool: Pool, event: Event)
    requires Balanced(pool, 0) && Allowed(pool, event) && event.Created?
    ensures Balanced(Step(pool, event).pool, 0)
  {
    LeavingBalance(pool, event.task);
    LendingBalance(Leave(pool, event.task).(metrics := pool.metrics.(creates := pool.metrics.creates + 1)), event.task,
      event.conn);
  }

  lemma ClosedBalance(pool: Pool, event: Event)
    requires Balanced(pool, 0) && Sound(pool) && Allowed(pool, event) && event.Closed?
    ensures Balanced(Step(pool, event).pool, 0)
  {
    LeavingBalance(pool, event.task);
    Freeing(pool, event.task);
    var freed := Freed(pool, event.task);
    assert Balanced(freed, 0);
    match pool.phases[event.task].next
    case Retry => TurningBalance(freed, event.task, event.now);
    case Drain => DrainingBalance(freed, event.task);
    case Finish =>
  }

  lemma AcquireBalance(pool: Pool, task: Task, now: real)
    requires Balanced(pool, 0) && Sound(pool) && task !in pool.phases
    ensures Balanced(AcquireStep(pool, task, now).pool, 0)
  {
    SameSlots(pool, Admitted(pool));
    TurningBalance(Admitted(pool), task, now);
  }

  lemma WokenBalance(pool: Pool, task: Task, now: real)
    requires Balanced(pool, 0) && Sound(pool) && task in pool.phases && pool.phases[task].Waiting? && pool.idle != []
    ensures Balanced(TakeIdle(Leave(pool, task), task, now).pool, 0)
  {
    LeavingBalance(pool, task);
    assert pool.idle[0] in pool.idle;
    TakingBalance(Leave(pool, task), task, now);
  }

  lemma CloseAllBalance(pool: Pool, task: Task)
    requires Balanced(pool, 0) && Sound(pool) && task !in pool.phases
    ensures Balanced(DrainIdle(pool.(closed := true), task).pool, 0)
  {
    SameSlots(pool, pool.(closed := true));
    DrainingBalance(pool.(closed := true), task);
  }

  lemma StepBalance(pool: Pool, event: Event)
    requires Balanced(pool, 0) && Sound(pool) && Allowed(pool, event)
    ensures Balanced(Step(pool, event).pool, 0)
  {
    match event
    case Acquire(task, now) => AcquireBalance(pool, task, now);
    case Checked(_, _) => CheckedBalance(pool, event);
    case Created(_, _) => CreatedBalance(pool, event);
    case CreateFailed(task, _) => LeavingBalance(pool, task);
    case Woken(task, now) => WokenBalance(pool, task, now);
    case Closed(_, _) => ClosedBalance(pool, event);
    case Release(task, conn, now) => ReleaseBalance(pool, task, conn, now);
    case Discard(task, conn) => DiscardingBalance(pool, task, conn, Finish);
    case CloseAll(task) => CloseAllBalance(pool, task);
  }

  /** Conservation: every connection that was ever made is idle, leased, being checked, or was
      discarded, and each only once. */
  lemma {:induction false} NoConnectionIsLost(limit: nat, events: seq<Event>)
    requires AllowedRun(limit, events)
    ensures After(limit, events).Some? && Balanced(After(limit, events).value, 0)
  {
    if events == [] {
      assert CheckingTasks(Empty(limit).phases) == {};
    } else {
      var front := events[..|events| - 1];
      NoConnectionIsLost(limit, front);
      RunsStaySound(limit, front);
      StepBalance(After(limit, front).value, events[|events| - 1]);
    }
  }

  // ---------------------------------------------------------------- the peak

  function Larger(a: nat, b: nat): nat { if a < b then b else a }

  /** The most connections that were active at once. */
  function MostActive(limit: nat, events: seq<Event>): nat
    requires After(limit, events).Some?
  {
    if events == [] then 0
    else Larger(MostActive(limit, events[..|events| - 1]), After(limit, events).value.metrics.active)
  }

  predicate PeakFollows(before: Metrics, after: Metrics) {
    after.peak == Larger(before.peak, after.active) && after.active <= after.peak
  }

  lemma TurnPeak(pool: Pool, task: Task, now: real)
    requires pool.metrics.active <= pool.metrics.peak
    ensures PeakFollows(pool.metrics, Turn(pool, task, now).pool.metrics)
  {
  }

  lemma StepPeak(pool: Pool, event: Event)
    requires Enabled(pool, event) && pool.metrics.active <= pool.metrics.peak
    ensures PeakFollows(pool.metrics, Step(pool, event).pool.metrics)
  {
    if event.Acquire? {
      TurnPeak(Admitted(pool), event.task, event.now);
    } else if event.Closed? {
      TurnPeak(Freed(pool, event.task), event.task, event.now);
    }
  }

  lemma {:induction false} PeakIsMostActive(limit: nat, events: seq<Event>)
    requires After(limit, events).Some?
    ensures After(limit, events).value.metrics.peak == MostActive(limit, events)
    ensures After(limit, events).value.metrics.active <= After(limit, events).value.metrics.peak
  {
    if events != [] {
      PeakIsMostActive(limit, events[..|events| - 1]);
      StepPeak(After(limit, events[..|events| - 1]).value, events[|events| - 1]);
    }
  }

  // ---------------------------------------------------------------- the queue

  /** Idle connections stand in the order of their release. */
  predicate InReleaseOrder(pool: Pool, latest: real) {
    && (forall conn :: conn in pool.idleSince ==> pool.idleSince[conn] <= latest)
    && (forall conn :: conn in pool.idle ==> conn in pool.idleSince)
    && forall i, j :: 0 <= i < j < |pool.idle| ==> pool.idleSince[pool.idle[i]] <= pool.idleSince[pool.idle[j]]
  }

  predicate ReleasedBy(event: Event, latest: real) { event.Release? ==> event.now <= latest }

  lemma DiscardKeepsOrder(pool: Pool, task: Task, conn: Conn, next: Next, latest: real)
    requires InReleaseOrder(pool, latest) && conn !in pool.idle
    ensures InReleaseOrder(StartDiscard(pool, task, conn, next).pool, latest)
  {
    var after := StartDiscard(pool, task, conn, next).pool;
    forall other | other in after.idle
      ensures other in after.idleSince && after.idleSince[other] == pool.idleSince[other] {}
  }

  lemma PopKeepsOrder(pool: Pool, latest: real)
    requires Sound(pool) && InReleaseOrder(pool, latest) && pool.idle != []
    ensures InReleaseOrder(pool.(idle := pool.idle[1..]), latest) && pool.idle[0] !in pool.idle[1..]
  {
    forall conn | conn in pool.idle[1..] ensures conn in pool.idle {}
  }

  lemma TurnKeepsOrder(pool: Pool, task: Task, now: real, latest: real)
    requires Sound(pool) && InReleaseOrder(pool, latest)
    ensures InReleaseOrder(Turn(pool, task, now).pool, latest)
  {
    if pool.idle != [] {
      PopKeepsOrder(pool, latest);
    }
  }

  lemma DrainKeepsOrder(pool: Pool, task: Task, latest: real)
    requires Sound(pool) && InReleaseOrder(pool, latest)
    ensures InReleaseOrder(DrainIdle(pool, task).pool, latest)
  {
    if pool.idle != [] {
      PopKeepsOrder(pool, latest);
      DiscardKeepsOrder(pool.(idle := pool.idle[1..]), task, pool.idle[0], Drain, latest);
    }
  }

  lemma ReleaseKeepsOrder(pool: Pool, task: Task, conn: Conn, now: real, latest: real)
    requires Sound(pool) && InReleaseOrder(pool, latest) && conn in pool.leases && latest <= now
    ensures InReleaseOrder(ReleaseStep(pool, task, conn, now).pool, now)
  {
    var back := Unleased(pool, conn, now);
    assert conn !in pool.idle;
    forall other | other in back.idle ensures back.idleSince[other] == pool.idleSince[other] {}
    assert InReleaseOrder(back, now);
    if pool.closed || |pool.idle| >= pool.limit {
      DiscardKeepsOrder(back, task, conn, Finish, now);
    }
  }

  /** The order is a matter of the queue and the release times alone. */
  lemma SameOrder(pool: Pool, other: Pool, latest: real)
    requires InReleaseOrder(pool, latest) && other.idle == pool.idle && other.idleSince == pool.idleSince
    ensures InReleaseOrder(other, latest)
  {
  }

  lemma ClosedKeepsOrder(pool: Pool, task: Task, now: real, latest: real)
    requires Sound(pool) && InReleaseOrder(pool, latest) && task in pool.phases && pool.phases[task].Closing?
    ensures InReleaseOrder(ClosedStep(pool, task, pool.phases[task].next, now).pool, latest)
  {
    Freeing(pool, task);
    SameOrder(pool, Freed(pool, task), latest);
    if pool.phases[task].next == Retry {
      TurnKeepsOrder(Freed(pool, task), task, now, latest);
    } else {
      DrainKeepsOrder(Freed(pool, task), task, latest);
    }
  }

  lemma AcquireKeepsOrder(pool: Pool, task: Task, now: real, latest: real)
    requires Sound(pool) && InReleaseOrder(pool, latest)
    ensures InReleaseOrder(AcquireStep(pool, task, now).pool, latest)
  {
    SameSlots(pool, Admitted(pool));
    SameOrder(pool, Admitted(pool), latest);
    TurnKeepsOrder(Admitted(pool), task, now, latest);
  }

  lemma WokenKeepsOrder(pool: Pool, task: Task, now: real, latest: real)
    requires Sound(pool) && InReleaseOrder(pool, latest) && pool.idle != []
    ensures InReleaseOrder(TakeIdle(Leave(pool, task), task, now).pool, latest)
  {
    PopKeepsOrder(pool, latest);
    SameOrder(pool.(idle := pool.idle[1..]), TakeIdle(Leave(pool, task), task, now).pool, latest);
  }

  lemma CheckedKeepsOrder(pool: Pool, task: Task, conn: Conn, usable: bool, latest: real)
    requires InReleaseOrder(pool, latest) && conn !in pool.idle
    ensures InReleaseOrder(CheckedStep(pool, task, conn, usable).pool, latest)
  {
    SameOrder(pool, Leave(pool, task), latest);
    if !usable {
      DiscardKeepsOrder(Leave(pool, task), task, conn, Retry, latest);
    }
  }

  lemma CloseAllKeepsOrder(pool: Pool, task: Task, latest: real)
    requires Sound(pool) && InReleaseOrder(pool, latest)
    ensures InReleaseOrder(DrainIdle(pool.(closed := true), task).pool, latest)
  {
    SameSlots(pool, pool.(closed := true));
    SameOrder(pool, pool.(closed := true), latest);
    DrainKeepsOrder(pool.(closed := true), task, latest);
  }

  lemma StepKeepsOrder(pool: Pool, event: Event, latest: real)
    requires Sound(pool) && Allowed(pool, event) && InReleaseOrder(pool, latest) && !event.Release?
    ensures InReleaseOrder(Step(pool, event).pool, latest)
  {
    match event
    case Acquire(task, now) => AcquireKeepsOrder(pool, task, now, latest);
    case Checked(task, usable) => CheckedKeepsOrder(pool, task, pool.phases[task].conn, usable, latest);
    case Created(task, conn) => SameOrder(pool, Step(pool, event).pool, latest);
    case CreateFailed(_, _) => SameOrder(pool, Step(pool, event).pool, latest);
    case Woken(task, now) => WokenKeepsOrder(pool, task, now, latest);
    case Closed(task, now) => ClosedKeepsOrder(pool, task, now, latest);
    case Discard(task, conn) => DiscardKeepsOrder(pool, task, conn, Finish, latest);
    case CloseAll(task) => CloseAllKeepsOrder(pool, task, latest);
  }

  predicate ReleasesInTime(events: seq<Event>) {
    forall i, j :: 0 <= i < j < |events| && events[i].Release? && events[j].Release? ==> events[i].now <= events[j].now
  }

  /** On a clock that does not go back, the head of the queue is the connection idle the longest:
      the one that acquire takes and close_all closes first. */
  lemma {:induction false} QueueIsInReleaseOrder(limit: nat, events: seq<Event>, latest: real)
    requires AllowedRun(limit, events) && ReleasesInTime(events)
    requires forall event :: event in events ==> ReleasedBy(event, latest)
    ensures After(limit, events).Some? && InReleaseOrder(After(limit, events).value, latest)
  {
    if events != [] {
      var front, last := events[..|events| - 1], events[|events| - 1];
      var before := if last.Release? then last.now else latest;
      forall event | event in front ensures ReleasedBy(event, before) {
        var i :| 0 <= i < |front| && front[i] == event;
        assert events[i] == event;
      }
      QueueIsInReleaseOrder(limit, front, before);
      RunsStaySound(limit, front);
      var pool := After(limit, front).value;
      if last.Release? {
        assert last in events && last.now <= latest;
        ReleaseKeepsOrder(pool, last.task, last.conn, last.now, last.now);
      } else {
        StepKeepsOrder(pool, last, latest);
      }
    }
  }
}
