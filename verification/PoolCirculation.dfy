/** Which connections of the pool are in circulation: a step adds none but the one it makes, and a
    discarded connection is out for good. */
module PoolCirculation {
  import opened PoolModel
  import opened PoolSafety

  /** The pool has lent the connection, or may lend it. */
  predicate Lendable(pool: Pool, conn: Conn) {
    || conn in pool.idle || conn in pool.leases
    || exists task :: task in pool.phases && pool.phases[task] == Checking(conn)
  }

  lemma TakingLends(pool: Pool, task: Task, now: real, conn: Conn)
    requires pool.idle != [] && Lendable(TakeIdle(pool, task, now).pool, conn)
    ensures Lendable(pool, conn)
  {
    var after := TakeIdle(pool, task, now).pool;
    assert pool.idle[0] in pool.idle;
    if conn in after.idle {
      assert conn in pool.idle;
    } else if conn !in after.leases {
      var other :| other in after.phases && after.phases[other] == Checking(conn);
      assert other != task ==> pool.phases[other] == Checking(conn);
    }
  }

  lemma TurningLends(pool: Pool, task: Task, now: real, conn: Conn)
    requires Lendable(Turn(pool, task, now).pool, conn)
    ensures Lendable(pool, conn)
  {
    if pool.idle != [] {
      TakingLends(pool, task, now, conn);
    } else if conn !in pool.leases {
      var after := Turn(pool, task, now).pool;
      var other :| other in after.phases && after.phases[other] == Checking(conn);
      assert pool.phases[other] == Checking(conn);
    }
  }

  lemma DiscardingLends(pool: Pool, task: Task, gone: Conn, next: Next, conn: Conn)
    requires Lendable(StartDiscard(pool, task, gone, next).pool, conn)
    ensures Lendable(pool, conn)
  {
    if conn !in pool.idle && conn !in pool.leases {
      var after := StartDiscard(pool, task, gone, next).pool;
      var other :| other in after.phases && after.phases[other] == Checking(conn);
      assert pool.phases[other] == Checking(conn);
    }
  }

  lemma DrainingLends(pool: Pool, task: Task, conn: Conn)
    requires Lendable(DrainIdle(pool, task).pool, conn)
    ensures Lendable(pool, conn)
  {
    if pool.idle != [] {
      var rest := pool.(idle := pool.idle[1..]);
      DiscardingLends(rest, task, pool.idle[0], Drain, conn);
      if conn in rest.idle {
        assert conn in pool.idle;
      }
    }
  }

  /** What another pool with no more connections in circulation can lend. */
  lemma FewerLend(before: Pool, after: Pool, conn: Conn)
    requires Lendable(after, conn)
    requires after.idle == before.idle && after.leases == before.leases
    requires forall task :: task in after.phases ==> task in before.phases && after.phases[task] == before.phases[task]
    ensures Lendable(before, conn)
  {
    if conn !in after.idle && conn !in after.leases {
      var task :| task in after.phases && after.phases[task] == Checking(conn);
      assert task in before.phases && before.phases[task] == Checking(conn);
    }
  }

  lemma ClosedLends(pool: Pool, event: Event, conn: Conn)
    requires Enabled(pool, event) && event.Closed? && Lendable(Step(pool, event).pool, conn)
    ensures Lendable(pool, conn)
  {
    var freed := Freed(pool, event.task);
    match pool.phases[event.task].next {
      case Retry => TurningLends(freed, event.task, event.now, conn);
      case Drain => DrainingLends(freed, event.task, conn);
      case Finish =>
    }
    FewerLend(pool, freed, conn);
  }

  lemma CheckedLends(pool: Pool, event: Event, conn: Conn)
    requires Enabled(pool, event) && event.Checked? && Lendable(Step(pool, event).pool, conn)
    ensures Lendable(pool, conn)
  {
    var task, left := event.task, Leave(pool, event.task);
    var own := pool.phases[task].conn;
    assert Lendable(pool, own) by { assert pool.phases[task] == Checking(own); }
    if event.usable {
      if conn != own {
        FewerLend(left, Step(pool, event).pool.(leases := left.leases), conn);
        FewerLend(pool, left, conn);
      }
    } else {
      DiscardingLends(left, task, own, Retry, conn);
      FewerLend(pool, left, conn);
    }
  }

  /** Only a connection that was in circulation, or a new one, can be lent after a step. */
  lemma StepLends(pool: Pool, event: Event, conn: Conn)
    requires Allowed(pool, event) && Lendable(Step(pool, event).pool, conn)
    ensures Lendable(pool, conn) || (event.Created? && event.conn == conn)
  {
    var after := Step(pool, event).pool;
    match event
    case Acquire(task, now) =>
      if Step(pool, event).outcome != Refused {
        TurningLends(Admitted(pool), task, now, conn);
        FewerLend(pool, Admitted(pool), conn);
      }
    case Checked(_, _) => CheckedLends(pool, event, conn);
    case Created(task, made) =>
      if conn != made {
        FewerLend(pool, after.(leases := pool.leases), conn);
      }
    case CreateFailed(_, _) => FewerLend(pool, after, conn);
    case Woken(task, now) =>
      TakingLends(Leave(pool, task), task, now, conn);
      FewerLend(pool, Leave(pool, task), conn);
    case Closed(_, _) => ClosedLends(pool, event, conn);
    case Release(task, back, now) => ReleaseLends(pool, task, back, now, conn);
    case Discard(task, gone) => DiscardingLends(pool, task, gone, Finish, conn);
    case CloseAll(task) =>
      DrainingLends(pool.(closed := true), task, conn);
      FewerLend(pool, pool.(closed := true), conn);
  }

  lemma ReleaseLends(pool: Pool, task: Task, back: Conn, now: real, conn: Conn)
    requires back in pool.leases && Lendable(ReleaseStep(pool, task, back, now).pool, conn)
    ensures Lendable(pool, conn)
  {
    var unleased := Unleased(pool, back, now);
    if pool.closed || |pool.idle| >= pool.limit {
      DiscardingLends(unleased, task, back, Finish, conn);
    }
    if conn != back && conn !in pool.idle && conn !in pool.leases {
      FewerLend(pool, unleased.(leases := pool.leases), conn);
    }
  }

  /** A connection that is being discarded is out of circulation. */
  lemma DiscardedIsNotLendable(pool: Pool, task: Task, conn: Conn)
    requires Sound(pool) && conn in pool.leases && task !in pool.phases
    ensures !Lendable(StartDiscard(pool, task, conn, Finish).pool, conn)
  {
  }
}
