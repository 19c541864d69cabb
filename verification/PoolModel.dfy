/** One database of the connection pool as a state machine. A step is what runs between two
    awaits; the sections under the pool's lock await nothing, so they are part of a step. */
module PoolModel {
  import opened Wrappers

  type Conn = nat
  type Task = nat

  const VALIDATION_IDLE_SECONDS: real := 60.0
  const CIRCUIT_BREAKER_THRESHOLD: nat := 5
  const CIRCUIT_BREAKER_COOLDOWN: real := 30.0

  /** What a task does once its connection is closed. */
  datatype Next = Retry | Drain | Finish

  /** Where a task inside the pool is suspended. */
  datatype Phase = Checking(conn: Conn) | Creating | Waiting | Closing(conn: Conn, next: Next)

  datatype Breaker = Breaker(failures: nat, lastFailure: real, open: bool)

  datatype Metrics = Metrics(acquires: nat, releases: nat, discards: nat, creates: nat, active: nat, peak: nat)

  /** idle: the queue, oldest first. leases: who holds each connection that is out. */
  datatype Pool = Pool(
    limit: nat,
    size: int,
    idle: seq<Conn>,
    idleSince: map<Conn, real>,
    leases: map<Conn, Task>,
    phases: map<Task, Phase>,
    closed: bool,
    breaker: Breaker,
    metrics: Metrics)

  datatype Event =
    | Acquire(task: Task, now: real)
    | Checked(task: Task, usable: bool)
    | Created(task: Task, conn: Conn)
    | CreateFailed(task: Task, now: real)
    | Woken(task: Task, now: real)
    | Closed(task: Task, now: real)
    | Release(task: Task, conn: Conn, now: real)
    | Discard(task: Task, conn: Conn)
    | CloseAll(task: Task)

  /** What a step means for the caller whose step it is. */
  datatype Outcome = Suspended | Granted(conn: Conn) | Refused | Returned

  datatype Stepped = Stepped(pool: Pool, outcome: Outcome)

  function Empty(limit: nat): Pool {
    Pool(limit, 0, [], map[], map[], map[], false, Breaker(0, 0.0, false), Metrics(0, 0, 0, 0, 0, 0))
  }

  // ---------------------------------------------------------------- pieces of a step

  function Without<K, V>(m: map<K, V>, key: K): map<K, V> { m - {key} }

  function Leave(pool: Pool, task: Task): Pool { pool.(phases := Without(pool.phases, task)) }

  predicate CoolingDown(breaker: Breaker, now: real) {
    breaker.open && now - breaker.lastFailure < CIRCUIT_BREAKER_COOLDOWN
  }

  function Admit(breaker: Breaker): Breaker { breaker.(open := false) }

  function Succeed(breaker: Breaker): Breaker { breaker.(failures := 0, open := false) }

  function Fail(breaker: Breaker, now: real): Breaker {
    Breaker(breaker.failures + 1, now, breaker.open || breaker.failures + 1 >= CIRCUIT_BREAKER_THRESHOLD)
  }

  function MoreActive(metrics: Metrics): Metrics {
    metrics.(active := metrics.active + 1,
             peak := if metrics.peak < metrics.active + 1 then metrics.active + 1 else metrics.peak)
  }

  /** max(0, active - 1) */
  function LessActive(metrics: Metrics): Metrics {
    metrics.(active := if metrics.active == 0 then 0 else metrics.active - 1)
  }

  function Lend(pool: Pool, task: Task, conn: Conn): Pool {
    pool.(breaker := Succeed(pool.breaker), metrics := MoreActive(pool.metrics), leases := pool.leases[conn := task])
  }

  predicate RecentlyUsed(pool: Pool, conn: Conn, now: real) {
    conn in pool.idleSince && now - pool.idleSince[conn] < VALIDATION_IDLE_SECONDS
  }

  /** The oldest idle connection: lent at once when it was released a moment ago, else checked first. */
  function TakeIdle(pool: Pool, task: Task, now: real): Stepped
    requires pool.idle != []
  {
    var conn, rest := pool.idle[0], pool.(idle := pool.idle[1..]);
    if RecentlyUsed(pool, conn, now) then Stepped(Lend(rest, task, conn), Granted(conn))
    else Stepped(rest.(phases := rest.phases[task := Checking(conn)]), Suspended)
  }

  /** One turn of acquire's loop. */
  function Turn(pool: Pool, task: Task, now: real): Stepped {
    if pool.idle != [] then TakeIdle(pool, task, now)
    else if pool.size < pool.limit then
      Stepped(pool.(size := pool.size + 1, phases := pool.phases[task := Creating]), Suspended)
    else Stepped(pool.(phases := pool.phases[task := Waiting]), Suspended)
  }

  /** discard up to the await of the close. */
  function StartDiscard(pool: Pool, task: Task, conn: Conn, next: Next): Stepped {
    var counted := pool.metrics.(discards := pool.metrics.discards + 1);
    Stepped(pool.(metrics := if conn in pool.leases then LessActive(counted) else counted,
                  leases := Without(pool.leases, conn), idleSince := Without(pool.idleSince, conn),
                  phases := pool.phases[task := Closing(conn, next)]),
            Suspended)
  }

  /** One turn of close_all's loop. */
  function DrainIdle(pool: Pool, task: Task): Stepped {
    if pool.idle == [] then Stepped(pool, Returned)
    else StartDiscard(pool.(idle := pool.idle[1..]), task, pool.idle[0], Drain)
  }

  // ---------------------------------------------------------------- the steps

  function Admitted(pool: Pool): Pool {
    pool.(breaker := Admit(pool.breaker), metrics := pool.metrics.(acquires := pool.metrics.acquires + 1))
  }

  /** The slot of a connection that was closed. */
  function Freed(pool: Pool, task: Task): Pool {
    Leave(pool, task).(size := if pool.size > 0 then pool.size - 1 else pool.size)
  }

  function AcquireStep(pool: Pool, task: Task, now: real): Stepped {
    if pool.closed || CoolingDown(pool.breaker, now) then Stepped(pool, Refused)
    else Turn(Admitted(pool), task, now)
  }

  function CheckedStep(pool: Pool, task: Task, conn: Conn, usable: bool): Stepped {
    if usable then Stepped(Lend(Leave(pool, task), task, conn), Granted(conn))
    else StartDiscard(Leave(pool, task), task, conn, Retry)
  }

  function CreatedStep(pool: Pool, task: Task, conn: Conn): Stepped {
    var made := Leave(pool, task).(metrics := pool.metrics.(creates := pool.metrics.creates + 1));
    Stepped(Lend(made, task, conn), Granted(conn))
  }

  function CreateFailedStep(pool: Pool, task: Task, now: real): Stepped {
    Stepped(Leave(pool, task).(size := pool.size - 1, breaker := Fail(pool.breaker, now)), Refused)
  }

  function ClosedStep(pool: Pool, task: Task, next: Next, now: real): Stepped {
    match next
    case Retry => Turn(Freed(pool, task), task, now)
    case Drain => DrainIdle(Freed(pool, task), task)
    case Finish => Stepped(Freed(pool, task), Returned)
  }

  /** The lease ends and the idle time starts before anything else. */
  function Unleased(pool: Pool, conn: Conn, now: real): Pool {
    pool.(leases := Without(pool.leases, conn), idleSince := pool.idleSince[conn := now],
          metrics := LessActive(pool.metrics.(releases := pool.metrics.releases + 1)))
  }

  function Shelved(pool: Pool, conn: Conn): Pool { pool.(idle := pool.idle + [conn]) }

  /** release: a closed pool and a full queue discard the connection. */
  function ReleaseStep(pool: Pool, task: Task, conn: Conn, now: real): Stepped {
    if pool.closed || |pool.idle| >= pool.limit then StartDiscard(Unleased(pool, conn, now), task, conn, Finish)
    else Stepped(Shelved(Unleased(pool, conn, now), conn), Returned)
  }

  /** A task takes a step only where it is suspended, and enters the pool only from outside. */
  predicate Enabled(pool: Pool, event: Event) {
    match event
    case Acquire(task, _) => task !in pool.phases
    case Release(task, _, _) => task !in pool.phases
    case Discard(task, _) => task !in pool.phases
    case CloseAll(task) => task !in pool.phases
    case Checked(task, _) => task in pool.phases && pool.phases[task].Checking?
    case Created(task, _) => task in pool.phases && pool.phases[task].Creating?
    case CreateFailed(task, _) => task in pool.phases && pool.phases[task].Creating?
    case Woken(task, _) => task in pool.phases && pool.phases[task].Waiting? && pool.idle != []
    case Closed(task, _) => task in pool.phases && pool.phases[task].Closing?
  }

  function Step(pool: Pool, event: Event): Stepped
    requires Enabled(pool, event)
  {
    match event
    case Acquire(task, now) => AcquireStep(pool, task, now)
    case Checked(task, usable) => CheckedStep(pool, task, pool.phases[task].conn, usable)
    case Created(task, conn) => CreatedStep(pool, task, conn)
    case CreateFailed(task, now) => CreateFailedStep(pool, task, now)
    case Woken(task, now) => TakeIdle(Leave(pool, task), task, now)
    case Closed(task, now) => ClosedStep(pool, task, pool.phases[task].next, now)
    case Release(task, conn, now) => ReleaseStep(pool, task, conn, now)
    case Discard(task, conn) => StartDiscard(pool, task, conn, Finish)
    case CloseAll(task) => DrainIdle(pool.(closed := true), task)
  }

  /** The pool after a run; nothing is said of a run that takes a step where it cannot. */
  function After(limit: nat, events: seq<Event>): (pool: Option<Pool>)
  {
    if events == [] then Some(Empty(limit))
    else
      var before, last := After(limit, events[..|events| - 1]), events[|events| - 1];
      if before.Some? && Enabled(before.value, last) then Some(Step(before.value, last).pool) else None
  }
}
