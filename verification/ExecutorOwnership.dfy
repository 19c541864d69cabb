/** Who owns a connection while the executor uses it. Every execute call acquires a connection, hands
    it to a worker thread and awaits the worker behind a shield; a cancelled call leaves the
    connection to a cleanup task, which can be cancelled as well. The calls run on the pool, in every interleaving. */
module ExecutorOwnership {
  import opened Wrappers
  import opened PoolModel
  import opened PoolSafety
  import opened PoolCirculation

  datatype Mode = Batch | AdminBatch | Session | Transaction | NonQuery | Profiled

  /** Admin batches and transactions may leave session state behind. */
  predicate Reusable(mode: Mode) { mode != AdminBatch && mode != Transaction }

  datatype Worker = Running | Succeeded | Failed

  /** The use of one connection. worker: the thread. detached: the task that awaits the thread was
      cancelled, which ends the await and not the thread. The flags are those of the attempt. */
  datatype Attempt = Attempt(
    mode: Mode, conn: Conn, worker: Worker, detached: bool, succeeded: bool, deferredCleanup: bool)

  /** Awaiting: at the shielded await. Scheduled: cancelled there, the cleanup task was created. Cleaning:
      the cleanup task waits for the worker's task. Lost: the cleanup task was cancelled before it began. */
  datatype Stage = Awaiting | Scheduled | Cleaning | Lost

  datatype Call =
    | Entering(mode: Mode)
    | Owning(attempt: Attempt, stage: Stage)
    | Returning
    | Over
    | Rejected

  /** One connection handed back to the pool: how, and the use of it at that moment. */
  datatype HandBack = HandBack(task: Task, released: bool, attempt: Attempt)

  /** strays: the worker threads that still run on a connection that was handed back. */
  datatype System = System(pool: Pool, calls: map<Task, Call>, strays: map<Task, Conn>, log: seq<HandBack>)

  /** Cancel: the caller is cancelled at the await. CancelWorker: the task around the thread is. */
  datatype Move =
    | Begin(task: Task, mode: Mode, now: real)
    | Inside(event: Event)
    | WorkerEnds(task: Task, succeeded: bool)
    | Cancel(task: Task)
    | CancelWorker(task: Task)
    | BeginCleanup(task: Task)
    | CancelCleanup(task: Task)
    | Resume(task: Task, now: real)
    | Cleanup(task: Task)

  function Start(limit: nat): System { System(Empty(limit), map[], map[], []) }

  // ---------------------------------------------------------------- the attempt and its flags

  function NewAttempt(mode: Mode, conn: Conn): Attempt { Attempt(mode, conn, Running, false, false, false) }

  /** How the shielded await ends for the caller. */
  datatype Awaited = Answered | Raised | Interrupted

  function Noted(attempt: Attempt, awaited: Awaited): Attempt {
    match awaited
    case Answered => attempt.(succeeded := true)
    case Raised => attempt
    case Interrupted => attempt.(deferredCleanup := true)
  }

  /** The finally block: the connection is released, discarded, or left to the cleanup task. */
  function Finally(attempt: Attempt): Option<bool> {
    if attempt.mode == Transaction then if attempt.deferredCleanup then None else Some(false)
    else if attempt.succeeded && attempt.mode != AdminBatch then Some(true)
    else if attempt.deferredCleanup then None
    else Some(false)
  }

  /** The flags of an attempt and its finally block, as every execute method has them. */
  method LeaveAttempt(mode: Mode, conn: Conn, awaited: Awaited) returns (released: Option<bool>)
    ensures released == Finally(Noted(NewAttempt(mode, conn), awaited))
    ensures released.None? <==> awaited == Interrupted
    ensures released == Some(true) <==> awaited == Answered && Reusable(mode)
  {
    var succeeded, deferredCleanup := false, false;
    if awaited == Answered {
      succeeded := true;
    } else if awaited == Interrupted {
      deferredCleanup := true;
    }
    released := None;
    if mode == Transaction {
      if !deferredCleanup {
        released := Some(false);
      }
    } else if succeeded && mode != AdminBatch {
      released := Some(true);
    } else if !deferredCleanup {
      released := Some(false);
    }
  }

  // ---------------------------------------------------------------- the moves

  function Settled(mode: Mode, outcome: Outcome): Call {
    match outcome
    case Suspended => Entering(mode)
    case Granted(conn) => Owning(NewAttempt(mode, conn), Awaiting)
    case Refused => Rejected
    case Returned => Rejected
  }

  function Advanced(call: Call, outcome: Outcome): Call {
    match call
    case Entering(mode) => Settled(mode, outcome)
    case Returning => if outcome == Returned then Over else Returning
    case _ => call
  }

  function Called(system: System, task: Task, call: Call): System { system.(calls := system.calls[task := call]) }

  function Stirred(system: System, event: Event): System
    requires Enabled(system.pool, event)
  {
    var stepped := Step(system.pool, event);
    System(stepped.pool,
           if event.task in system.calls
           then system.calls[event.task := Advanced(system.calls[event.task], stepped.outcome)]
           else system.calls,
           system.strays, system.log)
  }

  function HandBackEvent(entry: HandBack, now: real): Event {
    if entry.released then Release(entry.task, entry.attempt.conn, now) else Discard(entry.task, entry.attempt.conn)
  }

  /** A thread that still runs on the connection that was handed back. */
  function Strayed(strays: map<Task, Conn>, entry: HandBack): map<Task, Conn> {
    if entry.attempt.worker == Running then strays[entry.task := entry.attempt.conn] else strays
  }

  /** The hand-back is logged, and the call is through when the pool is. */
  function Through(system: System, entry: HandBack, stepped: Stepped): System {
    System(stepped.pool, system.calls[entry.task := if stepped.outcome == Returned then Over else Returning],
           Strayed(system.strays, entry), system.log + [entry])
  }

  /** The hand-back and the step of the pool it starts. */
  function HandedOver(system: System, entry: HandBack, event: Event): System
    requires Enabled(system.pool, event)
  {
    Through(system, entry, Step(system.pool, event))
  }

  /** The await is over and the flags are set: the finally block. */
  function Unwound(system: System, task: Task, attempt: Attempt, now: real): System
    requires task !in system.pool.phases
  {
    var released := Finally(attempt);
    if released.Some? then
      var entry := HandBack(task, released.value, attempt);
      HandedOver(system, entry, HandBackEvent(entry, now))
    else Called(system, task, Owning(attempt, Scheduled))
  }

  /** What the caller sees when the worker's task is done and was not cancelled. */
  function Seen(worker: Worker): Awaited { if worker == Succeeded then Answered else Raised }

  /** The worker's task is not done. */
  predicate Pending(attempt: Attempt) { attempt.worker == Running && !attempt.detached }

  predicate Owns(system: System, task: Task) { task in system.calls && system.calls[task].Owning? }

  predicate OwnsAt(system: System, task: Task, stage: Stage) {
    Owns(system, task) && system.calls[task].stage == stage
  }

  /** When a move can happen. A worker's task that is cancelled interrupts a caller that still awaits
      it. Cancellation is not modelled while a task is inside the pool. */
  predicate Ready(system: System, move: Move) {
    match move
    case Begin(task, _, _) => task !in system.calls && task !in system.pool.phases
    case Inside(event) =>
      && Enabled(system.pool, event) && !event.Acquire? && !event.Release? && !event.Discard?
      && (event.CloseAll? ==> event.task !in system.calls)
      && (event.Created? ==> Nowhere(system.pool, event.conn) && event.conn !in system.strays.Values)
    case WorkerEnds(task, _) =>
      (Owns(system, task) && system.calls[task].attempt.worker == Running) || task in system.strays
    case Cancel(task) => OwnsAt(system, task, Awaiting) && task !in system.pool.phases
    case CancelWorker(task) => Owns(system, task) && Pending(system.calls[task].attempt)
    case BeginCleanup(task) => OwnsAt(system, task, Scheduled)
    case CancelCleanup(task) =>
      OwnsAt(system, task, Scheduled) || (OwnsAt(system, task, Cleaning) && Pending(system.calls[task].attempt))
    case Resume(task, _) =>
      && OwnsAt(system, task, Awaiting) && task !in system.pool.phases
      && system.calls[task].attempt.worker != Running && !system.calls[task].attempt.detached
    case Cleanup(task) =>
      && OwnsAt(system, task, Cleaning) && task !in system.pool.phases && !Pending(system.calls[task].attempt)
  }

  function Ended(attempt: Attempt, succeeded: bool): Attempt {
    attempt.(worker := if succeeded then Succeeded else Failed)
  }

  function Detached(attempt: Attempt): Attempt { attempt.(detached := true) }

  /** A cancelled cleanup task that has begun passes the cancellation on to the worker's task. */
  function CleanupCancelled(call: Call): Call
    requires call.Owning?
  {
    if call.stage == Scheduled then Owning(call.attempt, Lost) else Owning(Detached(call.attempt), call.stage)
  }

  function Perform(system: System, move: Move): System
    requires Ready(system, move)
  {
    match move
    case Begin(task, mode, now) => Stirred(Called(system, task, Entering(mode)), Acquire(task, now))
    case Inside(event) => Stirred(system, event)
    case WorkerEnds(task, succeeded) =>
      if task in system.strays then system.(strays := system.strays - {task})
      else
        var call := system.calls[task];
        Called(system, task, Owning(Ended(call.attempt, succeeded), call.stage))
    case Cancel(task) => Unwound(system, task, Noted(system.calls[task].attempt, Interrupted), 0.0)
    case CancelWorker(task) =>
      var call := system.calls[task];
      Called(system, task, Owning(Detached(call.attempt), call.stage))
    case BeginCleanup(task) => Called(system, task, Owning(system.calls[task].attempt, Cleaning))
    case CancelCleanup(task) => Called(system, task, CleanupCancelled(system.calls[task]))
    case Resume(task, now) =>
      var attempt := system.calls[task].attempt;
      Unwound(system, task, Noted(attempt, Seen(attempt.worker)), now)
    case Cleanup(task) =>
      var entry := HandBack(task, false, system.calls[task].attempt);
      HandedOver(system, entry, HandBackEvent(entry, 0.0))
  }

  // ---------------------------------------------------------------- ownership

  predicate Using(call: Call, conn: Conn) { call.Owning? && call.attempt.conn == conn }

  predicate SeekingPhase(phase: Phase) {
    phase.Creating? || phase.Waiting? || phase.Checking? || (phase.Closing? && phase.next == Retry)
  }

  /** A task inside the pool is where its call says. */
  predicate Placed(pool: Pool, task: Task, call: Call) {
    match call
    case Entering(_) => task in pool.phases && SeekingPhase(pool.phases[task])
    case Returning => task in pool.phases && pool.phases[task].Closing? && pool.phases[task].next == Finish
    case _ => task !in pool.phases
  }

  /** A lease is held by the call that uses the connection, and by no other. */
  predicate Owned(system: System) {
    && (forall conn :: conn in system.pool.leases ==>
          system.pool.leases[conn] in system.calls && Using(system.calls[system.pool.leases[conn]], conn))
    && (forall task :: task in system.calls && system.calls[task].Owning? ==>
          system.calls[task].attempt.conn in system.pool.leases
          && system.pool.leases[system.calls[task].attempt.conn] == task)
    && (forall task :: task in system.calls ==> Placed(system.pool, task, system.calls[task]))
    && forall task :: task in system.pool.phases && task !in system.calls ==>
         system.pool.phases[task].Closing? && system.pool.phases[task].next == Drain
  }

  /** The flags of a call that has its connection. */
  predicate Coherent(call: Call) {
    call.Owning? ==>
      !call.attempt.succeeded && (call.attempt.deferredCleanup <==> call.stage != Awaiting)
  }

  /** What is known of a use that was handed back. */
  predicate Proper(entry: HandBack) {
    && (entry.released <==> entry.attempt.worker == Succeeded && Reusable(entry.attempt.mode)
                            && !entry.attempt.deferredCleanup)
    && (entry.attempt.worker == Running ==> entry.attempt.detached && entry.attempt.deferredCleanup)
  }

  function Times(log: seq<HandBack>, task: Task): nat {
    if log == [] then 0
    else Times(log[..|log| - 1], task) + if log[|log| - 1].task == task then 1 else 0
  }

  /** How the connection was handed back the last time. */
  function Latest(log: seq<HandBack>, conn: Conn): Option<HandBack> {
    if log == [] then None
    else if log[|log| - 1].attempt.conn == conn then Some(log[|log| - 1]) else Latest(log[..|log| - 1], conn)
  }

  predicate Finished(system: System, task: Task) {
    task in system.calls && (system.calls[task].Over? || system.calls[task].Returning?)
  }

  ghost predicate Logged(system: System) {
    && (forall entry :: entry in system.log ==> Proper(entry))
    && (forall task: Task :: Times(system.log, task) == if Finished(system, task) then 1 else 0)
    && (forall conn :: conn in system.pool.idle ==>
          Latest(system.log, conn).Some? && Latest(system.log, conn).value.released)
    && forall task :: task in system.calls ==> Coherent(system.calls[task])
  }

  /** The connection of a stray thread is out of circulation. */
  ghost predicate StraysApart(system: System) {
    forall task :: task in system.strays ==> Finished(system, task) && !Lendable(system.pool, system.strays[task])
  }

  ghost predicate Good(system: System) {
    Sound(system.pool) && Owned(system) && Logged(system) && StraysApart(system)
  }

  // ---------------------------------------------------------------- what a pool step does to its task

  /** What a step that is no hand-back changes outside its task: at most one new lease. */
  ghost predicate Local(before: Pool, task: Task, stepped: Stepped) {
    && (forall conn :: conn in stepped.pool.idle ==> conn in before.idle)
    && (forall other :: other != task ==> (other in stepped.pool.phases <==> other in before.phases))
    && (forall other :: other != task && other in before.phases ==> stepped.pool.phases[other] == before.phases[other])
    && (stepped.outcome.Suspended? <==> task in stepped.pool.phases)
    && (if stepped.outcome.Granted?
        then stepped.outcome.conn !in before.leases
          && stepped.pool.leases == before.leases[stepped.outcome.conn := task]
        else stepped.pool.leases == before.leases)
  }

  lemma TakingIsLocal(pool: Pool, task: Task, now: real)
    requires Sound(pool) && pool.idle != [] && task !in pool.phases
    ensures var taken := TakeIdle(pool, task, now);
            Local(pool, task, taken) && !taken.outcome.Refused? && !taken.outcome.Returned?
            && (taken.outcome.Suspended? ==> SeekingPhase(taken.pool.phases[task]))
  {
    assert pool.idle[0] in pool.idle;
    forall conn | conn in pool.idle[1..] ensures conn in pool.idle {}
  }

  lemma TurningIsLocal(pool: Pool, task: Task, now: real)
    requires Sound(pool) && task !in pool.phases
    ensures var turned := Turn(pool, task, now);
            Local(pool, task, turned) && !turned.outcome.Refused? && !turned.outcome.Returned?
            && (turned.outcome.Suspended? ==> SeekingPhase(turned.pool.phases[task]))
  {
    if pool.idle != [] {
      TakingIsLocal(pool, task, now);
    }
  }

  lemma DiscardingIsLocal(pool: Pool, task: Task, conn: Conn, next: Next)
    requires task !in pool.phases && conn !in pool.leases
    ensures var started := StartDiscard(pool, task, conn, next);
            Local(pool, task, started) && started.outcome.Suspended? && started.pool.phases[task] == Closing(conn, next)
  {
    assert Without(pool.leases, conn) == pool.leases;
  }

  lemma DrainingIsLocal(pool: Pool, task: Task)
    requires Sound(pool) && task !in pool.phases
    ensures var drained := DrainIdle(pool, task);
            Local(pool, task, drained) && (drained.outcome.Suspended? || drained.outcome.Returned?)
            && (drained.outcome.Suspended? ==>
                drained.pool.phases[task].Closing? && drained.pool.phases[task].next == Drain)
  {
    if pool.idle != [] {
      assert pool.idle[0] in pool.idle;
      forall conn | conn in pool.idle[1..] ensures conn in pool.idle {}
      DiscardingIsLocal(pool.(idle := pool.idle[1..]), task, pool.idle[0], Drain);
    }
  }

  /** Taking a step from inside the pool, seen from the place left. */
  lemma LocalAfterLeaving(pool: Pool, left: Pool, task: Task, stepped: Stepped)
    requires left.idle == pool.idle && left.leases == pool.leases && left.phases == Without(pool.phases, task)
    requires Local(left, task, stepped)
    ensures Local(pool, task, stepped)
  {
  }

  lemma AcquireIsLocal(pool: Pool, task: Task, now: real)
    requires Sound(pool) && task !in pool.phases
    ensures var stepped := AcquireStep(pool, task, now);
            Local(pool, task, stepped) && !stepped.outcome.Returned?
            && (stepped.outcome.Suspended? ==> SeekingPhase(stepped.pool.phases[task]))
  {
    if !pool.closed && !CoolingDown(pool.breaker, now) {
      SameSlots(pool, Admitted(pool));
      TurningIsLocal(Admitted(pool), task, now);
    }
  }

  /** A step of a task that seeks a connection keeps it seeking, grants one, or fails. */
  lemma SeekingIsLocal(pool: Pool, event: Event)
    requires Sound(pool) && Allowed(pool, event) && event.task in pool.phases && SeekingPhase(pool.phases[event.task])
    ensures var stepped := Step(pool, event);
            Local(pool, event.task, stepped) && !stepped.outcome.Returned?
            && (stepped.outcome.Suspended? ==> SeekingPhase(stepped.pool.phases[event.task]))
  {
    var task := event.task;
    match event
    case Checked(_, usable) =>
      if !usable {
        DiscardingIsLocal(Leave(pool, task), task, pool.phases[task].conn, Retry);
        LocalAfterLeaving(pool, Leave(pool, task), task, Step(pool, event));
      }
    case Woken(_, now) =>
      LeavingQueue(pool, task);
      TakingIsLocal(Leave(pool, task), task, now);
      LocalAfterLeaving(pool, Leave(pool, task), task, Step(pool, event));
    case Closed(_, now) =>
      Freeing(pool, task);
      TurningIsLocal(Freed(pool, task), task, now);
      LocalAfterLeaving(pool, Freed(pool, task), task, Step(pool, event));
    case _ =>
  }

  lemma CloseAllIsLocal(pool: Pool, task: Task)
    requires Sound(pool) && task !in pool.phases
    ensures var stepped := DrainIdle(pool.(closed := true), task);
            Local(pool, task, stepped) && DrainsOn(stepped, task)
  {
    SameSlots(pool, pool.(closed := true));
    DrainingIsLocal(pool.(closed := true), task);
  }

  lemma DrainedCloseIsLocal(pool: Pool, task: Task)
    requires Sound(pool) && task in pool.phases && pool.phases[task].Closing?
    ensures var stepped := DrainIdle(Freed(pool, task), task);
            Local(pool, task, stepped) && DrainsOn(stepped, task)
  {
    Freeing(pool, task);
    DrainingIsLocal(Freed(pool, task), task);
    LocalAfterLeaving(pool, Freed(pool, task), task, DrainIdle(Freed(pool, task), task));
  }

  predicate DrainsOn(stepped: Stepped, task: Task) {
    stepped.outcome.Suspended? ==>
      task in stepped.pool.phases && stepped.pool.phases[task].Closing? && stepped.pool.phases[task].next == Drain
  }

  lemma DrainerIsLocal(pool: Pool, event: Event)
    requires Sound(pool) && Allowed(pool, event)
    requires event.CloseAll? || (event.Closed? && pool.phases[event.task].next == Drain)
    ensures var stepped := Step(pool, event); Local(pool, event.task, stepped) && DrainsOn(stepped, event.task)
  {
    if event.CloseAll? {
      CloseAllIsLocal(pool, event.task);
    } else {
      DrainedCloseIsLocal(pool, event.task);
    }
  }
}
