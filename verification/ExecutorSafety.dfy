/** In every run: who hands a connection back, how often, in which state, and what of it is lent again. */
module ExecutorSafety {
  import opened Wrappers
  import opened PoolModel
  import opened PoolSafety
  import opened PoolCirculation
  import opened ExecutorOwnership

  // ---------------------------------------------------------------- stray threads

  /** A step that makes no connection of a stray thread, and turns no call back, keeps strays apart. */
  lemma StepKeepsStraysApart(system: System, event: Event, after: System)
    requires StraysApart(system) && Allowed(system.pool, event) && after.pool == Step(system.pool, event).pool
    requires after.strays == system.strays && (event.Created? ==> event.conn !in system.strays.Values)
    requires forall task :: Finished(system, task) ==> Finished(after, task)
    ensures StraysApart(after)
  {
    forall task | task in after.strays ensures !Lendable(after.pool, after.strays[task]) {
      assert after.strays[task] in system.strays.Values;
      if Lendable(after.pool, after.strays[task]) {
        StepLends(system.pool, event, after.strays[task]);
      }
    }
  }

  // ---------------------------------------------------------------- a call that seeks a connection

  /** The call before a step that may grant it a connection: about to enter, or inside acquire. */
  predicate MaySettle(system: System, task: Task) {
    if task in system.calls then system.calls[task].Entering? else task !in system.pool.phases
  }

  function Settle(system: System, task: Task, mode: Mode, stepped: Stepped): System {
    System(stepped.pool, system.calls[task := Settled(mode, stepped.outcome)], system.strays, system.log)
  }

  lemma SettlingKeepsOwned(system: System, task: Task, mode: Mode, stepped: Stepped)
    requires Sound(system.pool) && Owned(system) && MaySettle(system, task)
    requires Local(system.pool, task, stepped) && !stepped.outcome.Returned?
    requires stepped.outcome.Suspended? ==> SeekingPhase(stepped.pool.phases[task])
    ensures Owned(Settle(system, task, mode, stepped))
  {
    var after := Settle(system, task, mode, stepped);
    forall conn | conn in after.pool.leases
      ensures after.pool.leases[conn] in after.calls && Using(after.calls[after.pool.leases[conn]], conn) {
      if stepped.outcome != Granted(conn) {
        assert system.pool.leases[conn] in system.calls && Using(system.calls[system.pool.leases[conn]], conn);
      }
    }
    forall other | other in after.calls ensures Placed(after.pool, other, after.calls[other]) {
      if other != task {
        assert Placed(system.pool, other, system.calls[other]);
      }
    }
  }

  lemma SettlingKeepsLogged(system: System, task: Task, mode: Mode, stepped: Stepped)
    requires Logged(system) && MaySettle(system, task) && Local(system.pool, task, stepped)
    ensures Logged(Settle(system, task, mode, stepped))
  {
    var after := Settle(system, task, mode, stepped);
    forall other: Task ensures Finished(after, other) == Finished(system, other) {}
  }

  lemma SettlingKeepsFinished(system: System, task: Task, mode: Mode, stepped: Stepped)
    requires MaySettle(system, task)
    ensures forall other :: Finished(system, other) ==> Finished(Settle(system, task, mode, stepped), other)
  {
  }

  lemma SettlingKeepsGood(system: System, mode: Mode, event: Event)
    requires Good(system) && MaySettle(system, event.task) && Allowed(system.pool, event)
    requires event.Created? ==> event.conn !in system.strays.Values
    requires var stepped := Step(system.pool, event);
             Local(system.pool, event.task, stepped) && !stepped.outcome.Returned?
             && (stepped.outcome.Suspended? ==> SeekingPhase(stepped.pool.phases[event.task]))
    ensures Good(Settle(system, event.task, mode, Step(system.pool, event)))
  {
    var stepped := Step(system.pool, event);
    StepKeepsSound(system.pool, event);
    SettlingKeepsOwned(system, event.task, mode, stepped);
    SettlingKeepsLogged(system, event.task, mode, stepped);
    SettlingKeepsFinished(system, event.task, mode, stepped);
    StepKeepsStraysApart(system, event, Settle(system, event.task, mode, stepped));
  }

  lemma BeginIsSettling(system: System, task: Task, mode: Mode, now: real)
    requires Ready(system, Begin(task, mode, now))
    ensures Perform(system, Begin(task, mode, now)) == Settle(system, task, mode, Step(system.pool, Acquire(task, now)))
  {
    var stepped, entered := Step(system.pool, Acquire(task, now)), Called(system, task, Entering(mode));
    assert entered.calls[task := Settled(mode, stepped.outcome)]
           == system.calls[task := Settled(mode, stepped.outcome)];
  }

  lemma BeginKeepsGood(system: System, task: Task, mode: Mode, now: real)
    requires Good(system) && Ready(system, Begin(task, mode, now))
    ensures Good(Perform(system, Begin(task, mode, now)))
  {
    AcquireIsLocal(system.pool, task, now);
    SettlingKeepsGood(system, mode, Acquire(task, now));
    BeginIsSettling(system, task, mode, now);
  }

  lemma SeekingIsSettling(system: System, event: Event)
    requires Enabled(system.pool, event) && event.task in system.calls && system.calls[event.task].Entering?
    ensures Stirred(system, event)
            == Settle(system, event.task, system.calls[event.task].mode, Step(system.pool, event))
  {
  }

  lemma SeekingKeepsGood(system: System, event: Event)
    requires Good(system) && Ready(system, Inside(event)) && event.task in system.calls
             && system.calls[event.task].Entering?
    ensures Good(Stirred(system, event))
  {
    assert Placed(system.pool, event.task, system.calls[event.task]);
    SeekingIsLocal(system.pool, event);
    SettlingKeepsGood(system, system.calls[event.task].mode, event);
    SeekingIsSettling(system, event);
  }

  // ---------------------------------------------------------------- a call that returns, and close_all

  lemma FinishingStep(system: System, event: Event)
    requires Good(system) && Ready(system, Inside(event)) && event.task in system.calls
             && !system.calls[event.task].Entering?
    ensures event.task in system.pool.phases && !system.pool.phases[event.task].Waiting?
    ensures system.calls[event.task].Returning? && Allowed(system.pool, event) && !event.Created?
    ensures Stirred(system, event)
            == System(Freed(system.pool, event.task), system.calls[event.task := Over], system.strays, system.log)
  {
    assert Placed(system.pool, event.task, system.calls[event.task]);
  }

  lemma FinishingKeepsOwned(system: System, task: Task)
    requires Owned(system) && task in system.calls && system.calls[task].Returning? && task in system.pool.phases
    ensures Owned(System(Freed(system.pool, task), system.calls[task := Over], system.strays, system.log))
  {
    var after := System(Freed(system.pool, task), system.calls[task := Over], system.strays, system.log);
    forall other | other in after.calls ensures Placed(after.pool, other, after.calls[other]) {
      assert Placed(system.pool, other, system.calls[other]);
    }
  }

  /** A step that hands nothing back and puts nothing into the queue leaves the log true. */
  lemma SameLogStaysTrue(system: System, after: System)
    requires Logged(system) && after.log == system.log
    requires forall conn :: conn in after.pool.idle ==> conn in system.pool.idle
    requires forall task: Task :: Finished(after, task) == Finished(system, task)
    requires forall task :: task in after.calls ==> Coherent(after.calls[task])
    ensures Logged(after)
  {
  }

  lemma ReturningKeepsGood(system: System, event: Event)
    requires Good(system) && Ready(system, Inside(event)) && event.task in system.calls
             && !system.calls[event.task].Entering?
    ensures Good(Stirred(system, event))
  {
    var after := Stirred(system, event);
    FinishingStep(system, event);
    StepKeepsSound(system.pool, event);
    FinishingKeepsOwned(system, event.task);
    FinishingKeepsFinished(system, event.task);
    SameLogStaysTrue(system, after);
    StepKeepsStraysApart(system, event, after);
  }

  lemma FinishingKeepsFinished(system: System, task: Task)
    requires task in system.calls && system.calls[task].Returning?
    ensures var after := System(Freed(system.pool, task), system.calls[task := Over], system.strays, system.log);
            forall other: Task :: Finished(after, other) == Finished(system, other)
  {
  }

  lemma DrainerStep(system: System, event: Event)
    requires Good(system) && Ready(system, Inside(event)) && event.task !in system.calls
    ensures Allowed(system.pool, event)
            && (event.CloseAll? || (event.Closed? && system.pool.phases[event.task].next == Drain))
    ensures Stirred(system, event) == system.(pool := Step(system.pool, event).pool)
  {
  }

  lemma DrainingKeepsOwned(system: System, task: Task, stepped: Stepped)
    requires Owned(system) && task !in system.calls && Local(system.pool, task, stepped) && !stepped.outcome.Granted?
    requires DrainsOn(stepped, task)
    ensures Owned(system.(pool := stepped.pool))
  {
    var after := system.(pool := stepped.pool);
    forall other | other in after.calls ensures Placed(after.pool, other, after.calls[other]) {
      assert Placed(system.pool, other, system.calls[other]);
    }
  }

  lemma DrainerIsNotGranted(pool: Pool, event: Event)
    requires Enabled(pool, event) && (event.CloseAll? || (event.Closed? && pool.phases[event.task].next == Drain))
    ensures !Step(pool, event).outcome.Granted?
  {
  }

  lemma DrainerKeepsGood(system: System, event: Event)
    requires Good(system) && Ready(system, Inside(event)) && event.task !in system.calls
    ensures Good(Stirred(system, event))
  {
    var after := Stirred(system, event);
    DrainerStep(system, event);
    DrainerIsLocal(system.pool, event);
    DrainerIsNotGranted(system.pool, event);
    DrainingKeepsOwned(system, event.task, Step(system.pool, event));
    StepKeepsSound(system.pool, event);
    forall other: Task ensures Finished(after, other) == Finished(system, other) {}
    SameLogStaysTrue(system, after);
    StepKeepsStraysApart(system, event, after);
  }

  // ---------------------------------------------------------------- the worker and the cancellations

  lemma CallKeepsGood(system: System, task: Task, call: Call)
    requires Good(system) && Owns(system, task) && Coherent(call)
    requires call.Owning? && call.attempt.conn == system.calls[task].attempt.conn
    ensures Good(Called(system, task, call))
  {
    var after := Called(system, task, call);
    assert Placed(system.pool, task, system.calls[task]);
    forall other | other in after.calls ensures Placed(after.pool, other, after.calls[other]) {
      assert Placed(system.pool, other, system.calls[other]);
    }
    forall other: Task ensures Finished(after, other) == Finished(system, other) {}
  }

  // ---------------------------------------------------------------- handing back

  /** A connection about to be handed back, with what is known of its use. */
  predicate Hands(system: System, entry: HandBack) {
    Owns(system, entry.task) && system.calls[entry.task].attempt.conn == entry.attempt.conn && Proper(entry)
  }

  lemma HandingIsAllowed(system: System, entry: HandBack, now: real)
    requires Good(system) && Hands(system, entry)
    ensures Allowed(system.pool, HandBackEvent(entry, now)) && system.pool.leases[entry.attempt.conn] == entry.task
  {
    assert Placed(system.pool, entry.task, system.calls[entry.task]);
  }

  /** What handing a connection back does to the pool. */
  lemma HandingEffect(pool: Pool, event: Event)
    requires Sound(pool) && Allowed(pool, event) && (event.Release? || event.Discard?)
    ensures var stepped := Step(pool, event);
            && stepped.pool.leases == Without(pool.leases, event.conn)
            && (forall conn :: conn in stepped.pool.idle ==>
                conn in pool.idle || (conn == event.conn && event.Release?))
            && (stepped.outcome == Returned ==> stepped.pool.phases == pool.phases)
            && (stepped.outcome != Returned ==>
                  stepped.pool.phases == pool.phases[event.task := Closing(event.conn, Finish)])
  {
    var left := Without(pool.leases, event.conn);
    assert Without(left, event.conn) == left;
  }

  lemma HandingKeepsOwned(system: System, entry: HandBack, event: Event)
    requires Sound(system.pool) && Owned(system) && Allowed(system.pool, event) && (event.Release? || event.Discard?)
    requires event.task == entry.task && entry.task in system.calls && Using(system.calls[entry.task], event.conn)
    ensures Owned(HandedOver(system, entry, event))
  {
    var task, after := entry.task, HandedOver(system, entry, event);
    HandingEffect(system.pool, event);
    assert Placed(system.pool, task, system.calls[task]);
    forall other | other in after.calls ensures Placed(after.pool, other, after.calls[other]) {
      if other != task {
        assert Placed(system.pool, other, system.calls[other]);
      }
    }
  }

  lemma LogGrows(log: seq<HandBack>, entry: HandBack)
    ensures forall task: Task :: Times(log + [entry], task) == Times(log, task) + if entry.task == task then 1 else 0
    ensures forall conn: Conn ::
              Latest(log + [entry], conn) == if entry.attempt.conn == conn then Some(entry) else Latest(log, conn)
  {
    assert (log + [entry])[..|log|] == log;
  }

  lemma EntryKeepsLogged(system: System, entry: HandBack, stepped: Stepped)
    requires Logged(system) && Owns(system, entry.task) && Proper(entry)
    requires forall conn :: conn in stepped.pool.idle ==>
               if conn == entry.attempt.conn then entry.released else conn in system.pool.idle
    ensures Logged(Through(system, entry, stepped))
  {
    var after := Through(system, entry, stepped);
    LogGrows(system.log, entry);
    assert !Finished(system, entry.task) && Finished(after, entry.task);
    forall other: Task | other != entry.task ensures Finished(after, other) == Finished(system, other) {}
  }

  lemma HandingKeepsLogged(system: System, entry: HandBack, event: Event)
    requires Good(system) && Allowed(system.pool, event) && (event.Release? || event.Discard?)
    requires event.task == entry.task && entry.task in system.calls && Using(system.calls[entry.task], event.conn)
    requires entry.attempt.conn == event.conn && entry.released == event.Release? && Proper(entry)
    ensures Logged(HandedOver(system, entry, event))
  {
    HandingEffect(system.pool, event);
    EntryKeepsLogged(system, entry, Step(system.pool, event));
  }

  /** A connection with a stray thread was discarded, not released. */
  lemma HandingKeepsStraysApart(system: System, entry: HandBack, event: Event)
    requires Good(system) && Hands(system, entry)
    requires Allowed(system.pool, event) && (if entry.released then event.Release? else event.Discard?)
    requires event.task == entry.task && event.conn == entry.attempt.conn
    ensures StraysApart(HandedOver(system, entry, event))
  {
    var after := HandedOver(system, entry, event);
    forall task | task in after.strays
      ensures Finished(after, task) && !Lendable(after.pool, after.strays[task]) {
      if task in system.strays && task != entry.task {
        if Lendable(after.pool, system.strays[task]) {
          StepLends(system.pool, event, system.strays[task]);
        }
      } else if entry.attempt.worker == Running {
        DiscardedIsNotLendable(system.pool, entry.task, event.conn);
      }
    }
  }

  lemma HandingKeepsGood(system: System, entry: HandBack, now: real)
    requires Good(system) && Hands(system, entry)
    ensures var event := HandBackEvent(entry, now);
            Enabled(system.pool, event) && Good(HandedOver(system, entry, event))
  {
    var event := HandBackEvent(entry, now);
    HandingIsAllowed(system, entry, now);
    StepKeepsSound(system.pool, event);
    HandingKeepsOwned(system, entry, event);
    HandingKeepsLogged(system, entry, event);
    HandingKeepsStraysApart(system, entry, event);
  }

  // ---------------------------------------------------------------- the end of the await

  /** The flags and the finally block, seen from the end of the await: left to the cleanup task exactly
      when the await was interrupted, else released exactly when it is clean. */
  lemma FlagsDecide(call: Call, awaited: Awaited)
    requires call.Owning? && call.stage == Awaiting && Coherent(call)
    ensures var released := Finally(Noted(call.attempt, awaited));
            && (released.None? <==> awaited == Interrupted)
            && (released == Some(true) <==> awaited == Answered && Reusable(call.attempt.mode))
  {
  }

  lemma InterruptingKeepsGood(system: System, task: Task)
    requires Good(system) && Ready(system, Cancel(task))
    ensures Good(Perform(system, Cancel(task)))
  {
    var call := system.calls[task];
    FlagsDecide(call, Interrupted);
    CallKeepsGood(system, task, Owning(Noted(call.attempt, Interrupted), Scheduled));
  }

  lemma ResumingKeepsGood(system: System, task: Task, now: real)
    requires Good(system) && Ready(system, Resume(task, now))
    ensures Good(Perform(system, Resume(task, now)))
  {
    var call := system.calls[task];
    var attempt := Noted(call.attempt, Seen(call.attempt.worker));
    FlagsDecide(call, Seen(call.attempt.worker));
    HandingKeepsGood(system, HandBack(task, Finally(attempt).value, attempt), now);
  }

  // ---------------------------------------------------------------- every move, every run

  lemma BoundaryKeepsGood(system: System, event: Event)
    requires Good(system) && Ready(system, Inside(event))
    ensures Good(Stirred(system, event))
  {
    if event.task !in system.calls {
      DrainerKeepsGood(system, event);
    } else if system.calls[event.task].Entering? {
      SeekingKeepsGood(system, event);
    } else {
      ReturningKeepsGood(system, event);
    }
  }

  lemma MoveKeepsGood(system: System, move: Move)
    requires Good(system) && Ready(system, move)
    ensures Good(Perform(system, move))
  {
    match move
    case Begin(task, mode, now) => BeginKeepsGood(system, task, mode, now);
    case Inside(event) => BoundaryKeepsGood(system, event);
    case WorkerEnds(task, succeeded) =>
      if task !in system.strays {
        var call := system.calls[task];
        CallKeepsGood(system, task, Owning(Ended(call.attempt, succeeded), call.stage));
      } else {
        FewerStraysAreGood(system, task);
      }
    case Cancel(task) => InterruptingKeepsGood(system, task);
    case CancelWorker(task) =>
      CallKeepsGood(system, task, Owning(Detached(system.calls[task].attempt), system.calls[task].stage));
    case BeginCleanup(task) => CallKeepsGood(system, task, Owning(system.calls[task].attempt, Cleaning));
    case CancelCleanup(task) => CallKeepsGood(system, task, CleanupCancelled(system.calls[task]));
    case Resume(task, now) => ResumingKeepsGood(system, task, now);
    case Cleanup(task) => HandingKeepsGood(system, HandBack(task, false, system.calls[task].attempt), 0.0);
  }

  lemma FewerStraysAreGood(system: System, task: Task)
    requires Good(system)
    ensures Good(system.(strays := system.strays - {task}))
  {
    var after := system.(strays := system.strays - {task});
    forall other: Task ensures Finished(after, other) == Finished(system, other) {}
  }

  function Run(limit: nat, moves: seq<Move>): Option<System> {
    if moves == [] then Some(Start(limit))
    else
      var before, last := Run(limit, moves[..|moves| - 1]), moves[|moves| - 1];
      if before.Some? && Ready(before.value, last) then Some(Perform(before.value, last)) else None
  }

  lemma {:induction false} RunsStayGood(limit: nat, moves: seq<Move>)
    requires Run(limit, moves).Some?
    ensures Good(Run(limit, moves).value)
  {
    if moves == [] {
      assert Occupants(Empty(limit).phases) == {};
    } else {
      RunsStayGood(limit, moves[..|moves| - 1]);
      MoveKeepsGood(Run(limit, moves[..|moves| - 1]).value, moves[|moves| - 1]);
    }
  }

  /** A call that is through has handed back one connection, one time; a call that still owns its
      connection holds the only lease of it and has handed back none. */
  lemma HandedBackExactlyOnce(limit: nat, moves: seq<Move>, task: Task)
    requires Run(limit, moves).Some? && task in Run(limit, moves).value.calls
    ensures var system := Run(limit, moves).value;
            match system.calls[task]
            case Over => Times(system.log, task) == 1
            case Returning => Times(system.log, task) == 1
            case Rejected => Times(system.log, task) == 0
            case Entering(_) => Times(system.log, task) == 0
            case Owning(attempt, _) =>
              && Times(system.log, task) == 0
              && attempt.conn in system.pool.leases && system.pool.leases[attempt.conn] == task
              && attempt.conn !in system.pool.idle
  {
    RunsStayGood(limit, moves);
    var system := Run(limit, moves).value;
    assert Times(system.log, task) == if Finished(system, task) then 1 else 0;
  }

  /** A connection is released exactly when the worker succeeded, the await was not interrupted, and
      the mode leaves the session as it was. */
  lemma ReleasedExactlyWhenClean(limit: nat, moves: seq<Move>, entry: HandBack)
    requires Run(limit, moves).Some? && entry in Run(limit, moves).value.log
    ensures entry.released <==>
              entry.attempt.worker == Succeeded && Reusable(entry.attempt.mode) && !entry.attempt.deferredCleanup
    ensures entry.attempt.worker == Running ==> entry.attempt.detached && !entry.released
  {
    RunsStayGood(limit, moves);
  }

  /** The idle queue never offers a connection whose last use failed, was interrupted, was an admin
      batch or a transaction, or is still running. */
  lemma IdleConnectionsAreClean(limit: nat, moves: seq<Move>, conn: Conn)
    requires Run(limit, moves).Some? && conn in Run(limit, moves).value.pool.idle
    ensures var system := Run(limit, moves).value;
            && Latest(system.log, conn).Some?
            && var use := Latest(system.log, conn).value.attempt;
               use.worker == Succeeded && Reusable(use.mode) && !use.deferredCleanup
    ensures forall task :: task in Run(limit, moves).value.calls ==> !Using(Run(limit, moves).value.calls[task], conn)
    ensures conn !in Run(limit, moves).value.strays.Values
  {
    RunsStayGood(limit, moves);
    var system := Run(limit, moves).value;
    LatestIsLogged(system.log, conn);
    assert Lendable(system.pool, conn);
  }

  lemma {:induction false} LatestIsLogged(log: seq<HandBack>, conn: Conn)
    requires Latest(log, conn).Some?
    ensures Latest(log, conn).value in log && Latest(log, conn).value.attempt.conn == conn
  {
    if log[|log| - 1].attempt.conn != conn {
      LatestIsLogged(log[..|log| - 1], conn);
    }
  }

  // ---------------------------------------------------------------- threads that outlive the hand-back

  /** A thread never shares its connection: not with another call, and after the hand-back with none. */
  lemma NoThreadSharesItsConnection(limit: nat, moves: seq<Move>, task: Task, other: Task)
    requires Run(limit, moves).Some?
    ensures var system := Run(limit, moves).value;
            && (task in system.strays ==>
                  !Lendable(system.pool, system.strays[task])
                  && (other in system.calls ==> !Using(system.calls[other], system.strays[task])))
            && (Owns(system, task) && other in system.calls && other != task ==>
                  !Using(system.calls[other], system.calls[task].attempt.conn))
  {
    RunsStayGood(limit, moves);
  }

  predicate Interferes(move: Move, task: Task) { move == CancelWorker(task) || move == CancelCleanup(task) }

  predicate Ends(move: Move, task: Task) { move.WorkerEnds? && move.task == task }

  /** The worker's task or the cleanup task of this call was cancelled. */
  predicate Interfered(moves: seq<Move>, task: Task) {
    exists i :: 0 <= i < |moves| && Interferes(moves[i], task)
  }

  predicate ThreadEnded(moves: seq<Move>, task: Task) { exists i :: 0 <= i < |moves| && Ends(moves[i], task) }

  /** What the call knows of its thread is what happened in the run. */
  predicate Remembers(system: System, moves: seq<Move>, task: Task) {
    if Owns(system, task) then
      var call := system.calls[task];
      && (call.attempt.worker != Running <==> ThreadEnded(moves, task))
      && (call.stage != Lost ==> (call.attempt.detached <==> Interfered(moves, task)))
    else if Finished(system, task) then true
    else !ThreadEnded(moves, task) && !Interfered(moves, task)
  }

  lemma OneMoreMove(moves: seq<Move>, last: Move, task: Task)
    ensures Interfered(moves + [last], task) <==> Interfered(moves, task) || Interferes(last, task)
    ensures ThreadEnded(moves + [last], task) <==> ThreadEnded(moves, task) || Ends(last, task)
  {
    var more := moves + [last];
    assert more[|moves|] == last;
    assert forall i :: 0 <= i < |moves| ==> more[i] == moves[i];
  }

  function MoverOf(move: Move): Task { if move.Inside? then move.event.task else move.task }

  /** A move changes the call of the task that moves, and no other call. */
  lemma OthersStay(system: System, move: Move, task: Task)
    requires Ready(system, move) && MoverOf(move) != task
    ensures var after := Perform(system, move);
            (task in after.calls <==> task in system.calls)
            && (task in system.calls ==> after.calls[task] == system.calls[task])
  {
  }

  lemma HandingFinishes(system: System, entry: HandBack, event: Event)
    requires Enabled(system.pool, event)
    ensures Finished(HandedOver(system, entry, event), entry.task)
    ensures !Owns(HandedOver(system, entry, event), entry.task)
  {
  }

  lemma BeginRemembers(system: System, moves: seq<Move>, move: Move)
    requires Good(system) && Ready(system, move) && move.Begin? && Remembers(system, moves, move.task)
    ensures Remembers(Perform(system, move), moves + [move], move.task)
  {
    OneMoreMove(moves, move, move.task);
    BeginIsSettling(system, move.task, move.mode, move.now);
  }

  lemma OwnMoveRemembers(system: System, moves: seq<Move>, move: Move)
    requires Good(system) && Ready(system, move) && !move.Inside? && !move.Begin?
    requires Remembers(system, moves, move.task)
    ensures Remembers(Perform(system, move), moves + [move], move.task)
  {
    var task := move.task;
    OneMoreMove(moves, move, task);
    match move
    case Cancel(_) => FlagsDecide(system.calls[task], Interrupted);
    case Resume(_, now) =>
      var attempt := Noted(system.calls[task].attempt, Seen(system.calls[task].attempt.worker));
      FlagsDecide(system.calls[task], Seen(system.calls[task].attempt.worker));
      var entry := HandBack(task, Finally(attempt).value, attempt);
      HandingFinishes(system, entry, HandBackEvent(entry, now));
    case Cleanup(_) =>
      var entry := HandBack(task, false, system.calls[task].attempt);
      HandingFinishes(system, entry, HandBackEvent(entry, 0.0));
    case _ =>
  }

  lemma InsideRemembers(system: System, moves: seq<Move>, event: Event)
    requires Good(system) && Ready(system, Inside(event)) && Remembers(system, moves, event.task)
    ensures Remembers(Perform(system, Inside(event)), moves + [Inside(event)], event.task)
  {
    OneMoreMove(moves, Inside(event), event.task);
    if event.task in system.calls {
      assert Placed(system.pool, event.task, system.calls[event.task]);
    }
  }

  lemma MoveRemembers(system: System, moves: seq<Move>, move: Move, task: Task)
    requires Good(system) && Ready(system, move) && Remembers(system, moves, task)
    ensures Remembers(Perform(system, move), moves + [move], task)
  {
    if MoverOf(move) != task {
      OthersStay(system, move, task);
      OneMoreMove(moves, move, task);
    } else if move.Inside? {
      InsideRemembers(system, moves, move.event);
    } else if move.Begin? {
      BeginRemembers(system, moves, move);
    } else {
      OwnMoveRemembers(system, moves, move);
    }
  }

  lemma {:induction false} RunsRemember(limit: nat, moves: seq<Move>, task: Task)
    requires Run(limit, moves).Some?
    ensures Remembers(Run(limit, moves).value, moves, task)
  {
    if moves != [] {
      var front, last := moves[..|moves| - 1], moves[|moves| - 1];
      RunsRemember(limit, front, task);
      RunsStayGood(limit, front);
      MoveRemembers(Run(limit, front).value, front, last, task);
      assert front + [last] == moves;
    }
  }

  /** The moves that may hand a connection back. */
  predicate HandsBack(system: System, move: Move)
    requires Ready(system, move)
  {
    |Perform(system, move).log| > |system.log|
  }

  /** A connection is handed back under a running worker exactly when the worker's task or the cleanup
      task of its call was cancelled before and the thread has not ended since. */
  lemma HandedBackUnderAWorkerExactly(limit: nat, moves: seq<Move>, move: Move)
    requires Run(limit, moves).Some? && Ready(Run(limit, moves).value, move) && HandsBack(Run(limit, moves).value, move)
    ensures var before, after := Run(limit, moves).value, Perform(Run(limit, moves).value, move);
            && |after.log| == |before.log| + 1
            && var entry := after.log[|before.log|];
               entry.task == MoverOf(move)
               && (entry.attempt.worker == Running <==>
                     Interfered(moves, entry.task) && !ThreadEnded(moves, entry.task))
               && (entry.attempt.worker == Running <==> entry.task in after.strays)
  {
    var before := Run(limit, moves).value;
    RunsStayGood(limit, moves);
    assert move.Resume? || move.Cleanup? by {
      if move.Cancel? {
        FlagsDecide(before.calls[move.task], Interrupted);
      }
    }
    RunsRemember(limit, moves, move.task);
    if move.Resume? {
      FlagsDecide(before.calls[move.task], Seen(before.calls[move.task].attempt.worker));
    }
  }

  lemma OneMoveMore(limit: nat, moves: seq<Move>, system: System, move: Move)
    requires Run(limit, moves) == Some(system) && Ready(system, move)
    ensures Run(limit, moves + [move]) == Some(Perform(system, move))
  {
    assert (moves + [move])[..|moves|] == moves;
  }

  /** A call that was cancelled at its await; its cleanup task was created. */
  lemma CallIsCancelled() returns (moves: seq<Move>, system: System)
    ensures Run(1, moves) == Some(system)
    ensures system.calls == map[1 := Owning(Attempt(Session, 7, Running, false, false, true), Scheduled)]
    ensures system.pool.phases == map[] && system.pool.leases == map[7 := 1] && system.strays == map[]
  {
    system, moves := Start(1), [];
    OneMoveMore(1, moves, system, Begin(1, Session, 0.0));
    system, moves := Perform(system, Begin(1, Session, 0.0)), moves + [Begin(1, Session, 0.0)];
    OneMoveMore(1, moves, system, Inside(Created(1, 7)));
    system, moves := Perform(system, Inside(Created(1, 7))), moves + [Inside(Created(1, 7))];
    OneMoveMore(1, moves, system, Cancel(1));
    system, moves := Perform(system, Cancel(1)), moves + [Cancel(1)];
  }

  /** So a thread may be outlived: the cleanup task is cancelled once it waits, and the connection is discarded while
      the thread still runs on it. */
  lemma WorkersMayBeOutlived() returns (moves: seq<Move>)
    ensures Run(1, moves).Some? && 1 in Run(1, moves).value.strays
  {
    var system: System;
    moves, system := CallIsCancelled();
    OneMoveMore(1, moves, system, BeginCleanup(1));
    system, moves := Perform(system, BeginCleanup(1)), moves + [BeginCleanup(1)];
    OneMoveMore(1, moves, system, CancelCleanup(1));
    system, moves := Perform(system, CancelCleanup(1)), moves + [CancelCleanup(1)];
    OneMoveMore(1, moves, system, Cleanup(1));
    moves := moves + [Cleanup(1)];
  }

  // ---------------------------------------------------------------- the pool under the executor

  function FinallyEvents(task: Task, attempt: Attempt, now: real): seq<Event> {
    var released := Finally(attempt);
    if released.Some? then [HandBackEvent(HandBack(task, released.value, attempt), now)] else []
  }

  function PoolEvents(system: System, move: Move): seq<Event>
    requires Ready(system, move)
  {
    match move
    case Begin(task, _, now) => [Acquire(task, now)]
    case Inside(event) => [event]
    case Resume(task, now) =>
      var attempt := system.calls[task].attempt;
      FinallyEvents(task, Noted(attempt, Seen(attempt.worker)), now)
    case Cancel(task) => FinallyEvents(task, Noted(system.calls[task].attempt, Interrupted), 0.0)
    case Cleanup(task) => [HandBackEvent(HandBack(task, false, system.calls[task].attempt), 0.0)]
    case _ => []
  }

  function PoolRun(limit: nat, moves: seq<Move>): seq<Event> {
    if moves == [] then []
    else
      var before, last := Run(limit, moves[..|moves| - 1]), moves[|moves| - 1];
      PoolRun(limit, moves[..|moves| - 1])
      + if before.Some? && Ready(before.value, last) then PoolEvents(before.value, last) else []
  }

  lemma MoveIsAllowed(system: System, move: Move)
    requires Good(system) && Ready(system, move)
    ensures var events := PoolEvents(system, move);
            if events == [] then Perform(system, move).pool == system.pool
            else
              && |events| == 1 && Allowed(system.pool, events[0])
              && Step(system.pool, events[0]).pool == Perform(system, move).pool
  {
    match move
    case Resume(task, now) =>
      var attempt := Noted(system.calls[task].attempt, Seen(system.calls[task].attempt.worker));
      FlagsDecide(system.calls[task], Seen(system.calls[task].attempt.worker));
      HandingIsAllowed(system, HandBack(task, Finally(attempt).value, attempt), now);
    case Cancel(task) => FlagsDecide(system.calls[task], Interrupted);
    case Cleanup(task) => HandingIsAllowed(system, HandBack(task, false, system.calls[task].attempt), 0.0);
    case _ =>
  }

  /** The executor keeps what the pool asks of its callers: its runs are runs of the pool in which
      only leased connections are handed back. */
  lemma {:induction false} ExecutorKeepsThePoolsRules(limit: nat, moves: seq<Move>)
    requires Run(limit, moves).Some?
    ensures AllowedRun(limit, PoolRun(limit, moves))
    ensures After(limit, PoolRun(limit, moves)) == Some(Run(limit, moves).value.pool)
  {
    if moves != [] {
      var front, last := moves[..|moves| - 1], moves[|moves| - 1];
      ExecutorKeepsThePoolsRules(limit, front);
      RunsStayGood(limit, front);
      var before, events := Run(limit, front).value, PoolRun(limit, front);
      var more := PoolEvents(before, last);
      MoveIsAllowed(before, last);
      if more == [] {
        assert events + more == events;
      } else {
        assert more == [more[0]];
        OneMore(limit, events, before.pool, more[0]);
      }
    }
  }
}
