/** When an acquired connection is never handed back: exactly when the cleanup task of its call was
    cancelled before it began. Every other call that owns a connection can still hand it back. */
module ExecutorLosses {
  import opened Wrappers
  import opened PoolModel
  import opened ExecutorOwnership
  import opened ExecutorSafety

  // ---------------------------------------------------------------- the history of a loss

  predicate Begun(moves: seq<Move>, task: Task) {
    exists i :: 0 <= i < |moves| && moves[i] == BeginCleanup(task)
  }

  /** The cleanup task was cancelled, and had not begun before. */
  predicate CancelledUnbegun(moves: seq<Move>, task: Task) {
    exists i :: 0 <= i < |moves| && moves[i] == CancelCleanup(task) && !Begun(moves[..i], task)
  }

  lemma LongerHistory(moves: seq<Move>, last: Move, task: Task)
    ensures Begun(moves + [last], task) <==> Begun(moves, task) || last == BeginCleanup(task)
    ensures CancelledUnbegun(moves + [last], task)
            <==> CancelledUnbegun(moves, task) || (last == CancelCleanup(task) && !Begun(moves, task))
  {
    var more := moves + [last];
    assert more[|moves|] == last && more[..|moves|] == moves;
    assert forall i :: 0 <= i < |moves| ==> more[i] == moves[i] && more[..i] == moves[..i];
  }

  /** What the stage of a call tells of its cleanup task. */
  predicate Tells(system: System, moves: seq<Move>, task: Task) {
    && (CancelledUnbegun(moves, task) <==> OwnsAt(system, task, Lost))
    && (OwnsAt(system, task, Cleaning) || Finished(system, task) || OwnsAt(system, task, Lost)
        || !Begun(moves, task))
    && (OwnsAt(system, task, Cleaning) ==> Begun(moves, task))
  }

  /** A caller that resumes and a cleanup task that finishes hand the connection back. */
  lemma HandingTells(system: System, moves: seq<Move>, move: Move)
    requires Good(system) && Ready(system, move) && (move.Resume? || move.Cleanup?) && Tells(system, moves, move.task)
    ensures Tells(Perform(system, move), moves + [move], move.task)
  {
    LongerHistory(moves, move, move.task);
    var attempt := system.calls[move.task].attempt;
    if move.Resume? {
      FlagsDecide(system.calls[move.task], Seen(attempt.worker));
      var noted := Noted(attempt, Seen(attempt.worker));
      var entry := HandBack(move.task, Finally(noted).value, noted);
      HandingFinishes(system, entry, HandBackEvent(entry, move.now));
    } else {
      var entry := HandBack(move.task, false, attempt);
      HandingFinishes(system, entry, HandBackEvent(entry, 0.0));
    }
  }

  lemma CancelSchedules(system: System, task: Task)
    requires Good(system) && Ready(system, Cancel(task))
    ensures Perform(system, Cancel(task))
            == Called(system, task, Owning(Noted(system.calls[task].attempt, Interrupted), Scheduled))
  {
    FlagsDecide(system.calls[task], Interrupted);
  }

  lemma CancelTells(system: System, moves: seq<Move>, task: Task)
    requires Good(system) && Ready(system, Cancel(task)) && Tells(system, moves, task)
    ensures Tells(Perform(system, Cancel(task)), moves + [Cancel(task)], task)
  {
    LongerHistory(moves, Cancel(task), task);
    CancelSchedules(system, task);
  }

  /** The moves that change the stage or the attempt of a call and nothing else. */
  predicate Staging(move: Move) {
    move.WorkerEnds? || move.CancelWorker? || move.BeginCleanup? || move.CancelCleanup?
  }

  function NextStage(stage: Stage, move: Move): Stage {
    if move.BeginCleanup? then Cleaning
    else if move.CancelCleanup? && stage == Scheduled then Lost
    else stage
  }

  lemma StagingStages(system: System, move: Move)
    requires Ready(system, move) && Staging(move)
    ensures var after := Perform(system, move);
            && (Owns(after, move.task) <==> Owns(system, move.task))
            && (Finished(after, move.task) <==> Finished(system, move.task))
            && (Owns(system, move.task) ==>
                  after.calls[move.task].stage == NextStage(system.calls[move.task].stage, move))
  {
  }

  lemma StagingTells(system: System, moves: seq<Move>, move: Move, after: System)
    requires Ready(system, move) && Staging(move) && Tells(system, moves, move.task)
    requires Owns(after, move.task) <==> Owns(system, move.task)
    requires Finished(after, move.task) <==> Finished(system, move.task)
    requires Owns(system, move.task) ==>
               after.calls[move.task].stage == NextStage(system.calls[move.task].stage, move)
    ensures Tells(after, moves + [move], move.task)
  {
    LongerHistory(moves, move, move.task);
  }

  lemma BeginTells(system: System, moves: seq<Move>, move: Move)
    requires Good(system) && Ready(system, move) && move.Begin? && Tells(system, moves, move.task)
    ensures Tells(Perform(system, move), moves + [move], move.task)
  {
    LongerHistory(moves, move, move.task);
    BeginIsSettling(system, move.task, move.mode, move.now);
  }

  lemma InsideTells(system: System, moves: seq<Move>, event: Event)
    requires Good(system) && Ready(system, Inside(event)) && Tells(system, moves, event.task)
    ensures Tells(Perform(system, Inside(event)), moves + [Inside(event)], event.task)
  {
    LongerHistory(moves, Inside(event), event.task);
    if event.task in system.calls {
      assert Placed(system.pool, event.task, system.calls[event.task]);
    }
  }

  lemma MoveTells(system: System, moves: seq<Move>, move: Move, task: Task)
    requires Good(system) && Ready(system, move) && Tells(system, moves, task)
    ensures Tells(Perform(system, move), moves + [move], task)
  {
    if MoverOf(move) != task {
      OthersStay(system, move, task);
      LongerHistory(moves, move, task);
    } else if move.Inside? {
      InsideTells(system, moves, move.event);
    } else if move.Begin? {
      BeginTells(system, moves, move);
    } else if move.Cancel? {
      CancelTells(system, moves, task);
    } else if move.Resume? || move.Cleanup? {
      HandingTells(system, moves, move);
    } else {
      StagingStages(system, move);
      StagingTells(system, moves, move, Perform(system, move));
    }
  }

  lemma {:induction false} RunsTell(limit: nat, moves: seq<Move>, task: Task)
    requires Run(limit, moves).Some?
    ensures Tells(Run(limit, moves).value, moves, task)
  {
    if moves != [] {
      var front, last := moves[..|moves| - 1], moves[|moves| - 1];
      RunsTell(limit, front, task);
      RunsStayGood(limit, front);
      MoveTells(Run(limit, front).value, front, last, task);
      assert front + [last] == moves;
    }
  }

  // ---------------------------------------------------------------- what a run can be continued with

  /** The run can be continued so that the call hands its connection back. */
  ghost predicate CanHandBack(limit: nat, moves: seq<Move>, task: Task) {
    exists more :: HandsBackAfter(limit, moves, more, task)
  }

  predicate HandsBackAfter(limit: nat, moves: seq<Move>, more: seq<Move>, task: Task) {
    Run(limit, moves + more).Some? && Finished(Run(limit, moves + more).value, task)
  }

  lemma ContinuedByOne(limit: nat, moves: seq<Move>, move: Move, task: Task)
    requires CanHandBack(limit, moves + [move], task)
    ensures CanHandBack(limit, moves, task)
  {
    var more :| HandsBackAfter(limit, moves + [move], more, task);
    assert moves + [move] + more == moves + ([move] + more);
    assert HandsBackAfter(limit, moves, [move] + more, task);
  }

  lemma EndsNow(limit: nat, moves: seq<Move>, system: System, move: Move, task: Task)
    requires Run(limit, moves) == Some(system) && Ready(system, move) && Finished(Perform(system, move), task)
    ensures CanHandBack(limit, moves, task)
  {
    OneMoveMore(limit, moves, system, move);
    assert HandsBackAfter(limit, moves, [move], task);
  }

  /** The caller is at its await, the worker has ended, and its task was not cancelled. */
  lemma ResumingHandsBack(limit: nat, moves: seq<Move>, system: System, task: Task)
    requires Run(limit, moves) == Some(system) && OwnsAt(system, task, Awaiting)
    requires system.calls[task].attempt.worker != Running && !system.calls[task].attempt.detached
    ensures CanHandBack(limit, moves, task)
  {
    RunsStayGood(limit, moves);
    assert Placed(system.pool, task, system.calls[task]);
    var attempt := Noted(system.calls[task].attempt, Seen(system.calls[task].attempt.worker));
    FlagsDecide(system.calls[task], Seen(system.calls[task].attempt.worker));
    var entry := HandBack(task, Finally(attempt).value, attempt);
    HandingFinishes(system, entry, HandBackEvent(entry, 0.0));
    EndsNow(limit, moves, system, Resume(task, 0.0), task);
  }

  /** The cleanup task has begun and the worker's task is done. */
  lemma CleaningHandsBack(limit: nat, moves: seq<Move>, system: System, task: Task)
    requires Run(limit, moves) == Some(system) && OwnsAt(system, task, Cleaning)
    requires !Pending(system.calls[task].attempt)
    ensures CanHandBack(limit, moves, task)
  {
    RunsStayGood(limit, moves);
    assert Placed(system.pool, task, system.calls[task]);
    var entry := HandBack(task, false, system.calls[task].attempt);
    HandingFinishes(system, entry, HandBackEvent(entry, 0.0));
    EndsNow(limit, moves, system, Cleanup(task), task);
  }

  /** The thread of a call that owns its connection ends. */
  lemma EndingKeepsStage(limit: nat, moves: seq<Move>, system: System, task: Task)
    requires Run(limit, moves) == Some(system) && Owns(system, task) && system.calls[task].attempt.worker == Running
    ensures Ready(system, WorkerEnds(task, true))
    ensures var after := Perform(system, WorkerEnds(task, true));
            && Run(limit, moves + [WorkerEnds(task, true)]) == Some(after)
            && OwnsAt(after, task, system.calls[task].stage)
            && after.calls[task].attempt == Ended(system.calls[task].attempt, true)
  {
    RunsStayGood(limit, moves);
    assert task !in system.strays;
    OneMoveMore(limit, moves, system, WorkerEnds(task, true));
  }

  lemma BegunHandsBack(limit: nat, moves: seq<Move>, system: System, task: Task)
    requires Run(limit, moves) == Some(system) && OwnsAt(system, task, Cleaning)
    ensures CanHandBack(limit, moves, task)
  {
    if Pending(system.calls[task].attempt) {
      EndingKeepsStage(limit, moves, system, task);
      var after := Perform(system, WorkerEnds(task, true));
      CleaningHandsBack(limit, moves + [WorkerEnds(task, true)], after, task);
      ContinuedByOne(limit, moves, WorkerEnds(task, true), task);
    } else {
      CleaningHandsBack(limit, moves, system, task);
    }
  }

  lemma ScheduledHandsBack(limit: nat, moves: seq<Move>, system: System, task: Task)
    requires Run(limit, moves) == Some(system) && OwnsAt(system, task, Scheduled)
    ensures CanHandBack(limit, moves, task)
  {
    OneMoveMore(limit, moves, system, BeginCleanup(task));
    BegunHandsBack(limit, moves + [BeginCleanup(task)], Perform(system, BeginCleanup(task)), task);
    ContinuedByOne(limit, moves, BeginCleanup(task), task);
  }

  lemma InterruptedHandsBack(limit: nat, moves: seq<Move>, system: System, task: Task)
    requires Run(limit, moves) == Some(system) && OwnsAt(system, task, Awaiting)
    ensures CanHandBack(limit, moves, task)
  {
    RunsStayGood(limit, moves);
    assert Placed(system.pool, task, system.calls[task]);
    FlagsDecide(system.calls[task], Interrupted);
    OneMoveMore(limit, moves, system, Cancel(task));
    ScheduledHandsBack(limit, moves + [Cancel(task)], Perform(system, Cancel(task)), task);
    ContinuedByOne(limit, moves, Cancel(task), task);
  }

  /** Without a cancellation the worker ends and the caller goes on. */
  lemma AwaitingHandsBack(limit: nat, moves: seq<Move>, system: System, task: Task)
    requires Run(limit, moves) == Some(system) && OwnsAt(system, task, Awaiting)
    ensures CanHandBack(limit, moves, task)
  {
    if system.calls[task].attempt.detached {
      InterruptedHandsBack(limit, moves, system, task);
    } else if system.calls[task].attempt.worker == Running {
      EndingKeepsStage(limit, moves, system, task);
      var after := Perform(system, WorkerEnds(task, true));
      ResumingHandsBack(limit, moves + [WorkerEnds(task, true)], after, task);
      ContinuedByOne(limit, moves, WorkerEnds(task, true), task);
    } else {
      ResumingHandsBack(limit, moves, system, task);
    }
  }

  // ---------------------------------------------------------------- the exact condition

  /** A call is lost exactly when its cleanup task was cancelled before it began. */
  lemma LostExactly(limit: nat, moves: seq<Move>, task: Task)
    requires Run(limit, moves).Some?
    ensures OwnsAt(Run(limit, moves).value, task, Lost) <==> CancelledUnbegun(moves, task)
  {
    RunsTell(limit, moves, task);
  }

  /** A longer run of a lost call leaves it lost, and its connection leased to it. */
  lemma {:induction false} LostStays(limit: nat, moves: seq<Move>, more: seq<Move>, task: Task)
    requires Run(limit, moves + more).Some? && CancelledUnbegun(moves, task)
    ensures Run(limit, moves).Some? && OwnsAt(Run(limit, moves).value, task, Lost)
    ensures var conn, after := Run(limit, moves).value.calls[task].attempt.conn, Run(limit, moves + more).value;
            && OwnsAt(after, task, Lost) && after.calls[task].attempt.conn == conn
            && conn in after.pool.leases && after.pool.leases[conn] == task && Times(after.log, task) == 0
  {
    if more == [] {
      assert moves + more == moves;
      LostExactly(limit, moves, task);
    } else {
      var front, last := more[..|more| - 1], more[|more| - 1];
      assert (moves + more)[..|moves + more| - 1] == moves + front && (moves + more)[|moves + more| - 1] == last;
      LostStays(limit, moves, front, task);
      StepLeavesLost(limit, moves + front, last, task);
    }
    HandedBackExactlyOnce(limit, moves + more, task);
  }

  lemma StepLeavesLost(limit: nat, moves: seq<Move>, last: Move, task: Task)
    requires Run(limit, moves).Some? && OwnsAt(Run(limit, moves).value, task, Lost)
             && Ready(Run(limit, moves).value, last)
    ensures var before, after := Run(limit, moves).value, Perform(Run(limit, moves).value, last);
            OwnsAt(after, task, Lost) && after.calls[task].attempt.conn == before.calls[task].attempt.conn
  {
    var before := Run(limit, moves).value;
    RunsStayGood(limit, moves);
    assert Placed(before.pool, task, before.calls[task]);
    if MoverOf(last) != task {
      OthersStay(before, last, task);
    }
  }

  /** The connection that a call owns is never handed back, however the run goes on, if and only if
      the cleanup task of the call was cancelled before it began. */
  lemma NeverHandedBackExactly(limit: nat, moves: seq<Move>, task: Task)
    requires Run(limit, moves).Some? && Owns(Run(limit, moves).value, task)
    ensures !CanHandBack(limit, moves, task) <==> CancelledUnbegun(moves, task)
  {
    var system := Run(limit, moves).value;
    LostExactly(limit, moves, task);
    if CancelledUnbegun(moves, task) {
      forall more ensures !HandsBackAfter(limit, moves, more, task) {
        if Run(limit, moves + more).Some? {
          LostStays(limit, moves, more, task);
        }
      }
    } else {
      match system.calls[task].stage
      case Awaiting => AwaitingHandsBack(limit, moves, system, task);
      case Scheduled => ScheduledHandsBack(limit, moves, system, task);
      case Cleaning => BegunHandsBack(limit, moves, system, task);
      case Lost =>
    }
  }

  /** Such a run: the call is cancelled, and then its cleanup task at once. */
  lemma ConnectionsMayBeLost() returns (moves: seq<Move>)
    ensures Run(1, moves).Some? && Owns(Run(1, moves).value, 1) && !CanHandBack(1, moves, 1)
  {
    var system: System;
    moves, system := CallIsCancelled();
    OneMoveMore(1, moves, system, CancelCleanup(1));
    moves := moves + [CancelCleanup(1)];
    LostExactly(1, moves, 1);
    NeverHandedBackExactly(1, moves, 1);
  }
}
