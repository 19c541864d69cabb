/** When a connection is released to the pool, read off the moves of a run. */
module ExecutorEvents {
  import opened Wrappers
  import opened PoolModel
  import opened PoolSafety
  import opened PoolCirculation
  import opened ExecutorOwnership
  import opened ExecutorSafety

  /** The mode in which the call began. */
  function BegunAs(moves: seq<Move>, task: Task): Option<Mode> {
    if moves == [] then None
    else
      var last := moves[|moves| - 1];
      if last.Begin? && last.task == task then Some(last.mode) else BegunAs(moves[..|moves| - 1], task)
  }

  /** How its worker thread ended, if it did. */
  function ThreadResult(moves: seq<Move>, task: Task): Option<bool> {
    if moves == [] then None
    else
      var last := moves[|moves| - 1];
      if last.WorkerEnds? && last.task == task then Some(last.succeeded) else ThreadResult(moves[..|moves| - 1], task)
  }

  function ResultOf(worker: Worker): Option<bool> {
    match worker case Running => None case Succeeded => Some(true) case Failed => Some(false)
  }

  /** A call knows its mode and the end of its thread from its own moves. */
  predicate Recalls(system: System, moves: seq<Move>, task: Task) {
    if task !in system.calls then BegunAs(moves, task).None? && ThreadResult(moves, task).None?
    else match system.calls[task]
      case Entering(mode) => BegunAs(moves, task) == Some(mode) && ThreadResult(moves, task).None?
      case Owning(attempt, _) =>
        BegunAs(moves, task) == Some(attempt.mode) && ThreadResult(moves, task) == ResultOf(attempt.worker)
      case _ => true
  }

  lemma OneMoreMove(moves: seq<Move>, last: Move, task: Task)
    ensures BegunAs(moves + [last], task)
            == if last.Begin? && last.task == task then Some(last.mode) else BegunAs(moves, task)
    ensures ThreadResult(moves + [last], task)
            == if last.WorkerEnds? && last.task == task then Some(last.succeeded) else ThreadResult(moves, task)
  {
    assert (moves + [last])[..|moves|] == moves;
  }

  lemma OwnMoveRecalls(system: System, moves: seq<Move>, move: Move)
    requires Good(system) && Ready(system, move) && !move.Inside? && !move.Begin?
    requires Recalls(system, moves, move.task)
    ensures Recalls(Perform(system, move), moves + [move], move.task)
  {
    var task := move.task;
    OneMoreMove(moves, move, task);
    match move
    case Cancel(_) => FlagsDecide(system.calls[task], Interrupted);
    case Resume(_, now) =>
      var attempt := Noted(system.calls[task].attempt, Seen(system.calls[task].attempt.worker));
      FlagsDecide(system.calls[task], Seen(system.calls[task].attempt.worker));
      var entry := HandBack(task, Finally(attempt).value, attempt);
      HandingFinishes(system, entry, HandBackEvent(entry, now));
    case Cleanup(_) =>
      var entry := HandBack(task, false, system.calls[task].attempt);
      HandingFinishes(system, entry, HandBackEvent(entry, 0.0));
    case _ =>
  }

  lemma InsideRecalls(system: System, moves: seq<Move>, event: Event)
    requires Good(system) && Ready(system, Inside(event)) && Recalls(system, moves, event.task)
    ensures Recalls(Perform(system, Inside(event)), moves + [Inside(event)], event.task)
  {
    OneMoreMove(moves, Inside(event), event.task);
    if event.task in system.calls {
      assert Placed(system.pool, event.task, system.calls[event.task]);
    }
  }

  lemma BeginRecalls(system: System, moves: seq<Move>, move: Move)
    requires Good(system) && Ready(system, move) && move.Begin? && Recalls(system, moves, move.task)
    ensures Recalls(Perform(system, move), moves + [move], move.task)
  {
    OneMoreMove(moves, move, move.task);
    BeginIsSettling(system, move.task, move.mode, move.now);
  }

  lemma MoveRecalls(system: System, moves: seq<Move>, move: Move, task: Task)
    requires Good(system) && Ready(system, move) && Recalls(system, moves, task)
    ensures Recalls(Perform(system, move), moves + [move], task)
  {
    if MoverOf(move) != task {
      OthersStay(system, move, task);
      OneMoreMove(moves, move, task);
    } else if move.Inside? {
      InsideRecalls(system, moves, move.event);
    } else if move.Begin? {
      BeginRecalls(system, moves, move);
    } else {
      OwnMoveRecalls(system, moves, move);
    }
  }

  lemma {:induction false} RunsRecall(limit: nat, moves: seq<Move>, task: Task)
    requires Run(limit, moves).Some?
    ensures Recalls(Run(limit, moves).value, moves, task)
  {
    if moves != [] {
      var front, last := moves[..|moves| - 1], moves[|moves| - 1];
      RunsRecall(limit, front, task);
      RunsStayGood(limit, front);
      MoveRecalls(Run(limit, front).value, front, last, task);
      assert front + [last] == moves;
    }
  }

  /** The move hands a connection back for reuse. */
  predicate Releases(system: System, move: Move)
    requires Ready(system, move)
  {
    var after := Perform(system, move);
    |after.log| > |system.log| && after.log[|system.log|].released
  }

  lemma OnlyResumingReleases(system: System, move: Move)
    requires Good(system) && Ready(system, move) && !move.Resume?
    ensures !Releases(system, move)
  {
    if move.Cancel? {
      FlagsDecide(system.calls[move.task], Interrupted);
    }
  }

  /** A connection is released exactly when a call resumes whose thread has ended well, and which began
      neither as an admin batch nor as a transaction. */
  lemma ReleasedExactlyByMoves(limit: nat, moves: seq<Move>, move: Move)
    requires Run(limit, moves).Some? && Ready(Run(limit, moves).value, move)
    ensures Releases(Run(limit, moves).value, move) <==>
              && move.Resume? && ThreadResult(moves, move.task) == Some(true)
              && BegunAs(moves, move.task).Some?
              && BegunAs(moves, move.task).value != AdminBatch && BegunAs(moves, move.task).value != Transaction
  {
    var system := Run(limit, moves).value;
    RunsStayGood(limit, moves);
    if move.Resume? {
      RunsRecall(limit, moves, move.task);
      FlagsDecide(system.calls[move.task], Seen(system.calls[move.task].attempt.worker));
    } else {
      OnlyResumingReleases(system, move);
    }
  }
}
