/** Sliding windows of the incident log: repeated outcomes of one session are flagged as a loop, and
    an agent's own reports are coalesced and limited. The clock never goes back. */
module IncidentWindows {
  import opened Wrappers

  const LOOP_WINDOW_SECONDS := 15 * 60
  const REPORT_COALESCE_SECONDS := 600
  const REPORT_WINDOW_SECONDS := 3600
  const REPORT_RATE_LIMIT: nat := 20

  /** Something that happened, with its fingerprint. */
  datatype Mark = Mark(at: int, fingerprint: nat)

  function Recent(marks: seq<Mark>, now: int, window: int): seq<Mark> {
    if marks == [] then []
    else
      Recent(marks[..|marks| - 1], now, window)
      + if now - marks[|marks| - 1].at < window then [marks[|marks| - 1]] else []
  }

  predicate InOrder(marks: seq<Mark>) { forall i, j :: 0 <= i < j < |marks| ==> marks[i].at <= marks[j].at }

  /** Dropping what is old again and again drops what is old in the end. */
  lemma {:induction false} RecentOfRecent(marks: seq<Mark>, earlier: int, now: int, window: int)
    requires earlier <= now
    ensures Recent(Recent(marks, earlier, window), now, window) == Recent(marks, now, window)
  {
    if marks != [] {
      var front, last := marks[..|marks| - 1], marks[|marks| - 1];
      RecentOfRecent(front, earlier, now, window);
      if earlier - last.at < window {
        var kept := Recent(marks, earlier, window);
        assert kept[..|kept| - 1] == Recent(front, earlier, window);
      } else {
        assert Recent(marks, earlier, window) == Recent(front, earlier, window);
        assert Recent(marks, now, window) == Recent(front, now, window);
      }
    }
  }

  lemma {:induction false} RecentHolds(marks: seq<Mark>, now: int, window: int, mark: Mark)
    ensures mark in Recent(marks, now, window) <==> mark in marks && now - mark.at < window
  {
    if marks != [] {
      RecentHolds(marks[..|marks| - 1], now, window, mark);
      assert marks == marks[..|marks| - 1] + [marks[|marks| - 1]];
    }
  }

  /** In order, everything after a recent mark is recent. */
  lemma {:induction false} RecentFrom(marks: seq<Mark>, now: int, window: int, k: nat)
    requires InOrder(marks) && 0 < k <= |marks| && now - marks[|marks| - k].at < window
    ensures |Recent(marks, now, window)| >= k
  {
    var front, last := marks[..|marks| - 1], marks[|marks| - 1];
    assert marks[|marks| - k].at <= last.at;
    if k > 1 {
      assert front[|front| - (k - 1)] == marks[|marks| - k];
      RecentFrom(front, now, window, k - 1);
    }
  }

  /** The list that the source rebuilds on every call. */
  method KeepRecent(marks: seq<Mark>, now: int, window: int) returns (kept: seq<Mark>)
    ensures kept == Recent(marks, now, window)
  {
    kept := [];
    var i := 0;
    while i < |marks|
      invariant 0 <= i <= |marks| && kept == Recent(marks[..i], now, window)
    {
      assert marks[..i + 1][..i] == marks[..i];
      if now - marks[i].at < window {
        kept := kept + [marks[i]];
      }
      i := i + 1;
    }
    assert marks[..i] == marks;
  }

  // ---------------------------------------------------------------- agent loops

  /** What is kept of one session, tool and outcome. */
  datatype Watch = Watch(hits: seq<Mark>, flaggedAt: Option<int>)

  const UNSEEN := Watch([], None)

  predicate FlagsNow(watch: Watch, now: int, threshold: nat) {
    && |Recent(watch.hits, now, LOOP_WINDOW_SECONDS)| + 1 >= threshold
    && (watch.flaggedAt.Some? ==> now - watch.flaggedAt.value >= LOOP_WINDOW_SECONDS)
  }

  function Observed(watch: Watch, mark: Mark, threshold: nat): Watch {
    Watch(Recent(watch.hits, mark.at, LOOP_WINDOW_SECONDS) + [mark],
          if FlagsNow(watch, mark.at, threshold) then Some(mark.at) else watch.flaggedAt)
  }

  function After(marks: seq<Mark>, threshold: nat): Watch {
    if marks == [] then UNSEEN else Observed(After(marks[..|marks| - 1], threshold), marks[|marks| - 1], threshold)
  }

  /** The loop records that were written. */
  function Flagged(marks: seq<Mark>, threshold: nat): seq<int> {
    if marks == [] then []
    else
      Flagged(marks[..|marks| - 1], threshold)
      + if FlagsNow(After(marks[..|marks| - 1], threshold), marks[|marks| - 1].at, threshold)
        then [marks[|marks| - 1].at] else []
  }

  class LoopWatch {
    var hits: seq<Mark>
    var flaggedAt: Option<int>

    constructor ()
      ensures Contents() == UNSEEN
    {
      hits, flaggedAt := [], None;
    }

    function Contents(): Watch
      reads this
    {
      Watch(hits, flaggedAt)
    }

    method Observe(mark: Mark, threshold: nat) returns (flagged: bool)
      modifies this
      ensures Contents() == Observed(old(Contents()), mark, threshold)
      ensures flagged == FlagsNow(old(Contents()), mark.at, threshold)
    {
      var recent := KeepRecent(hits, mark.at, LOOP_WINDOW_SECONDS);
      hits := recent + [mark];
      if |hits| < threshold {
        return false;
      }
      if flaggedAt.Some? && mark.at - flaggedAt.value < LOOP_WINDOW_SECONDS {
        return false;
      }
      flaggedAt := Some(mark.at);
      flagged := true;
    }
  }

  /** The hits that are kept are all the hits of the last window. */
  lemma {:induction false} HitsAreRecent(marks: seq<Mark>, threshold: nat)
    requires InOrder(marks) && marks != []
    ensures After(marks, threshold).hits == Recent(marks, marks[|marks| - 1].at, 900)
  {
    var front, last := marks[..|marks| - 1], marks[|marks| - 1];
    if front != [] {
      HitsAreRecent(front, threshold);
      RecentOfRecent(front, front[|front| - 1].at, last.at, LOOP_WINDOW_SECONDS);
    }
  }

  lemma {:induction false} FlaggedAtIsLast(marks: seq<Mark>, threshold: nat)
    ensures var flags := Flagged(marks, threshold);
            After(marks, threshold).flaggedAt == if flags == [] then None else Some(flags[|flags| - 1])
    ensures Flagged(marks, threshold) != [] ==> marks != []
  {
    if marks != [] {
      FlaggedAtIsLast(marks[..|marks| - 1], threshold);
    }
  }

  lemma {:induction false} FlagsAreMarks(marks: seq<Mark>, threshold: nat, i: nat)
    requires InOrder(marks) && i < |Flagged(marks, threshold)|
    ensures marks != [] && Flagged(marks, threshold)[i] <= marks[|marks| - 1].at
  {
    var front := marks[..|marks| - 1];
    if i < |Flagged(front, threshold)| {
      FlagsAreMarks(front, threshold, i);
      assert front[|front| - 1].at <= marks[|marks| - 1].at;
    }
  }

  /** What one more hit adds to the flags. */
  lemma FlagsGrow(marks: seq<Mark>, threshold: nat)
    requires marks != []
    ensures var flags, now := Flagged(marks[..|marks| - 1], threshold), marks[|marks| - 1].at;
            || Flagged(marks, threshold) == flags
            || (Flagged(marks, threshold) == flags + [now]
              && (flags != [] ==> now - flags[|flags| - 1] >= LOOP_WINDOW_SECONDS))
  {
    FlaggedAtIsLast(marks[..|marks| - 1], threshold);
  }

  predicate WindowsApart(flags: seq<int>) {
    forall i, j :: 0 <= i < j < |flags| ==> flags[j] - flags[i] >= LOOP_WINDOW_SECONDS
  }

  lemma AppendApart(flags: seq<int>, now: int)
    requires WindowsApart(flags) && (flags != [] ==> now - flags[|flags| - 1] >= LOOP_WINDOW_SECONDS)
    ensures WindowsApart(flags + [now])
  {
    var more := flags + [now];
    forall i, j | 0 <= i < j < |more| ensures more[j] - more[i] >= LOOP_WINDOW_SECONDS {
      if j == |flags| && i < |flags| - 1 {
        assert flags[|flags| - 1] - flags[i] >= LOOP_WINDOW_SECONDS;
      }
    }
  }

  /** One loop is recorded at most once in any window. */
  lemma {:induction false} FlagsAreAWindowApart(marks: seq<Mark>, threshold: nat)
    ensures WindowsApart(Flagged(marks, threshold))
  {
    if marks != [] {
      var flags, now := Flagged(marks[..|marks| - 1], threshold), marks[|marks| - 1].at;
      FlagsAreAWindowApart(marks[..|marks| - 1], threshold);
      FlagsGrow(marks, threshold);
      if Flagged(marks, threshold) != flags {
        AppendApart(flags, now);
      }
    }
  }

  /** With that many hits in the window a flag is due, unless one was raised within the window. */
  lemma FlagIsDue(marks: seq<Mark>, threshold: nat)
    requires InOrder(marks) && marks != []
    requires |Recent(marks, marks[|marks| - 1].at, LOOP_WINDOW_SECONDS)| >= threshold
    ensures var before, now := After(marks[..|marks| - 1], threshold), marks[|marks| - 1].at;
            FlagsNow(before, now, threshold)
            || (before.flaggedAt.Some? && now - before.flaggedAt.value < LOOP_WINDOW_SECONDS)
  {
    HitsAreRecent(marks, threshold);
  }

  lemma FlagIsRaised(marks: seq<Mark>, threshold: nat)
    requires marks != [] && FlagsNow(After(marks[..|marks| - 1], threshold), marks[|marks| - 1].at, threshold)
    ensures marks[|marks| - 1].at in Flagged(marks, threshold)
  {
    var flags := Flagged(marks[..|marks| - 1], threshold);
    assert Flagged(marks, threshold)[|flags|] == marks[|marks| - 1].at;
  }

  /** A flag raised before is among the flags, and is not later than the last hit. */
  lemma FlagStays(marks: seq<Mark>, threshold: nat, flag: int)
    requires InOrder(marks) && marks != [] && After(marks[..|marks| - 1], threshold).flaggedAt == Some(flag)
    ensures flag in Flagged(marks, threshold) && flag <= marks[|marks| - 1].at
  {
    var front := marks[..|marks| - 1];
    var flags := Flagged(front, threshold);
    FlaggedAtIsLast(front, threshold);
    FlagsAreMarks(front, threshold, |flags| - 1);
    assert front[|front| - 1].at <= marks[|marks| - 1].at;
    assert Flagged(marks, threshold)[|flags| - 1] == flag;
  }

  /** A loop is recorded with a hit exactly when there are as many hits as the threshold in the last
      fifteen minutes, this one included, and no record was made in them. */
  lemma LoopIsFlaggedExactly(marks: seq<Mark>, threshold: nat)
    requires InOrder(marks) && marks != []
    ensures var flags, now := Flagged(marks[..|marks| - 1], threshold), marks[|marks| - 1].at;
            Flagged(marks, threshold)
            == if |Recent(marks, now, 900)| >= threshold && !(exists flag :: flag in flags && now - flag < 900)
               then flags + [now] else flags
  {
    var front, last := marks[..|marks| - 1], marks[|marks| - 1];
    var flags := Flagged(front, threshold);
    HitsAreRecent(marks, threshold);
    FlaggedAtIsLast(front, threshold);
    FlagsInOrder(front, threshold);
    if flags != [] {
      assert flags[|flags| - 1] in flags;
    }
  }

  /** No flag is later than the last one. */
  lemma {:induction false} FlagsInOrder(marks: seq<Mark>, threshold: nat)
    requires InOrder(marks)
    ensures var flags := Flagged(marks, threshold);
            && (forall flag :: flag in flags ==> flag <= flags[|flags| - 1])
            && (flags != [] ==> marks != [] && flags[|flags| - 1] <= marks[|marks| - 1].at)
  {
    if marks != [] {
      FlagsInOrder(marks[..|marks| - 1], threshold);
    }
  }

  /** And no loop is missed: as many hits in a window as the threshold leave a record in that window. */
  lemma LoopsAreFlagged(marks: seq<Mark>, threshold: nat) returns (flag: int)
    requires InOrder(marks) && marks != []
    requires |Recent(marks, marks[|marks| - 1].at, LOOP_WINDOW_SECONDS)| >= threshold
    ensures flag in Flagged(marks, threshold) && 0 <= marks[|marks| - 1].at - flag < 900
  {
    var before, now := After(marks[..|marks| - 1], threshold), marks[|marks| - 1].at;
    FlagIsDue(marks, threshold);
    if FlagsNow(before, now, threshold) {
      flag := now;
      FlagIsRaised(marks, threshold);
    } else {
      flag := before.flaggedAt.value;
      FlagStays(marks, threshold, flag);
    }
  }

  // ---------------------------------------------------------------- agent reports

  datatype Verdict = Recorded | Coalesced | RateLimited | Dropped

  /** A report, and whether its record can be written. */
  datatype Report = Report(mark: Mark, writable: bool)

  predicate Repeats(history: seq<Mark>, mark: Mark) {
    exists i :: 0 <= i < |history| && history[i].fingerprint == mark.fingerprint
      && mark.at - history[i].at < REPORT_COALESCE_SECONDS
  }

  function VerdictOn(history: seq<Mark>, report: Report): Verdict {
    var recent := Recent(history, report.mark.at, REPORT_WINDOW_SECONDS);
    if Repeats(recent, report.mark) then Coalesced
    else if |recent| >= REPORT_RATE_LIMIT then RateLimited
    else if report.writable then Recorded else Dropped
  }

  function Remembered(history: seq<Mark>, report: Report): seq<Mark> {
    Recent(history, report.mark.at, REPORT_WINDOW_SECONDS)
    + if VerdictOn(history, report) == Recorded then [report.mark] else []
  }

  function HistoryAfter(reports: seq<Report>): seq<Mark> {
    if reports == [] then [] else Remembered(HistoryAfter(reports[..|reports| - 1]), reports[|reports| - 1])
  }

  /** All the reports of the session that were ever recorded. */
  function Records(reports: seq<Report>): seq<Mark> {
    if reports == [] then []
    else
      Records(reports[..|reports| - 1])
      + if VerdictOn(HistoryAfter(reports[..|reports| - 1]), reports[|reports| - 1]) == Recorded
        then [reports[|reports| - 1].mark] else []
  }

  class ReportBook {
    var history: seq<Mark>

    constructor ()
      ensures history == []
    {
      history := [];
    }

    /** Repeats coalesce, floods are limited, and what was not written is not remembered. */
    method ReportBlocker(report: Report) returns (verdict: Verdict)
      modifies this
      ensures verdict == VerdictOn(old(history), report) && history == Remembered(old(history), report)
    {
      history := KeepRecent(history, report.mark.at, REPORT_WINDOW_SECONDS);
      var i := 0;
      while i < |history|
        invariant 0 <= i <= |history|
        invariant forall k :: 0 <= k < i ==>
                    history[k].fingerprint != report.mark.fingerprint
                      || report.mark.at - history[k].at >= REPORT_COALESCE_SECONDS
      {
        if history[i].fingerprint == report.mark.fingerprint
          && report.mark.at - history[i].at < REPORT_COALESCE_SECONDS {
          return Coalesced;
        }
        i := i + 1;
      }
      if |history| >= REPORT_RATE_LIMIT {
        return RateLimited;
      }
      if !report.writable {
        return Dropped;
      }
      history := history + [report.mark];
      verdict := Recorded;
    }
  }

  predicate ReportsInOrder(reports: seq<Report>) {
    forall i, j :: 0 <= i < j < |reports| ==> reports[i].mark.at <= reports[j].mark.at
  }

  lemma AppendInOrder(marks: seq<Mark>, mark: Mark)
    requires InOrder(marks) && forall earlier :: earlier in marks ==> earlier.at <= mark.at
    ensures InOrder(marks + [mark])
  {
    var more := marks + [mark];
    forall i, j | 0 <= i < j < |more| ensures more[i].at <= more[j].at {
      assert more[i] == marks[i] && marks[i] in marks;
    }
  }

  lemma {:induction false} RecordsInOrder(reports: seq<Report>)
    requires ReportsInOrder(reports)
    ensures InOrder(Records(reports))
    ensures forall mark :: mark in Records(reports) ==> reports != [] && mark.at <= reports[|reports| - 1].mark.at
  {
    if reports != [] {
      var front, last := reports[..|reports| - 1], reports[|reports| - 1];
      RecordsInOrder(front);
      forall mark | mark in Records(front) ensures mark.at <= last.mark.at {
        assert front[|front| - 1].mark.at <= last.mark.at;
      }
      AppendInOrder(Records(front), last.mark);
    }
  }

  lemma RecentOfNow(marks: seq<Mark>, mark: Mark, window: int)
    requires window > 0
    ensures Recent(marks + [mark], mark.at, window) == Recent(marks, mark.at, window) + [mark]
  {
    assert (marks + [mark])[..|marks|] == marks;
  }

  lemma {:induction false} HistoryIsRecent(reports: seq<Report>)
    requires ReportsInOrder(reports) && reports != []
    ensures HistoryAfter(reports) == Recent(Records(reports), reports[|reports| - 1].mark.at, REPORT_WINDOW_SECONDS)
  {
    var front, last := reports[..|reports| - 1], reports[|reports| - 1];
    var now, records := last.mark.at, Records(front);
    if front != [] {
      HistoryIsRecent(front);
      RecentOfRecent(records, front[|front| - 1].mark.at, now, REPORT_WINDOW_SECONDS);
    }
    assert Recent(HistoryAfter(front), now, REPORT_WINDOW_SECONDS) == Recent(records, now, REPORT_WINDOW_SECONDS);
    if VerdictOn(HistoryAfter(front), last) == Recorded {
      RecentOfNow(records, last.mark, REPORT_WINDOW_SECONDS);
    } else {
      assert Records(reports) == records;
    }
  }

  lemma EarlierInOrder(reports: seq<Report>, report: Report)
    requires ReportsInOrder(reports + [report])
    ensures ReportsInOrder(reports)
    ensures reports != [] ==> reports[|reports| - 1].mark.at <= report.mark.at
  {
    var all := reports + [report];
    forall i, j | 0 <= i < j < |reports| ensures reports[i].mark.at <= reports[j].mark.at {
      assert all[i].mark.at <= all[j].mark.at;
    }
    if reports != [] {
      assert all[|reports| - 1].mark.at <= all[|reports|].mark.at;
    }
  }

  /** What is remembered when a report comes is what was recorded in the last hour. */
  lemma RememberedIsRecent(reports: seq<Report>, report: Report)
    requires ReportsInOrder(reports + [report])
    ensures Recent(HistoryAfter(reports), report.mark.at, REPORT_WINDOW_SECONDS)
            == Recent(Records(reports), report.mark.at, REPORT_WINDOW_SECONDS)
  {
    EarlierInOrder(reports, report);
    if reports != [] {
      HistoryIsRecent(reports);
      RecentOfRecent(Records(reports), reports[|reports| - 1].mark.at, report.mark.at, REPORT_WINDOW_SECONDS);
    }
  }

  /** A report is coalesced exactly when the same was recorded in the last ten minutes. */
  lemma CoalescedExactly(reports: seq<Report>, report: Report)
    requires ReportsInOrder(reports + [report])
    ensures VerdictOn(HistoryAfter(reports), report) == Coalesced <==>
              exists mark :: mark in Records(reports) && mark.fingerprint == report.mark.fingerprint
                             && report.mark.at - mark.at < 600
  {
    RememberedIsRecent(reports, report);
    RepeatsInRecords(Records(reports), report.mark);
  }

  /** A report is recorded exactly when it repeats nothing, fewer than twenty were recorded in the
      last hour, and it can be written. */
  lemma RecordedExactly(reports: seq<Report>, report: Report)
    requires ReportsInOrder(reports + [report])
    ensures VerdictOn(HistoryAfter(reports), report) == Recorded <==>
              && VerdictOn(HistoryAfter(reports), report) != Coalesced && report.writable
              && |Recent(Records(reports), report.mark.at, 3600)| < 20
    ensures VerdictOn(HistoryAfter(reports), report) == RateLimited <==>
              && VerdictOn(HistoryAfter(reports), report) != Coalesced
              && |Recent(Records(reports), report.mark.at, 3600)| >= 20
  {
    RememberedIsRecent(reports, report);
  }

  lemma RepeatsInRecords(records: seq<Mark>, mark: Mark)
    ensures Repeats(Recent(records, mark.at, REPORT_WINDOW_SECONDS), mark)
            <==> exists earlier :: earlier in records && earlier.fingerprint == mark.fingerprint
                                   && mark.at - earlier.at < REPORT_COALESCE_SECONDS
  {
    var recent := Recent(records, mark.at, REPORT_WINDOW_SECONDS);
    if Repeats(recent, mark) {
      var i :| 0 <= i < |recent| && recent[i].fingerprint == mark.fingerprint
        && mark.at - recent[i].at < REPORT_COALESCE_SECONDS;
      RecentHolds(records, mark.at, REPORT_WINDOW_SECONDS, recent[i]);
    }
    if earlier :| earlier in records && earlier.fingerprint == mark.fingerprint
                  && mark.at - earlier.at < REPORT_COALESCE_SECONDS {
      RecentHolds(records, mark.at, REPORT_WINDOW_SECONDS, earlier);
      var i :| 0 <= i < |recent| && recent[i] == earlier;
    }
  }

  /** Room for one more in the hour means that the twentieth record before is an hour old. */
  lemma RoomMeansAnHour(records: seq<Mark>, now: int)
    requires InOrder(records) && |records| >= REPORT_RATE_LIMIT
    requires |Recent(records, now, REPORT_WINDOW_SECONDS)| < REPORT_RATE_LIMIT
    ensures now - records[|records| - REPORT_RATE_LIMIT].at >= REPORT_WINDOW_SECONDS
  {
    if now - records[|records| - REPORT_RATE_LIMIT].at < REPORT_WINDOW_SECONDS {
      RecentFrom(records, now, REPORT_WINDOW_SECONDS, REPORT_RATE_LIMIT);
    }
  }

  /** Twenty reports an hour: between a recorded report and the twentieth one after it lies an hour. */
  lemma {:induction false} AtMostTwentyAnHour(reports: seq<Report>, i: nat)
    requires ReportsInOrder(reports) && i + 20 < |Records(reports)|
    ensures Records(reports)[i + 20].at - Records(reports)[i].at >= 3600
  {
    var front, last := reports[..|reports| - 1], reports[|reports| - 1];
    assert reports == front + [last];
    EarlierInOrder(front, last);
    if i + REPORT_RATE_LIMIT < |Records(front)| {
      AtMostTwentyAnHour(front, i);
    } else {
      assert |Recent(Records(front), last.mark.at, REPORT_WINDOW_SECONDS)| < REPORT_RATE_LIMIT by {
        RecordedExactly(front, last);
      }
      assert InOrder(Records(front)) by {
        RecordsInOrder(front);
      }
      RoomMeansAnHour(Records(front), last.mark.at);
    }
  }

  /** Ten minutes between two recorded reports of the same fingerprint. */
  lemma {:induction false} RepeatsAreTenMinutesApart(reports: seq<Report>, i: nat, j: nat)
    requires ReportsInOrder(reports) && i < j < |Records(reports)|
    requires Records(reports)[i].fingerprint == Records(reports)[j].fingerprint
    ensures Records(reports)[j].at - Records(reports)[i].at >= 600
  {
    var front, last := reports[..|reports| - 1], reports[|reports| - 1];
    var records := Records(front);
    if j < |records| {
      RepeatsAreTenMinutesApart(front, i, j);
    } else {
      assert reports == front + [last];
      CoalescedExactly(front, last);
      assert Records(reports)[i] == records[i] && records[i] in records;
    }
  }
}
