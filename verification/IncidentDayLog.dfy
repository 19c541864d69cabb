/** The incident log's file of a day: capped in bytes, with a fifth kept for urgent records. */
module IncidentDayLog {
  import opened Wrappers

  const DAY_BYTE_CAP: nat := 5 * 1024 * 1024
  const ROUTINE_CAP: nat := DAY_BYTE_CAP * 4 / 5
  const MAX_FAILURES: nat := 3

  type Day = int

  /** Urgent: priorities P1 and P2. Marker: the line that says that the cap was reached. */
  datatype Kind = Urgent | Routine | Marker

  datatype Line = Line(kind: Kind, bytes: nat)

  /** How the operating system answers: opening or reading the size may fail, and so may the write. */
  datatype Io = Works | OpenFails | WriteFails

  /** A record to be written: its day, its size, and the size a marker would have now. */
  datatype Record = Record(day: Day, urgent: bool, bytes: nat, markerBytes: nat, io: Io)

  datatype Outcome = Stored | CapReached | Failed | Disabled

  /** markedDay: the last day that got a marker. failures: failed writes in a row. */
  datatype Log = Log(files: map<Day, seq<Line>>, markedDay: Option<Day>, failures: nat, enabled: bool)

  const EMPTY := Log(map[], None, 0, true)

  function Lines(log: Log, day: Day): seq<Line> { if day in log.files then log.files[day] else [] }

  function Bytes(lines: seq<Line>): nat {
    if lines == [] then 0 else Bytes(lines[..|lines| - 1]) + lines[|lines| - 1].bytes
  }

  function BytesOf(lines: seq<Line>, kind: Kind): nat {
    if lines == [] then 0
    else BytesOf(lines[..|lines| - 1], kind) + if lines[|lines| - 1].kind == kind then lines[|lines| - 1].bytes else 0
  }

  function Markers(lines: seq<Line>): nat {
    if lines == [] then 0 else Markers(lines[..|lines| - 1]) + if lines[|lines| - 1].kind == Marker then 1 else 0
  }

  function Limit(urgent: bool): nat { if urgent then DAY_BYTE_CAP else ROUTINE_CAP }

  // ---------------------------------------------------------------- one write

  function FailedOnce(log: Log): Log { log.(failures := log.failures + 1, enabled := log.failures + 1 < MAX_FAILURES) }

  function Appended(log: Log, day: Day, line: Line, io: Io): Log {
    if io.WriteFails? then FailedOnce(log) else log.(files := log.files[day := Lines(log, day) + [line]], failures := 0)
  }

  predicate Over(log: Log, record: Record) { Bytes(Lines(log, record.day)) + record.bytes > Limit(record.urgent) }

  function RecordLine(record: Record): Line { Line(if record.urgent then Urgent else Routine, record.bytes) }

  function After(log: Log, record: Record): Log {
    if !log.enabled then log
    else if record.io.OpenFails? then FailedOnce(log)
    else if !Over(log, record) then Appended(log, record.day, RecordLine(record), record.io)
    else if log.markedDay == Some(record.day) then log
    else Appended(log.(markedDay := Some(record.day)), record.day, Line(Marker, record.markerBytes), record.io)
  }

  function OutcomeOf(log: Log, record: Record): Outcome {
    if !log.enabled then Disabled
    else if record.io.OpenFails? then Failed
    else if !Over(log, record) then if record.io.WriteFails? then Failed else Stored
    else if log.markedDay == Some(record.day) || record.io.Works? then CapReached
    else Failed
  }

  class DayLog {
    var files: map<Day, seq<Line>>
    var markedDay: Option<Day>
    var failures: nat
    var enabled: bool

    constructor ()
      ensures Contents() == EMPTY
    {
      files, markedDay, failures, enabled := map[], None, 0, true;
    }

    function Contents(): Log
      reads this
    {
      Log(files, markedDay, failures, enabled)
    }

    method NoteFailure()
      modifies `failures, `enabled
      requires enabled
      ensures Contents() == FailedOnce(old(Contents()))
    {
      failures := failures + 1;
      if failures >= MAX_FAILURES {
        enabled := false;
      }
    }

    /** Appends one line; says why the record was dropped, if it was. */
    method Write(record: Record) returns (outcome: Outcome)
      modifies this
      ensures Contents() == After(old(Contents()), record) && outcome == OutcomeOf(old(Contents()), record)
    {
      if !enabled {
        return Disabled;
      }
      if record.io.OpenFails? {
        NoteFailure();
        return Failed;
      }
      var line := RecordLine(record);
      outcome := Stored;
      var present := Lines(Contents(), record.day);
      if Bytes(present) + record.bytes > Limit(record.urgent) {
        outcome := CapReached;
        if markedDay == Some(record.day) {
          return;
        }
        markedDay := Some(record.day);
        line := Line(Marker, record.markerBytes);
      }
      if record.io.WriteFails? {
        NoteFailure();
        return Failed;
      }
      files := files[record.day := present + [line]];
      failures := 0;
    }
  }

  // ---------------------------------------------------------------- one file

  lemma {:induction false} KindsAddUp(lines: seq<Line>)
    ensures Bytes(lines) == BytesOf(lines, Urgent) + BytesOf(lines, Routine) + BytesOf(lines, Marker)
  {
    if lines != [] {
      KindsAddUp(lines[..|lines| - 1]);
    }
  }

  /** Routine lines keep to their share, and only markers exceed the cap. */
  predicate Bounded(lines: seq<Line>) {
    BytesOf(lines, Routine) <= ROUTINE_CAP && Bytes(lines) <= DAY_BYTE_CAP + BytesOf(lines, Marker)
  }

  lemma OneLineMore(lines: seq<Line>, line: Line)
    ensures var more := lines + [line];
            && Bytes(more) == Bytes(lines) + line.bytes
            && (forall kind ::
                  BytesOf(more, kind) == BytesOf(lines, kind) + if line.kind == kind then line.bytes else 0)
            && Markers(more) == Markers(lines) + if line.kind == Marker then 1 else 0
  {
    assert (lines + [line])[..|lines|] == lines;
  }

  predicate MarksNow(log: Log, record: Record) {
    Refuses(log, record) && record.io.Works? && log.markedDay != Some(record.day)
  }

  /** The record finds its day's file too full. */
  predicate Refuses(log: Log, record: Record) { log.enabled && !record.io.OpenFails? && Over(log, record) }

  predicate Stores(log: Log, record: Record) { log.enabled && record.io.Works? && !Over(log, record) }

  /** One write adds at most one line to the file of its day. */
  lemma LinesAfter(log: Log, record: Record, day: Day)
    ensures Lines(After(log, record), day)
            == if day == record.day && Stores(log, record) then Lines(log, day) + [RecordLine(record)]
               else if day == record.day && MarksNow(log, record)
                 then Lines(log, day) + [Line(Marker, record.markerBytes)]
               else Lines(log, day)
  {
  }

  lemma WriteKeepsBounded(log: Log, record: Record, day: Day)
    requires Bounded(Lines(log, day))
    ensures Bounded(Lines(After(log, record), day))
  {
    var lines := Lines(log, day);
    OneLineMore(lines, RecordLine(record));
    OneLineMore(lines, Line(Marker, record.markerBytes));
    KindsAddUp(lines);
  }

  // ---------------------------------------------------------------- runs

  function Run(records: seq<Record>): Log {
    if records == [] then EMPTY else After(Run(records[..|records| - 1]), records[|records| - 1])
  }

  lemma {:induction false} FilesStayBounded(records: seq<Record>, day: Day)
    ensures Bounded(Lines(Run(records), day))
  {
    if records != [] {
      FilesStayBounded(records[..|records| - 1], day);
      WriteKeepsBounded(Run(records[..|records| - 1]), records[|records| - 1], day);
    }
  }

  /** An urgent record is refused only when the urgent and marker lines with it take more than the
      fifth that is kept for them, however many routine records came before. */
  lemma UrgentIsRefusedOnlyByUrgent(records: seq<Record>, record: Record)
    requires record.urgent && OutcomeOf(Run(records), record) == CapReached
    ensures var lines := Lines(Run(records), record.day);
            BytesOf(lines, Urgent) + BytesOf(lines, Marker) + record.bytes > DAY_BYTE_CAP - ROUTINE_CAP
  {
    FilesStayBounded(records, record.day);
    KindsAddUp(Lines(Run(records), record.day));
  }

  /** A record is stored exactly when it can be written and its day's file with it stays within five
      mebibytes, or within four fifths of them for a routine record. */
  lemma StoredExactly(records: seq<Record>, record: Record)
    ensures var size := Bytes(Lines(Run(records), record.day)) + record.bytes;
            var limit := if record.urgent then 5_242_880 else 4_194_304;
            && (OutcomeOf(Run(records), record) == Stored <==>
                  Run(records).enabled && record.io.Works? && size <= limit)
            && (OutcomeOf(Run(records), record) == CapReached ==> size > limit)
            && (Run(records).enabled && record.io.Works? && size > limit ==>
                  OutcomeOf(Run(records), record) == CapReached)
  {
  }

  /** The bytes of the records that were stored for the day. */
  function StoredBytes(records: seq<Record>, day: Day, urgent: bool): nat {
    if records == [] then 0
    else
      var front, last := records[..|records| - 1], records[|records| - 1];
      StoredBytes(front, day, urgent)
      + if last.day == day && last.urgent == urgent && OutcomeOf(Run(front), last) == Stored then last.bytes else 0
  }

  function KindOf(urgent: bool): Kind { if urgent then Urgent else Routine }

  lemma OneRecordMore(log: Log, record: Record, day: Day, urgent: bool)
    ensures BytesOf(Lines(After(log, record), day), KindOf(urgent))
            == BytesOf(Lines(log, day), KindOf(urgent))
               + if record.day == day && record.urgent == urgent && OutcomeOf(log, record) == Stored then record.bytes
                 else 0
  {
    LinesAfter(log, record, day);
    OneLineMore(Lines(log, day), RecordLine(record));
    OneLineMore(Lines(log, day), Line(Marker, record.markerBytes));
  }

  /** A file holds what was stored for its day, the urgent lines told apart from the routine ones. */
  lemma {:induction false} FileHoldsWhatWasStored(records: seq<Record>, day: Day, urgent: bool)
    ensures BytesOf(Lines(Run(records), day), if urgent then Urgent else Routine) == StoredBytes(records, day, urgent)
  {
    if records != [] {
      var front := records[..|records| - 1];
      FileHoldsWhatWasStored(front, day, urgent);
      OneRecordMore(Run(front), records[|records| - 1], day, urgent);
    }
  }

  // ---------------------------------------------------------------- markers

  /** The day of the last refusal. */
  function LastRefused(records: seq<Record>): Option<Day> {
    if records == [] then None
    else
      var front, last := records[..|records| - 1], records[|records| - 1];
      if Refuses(Run(front), last) then Some(last.day) else LastRefused(front)
  }

  /** The marked day is the day of the last refusal, whether or not its marker could be written. */
  lemma {:induction false} MarkedIsLastRefused(records: seq<Record>)
    ensures Run(records).markedDay == LastRefused(records)
  {
    if records != [] {
      MarkedIsLastRefused(records[..|records| - 1]);
    }
  }

  /** The last record is refused, its write works, and the refusal before it was not of its day. */
  predicate Turns(records: seq<Record>, day: Day) {
    records != []
    && var front, last := records[..|records| - 1], records[|records| - 1];
       last.day == day && last.io.Works? && Refuses(Run(front), last) && LastRefused(front) != Some(day)
  }

  function TurnCount(records: seq<Record>, day: Day): nat {
    if records == [] then 0 else TurnCount(records[..|records| - 1], day) + if Turns(records, day) then 1 else 0
  }

  lemma OneWriteMarks(log: Log, record: Record, day: Day)
    ensures var before, after := Lines(log, day), Lines(After(log, record), day);
            if day == record.day && MarksNow(log, record)
            then Markers(after) == Markers(before) + 1
              && BytesOf(after, Marker) == BytesOf(before, Marker) + record.markerBytes
            else Markers(after) == Markers(before) && BytesOf(after, Marker) == BytesOf(before, Marker)
  {
    LinesAfter(log, record, day);
    OneLineMore(Lines(log, day), RecordLine(record));
    OneLineMore(Lines(log, day), Line(Marker, record.markerBytes));
  }

  lemma TurnMarks(records: seq<Record>, day: Day)
    requires records != []
    ensures var log, record := Run(records[..|records| - 1]), records[|records| - 1];
            Turns(records, day) <==> day == record.day && MarksNow(log, record)
  {
    MarkedIsLastRefused(records[..|records| - 1]);
  }

  /** A file has exactly one marker for every turn of its day. */
  lemma {:induction false} MarkersAreTurns(records: seq<Record>, day: Day)
    ensures Markers(Lines(Run(records), day)) == TurnCount(records, day)
  {
    if records != [] {
      MarkersAreTurns(records[..|records| - 1], day);
      TurnMarks(records, day);
      OneWriteMarks(Run(records[..|records| - 1]), records[|records| - 1], day);
    }
  }

  predicate RefusedAt(records: seq<Record>, i: nat, day: Day) {
    i < |records| && records[i].day == day && Refuses(Run(records[..i]), records[i])
  }

  lemma RefusedEarlier(records: seq<Record>, n: nat, i: nat, day: Day)
    requires i < n <= |records|
    ensures RefusedAt(records[..n], i, day) <==> RefusedAt(records, i, day)
  {
    assert records[..n][..i] == records[..i];
  }

  lemma {:induction false} LastRefusedAt(records: seq<Record>, day: Day) returns (i: nat)
    requires LastRefused(records) == Some(day)
    ensures RefusedAt(records, i, day)
    ensures forall k, other :: i < k && RefusedAt(records, k, other) ==> other == day
  {
    var n := |records| - 1;
    var front, last := records[..n], records[n];
    if Refuses(Run(front), last) {
      i := n;
    } else {
      i := LastRefusedAt(front, day);
      RefusedEarlier(records, n, i, day);
      forall k, other | i < k && RefusedAt(records, k, other) ensures other == day {
        if k < n {
          RefusedEarlier(records, n, k, other);
        }
      }
    }
  }

  lemma {:induction false} SomeRefused(records: seq<Record>, i: nat, day: Day)
    requires RefusedAt(records, i, day)
    ensures LastRefused(records).Some?
  {
    var n := |records| - 1;
    if i < n {
      RefusedEarlier(records, n, i, day);
      SomeRefused(records[..n], i, day);
    }
  }

  /** A refusal of another day lies between two refusals of this day. */
  ghost predicate Interrupted(records: seq<Record>, day: Day) {
    exists i: nat, k: nat, j: nat, other: Day :: i < k < j && other != day
      && RefusedAt(records, i, day) && RefusedAt(records, k, other) && RefusedAt(records, j, day)
  }

  lemma {:induction false} TurnIsRefused(records: seq<Record>, day: Day) returns (i: nat)
    requires TurnCount(records, day) > 0
    ensures RefusedAt(records, i, day)
  {
    var n := |records| - 1;
    if Turns(records, day) {
      i := n;
    } else {
      i := TurnIsRefused(records[..n], day);
      RefusedEarlier(records, n, i, day);
    }
  }

  lemma {:induction false} InterruptedEarlier(records: seq<Record>, n: nat, day: Day)
    requires n <= |records| && Interrupted(records[..n], day)
    ensures Interrupted(records, day)
  {
    var i: nat, k: nat, j: nat, other: Day :| i < k < j && other != day && RefusedAt(records[..n], i, day)
                          && RefusedAt(records[..n], k, other) && RefusedAt(records[..n], j, day);
    RefusedEarlier(records, n, i, day);
    RefusedEarlier(records, n, k, other);
    RefusedEarlier(records, n, j, day);
  }

  /** Two turns have a refusal of another day between them. */
  lemma {:induction false} TwoTurnsAreInterrupted(records: seq<Record>, day: Day)
    requires TurnCount(records, day) >= 2
    ensures Interrupted(records, day)
  {
    var n := |records| - 1;
    if Turns(records, day) {
      var i := TurnIsRefused(records[..n], day);
      SomeRefused(records[..n], i, day);
      var other := LastRefused(records[..n]).value;
      var k := LastRefusedAt(records[..n], other);
      RefusedEarlier(records, n, i, day);
      RefusedEarlier(records, n, k, other);
      assert i < k && RefusedAt(records, n, day);
    } else {
      TwoTurnsAreInterrupted(records[..n], day);
      InterruptedEarlier(records, n, day);
    }
  }

  predicate NoWriteFails(records: seq<Record>) { forall i :: 0 <= i < |records| ==> !records[i].io.WriteFails? }

  lemma {:induction false} RefusedIsTurn(records: seq<Record>, day: Day, i: nat)
    requires NoWriteFails(records) && RefusedAt(records, i, day)
    ensures TurnCount(records, day) > 0
    decreases i
  {
    if LastRefused(records[..i]) == Some(day) {
      var earlier := LastRefusedAt(records[..i], day);
      RefusedEarlier(records, i, earlier, day);
      RefusedIsTurn(records, day, earlier);
    } else {
      TurnsAreCounted(records, day, i);
    }
  }

  lemma {:induction false} TurnsAreCounted(records: seq<Record>, day: Day, i: nat)
    requires NoWriteFails(records) && RefusedAt(records, i, day) && LastRefused(records[..i]) != Some(day)
    ensures TurnCount(records, day) > TurnCount(records[..i], day)
  {
    var n := |records| - 1;
    if i == n {
      assert Turns(records, day);
    } else {
      assert records[..n][..i] == records[..i];
      TurnsAreCounted(records[..n], day, i);
    }
  }

  lemma {:induction false} InterruptionIsTwoTurns(records: seq<Record>, day: Day, i: nat, k: nat, j: nat, other: Day)
    requires NoWriteFails(records) && i < k < j && other != day
    requires RefusedAt(records, i, day) && RefusedAt(records, k, other) && RefusedAt(records, j, day)
    ensures TurnCount(records, day) >= 2
    decreases j
  {
    if LastRefused(records[..j]) == Some(day) {
      var earlier := LastRefusedAt(records[..j], day);
      RefusedEarlier(records, j, earlier, day);
      RefusedEarlier(records, j, k, other);
      InterruptionIsTwoTurns(records, day, i, k, earlier, other);
    } else {
      RefusedEarlier(records, j, i, day);
      RefusedIsTurn(records[..j], day, i);
      TurnsAreCounted(records, day, j);
    }
  }

  /** A file gets a second marker only when a refusal of another day falls between two refusals of
      its day; and it does get one then, unless the write of a line failed. */
  lemma SecondMarkerExactly(records: seq<Record>, day: Day)
    ensures Markers(Lines(Run(records), day)) >= 2 ==> Interrupted(records, day)
    ensures NoWriteFails(records) ==> (Markers(Lines(Run(records), day)) >= 2 <==> Interrupted(records, day))
  {
    MarkersAreTurns(records, day);
    if TurnCount(records, day) >= 2 {
      TwoTurnsAreInterrupted(records, day);
    }
    if NoWriteFails(records) && Interrupted(records, day) {
      var i: nat, k: nat, j: nat, other: Day :| i < k < j && other != day && RefusedAt(records, i, day)
                                 && RefusedAt(records, k, other) && RefusedAt(records, j, day);
      InterruptionIsTwoTurns(records, day, i, k, j, other);
    }
  }

  // ---------------------------------------------------------------- how far a file exceeds the cap

  predicate MarkersWithin(records: seq<Record>, most: nat) {
    forall i :: 0 <= i < |records| ==> records[i].markerBytes <= most
  }

  lemma {:induction false} MarkerBytesBound(records: seq<Record>, day: Day, most: nat)
    requires MarkersWithin(records, most)
    ensures BytesOf(Lines(Run(records), day), Marker) <= most * TurnCount(records, day)
  {
    if records != [] {
      var front := records[..|records| - 1];
      MarkerBytesBound(front, day, most);
      TurnMarks(records, day);
      OneWriteMarks(Run(front), records[|records| - 1], day);
      OneMoreTime(most, TurnCount(front, day));
    }
  }

  lemma OneMoreTime(most: nat, times: nat)
    ensures most * (times + 1) == most * times + most
  {
  }

  /** Every file exceeds the cap by no more than its markers. */
  lemma FileExceedsCapByItsMarkers(records: seq<Record>, day: Day, most: nat)
    requires MarkersWithin(records, most)
    ensures Bytes(Lines(Run(records), day)) <= DAY_BYTE_CAP + most * TurnCount(records, day)
  {
    FilesStayBounded(records, day);
    MarkerBytesBound(records, day, most);
  }

  predicate InOrder(records: seq<Record>) {
    forall i, j :: 0 <= i < j < |records| ==> records[i].day <= records[j].day
  }

  /** While days only go forward, no file exceeds the cap by more than one marker. */
  lemma FileExceedsCapByOneMarker(records: seq<Record>, day: Day, most: nat)
    requires InOrder(records) && MarkersWithin(records, most)
    ensures Markers(Lines(Run(records), day)) <= 1
    ensures Bytes(Lines(Run(records), day)) <= DAY_BYTE_CAP + most
  {
    SecondMarkerExactly(records, day);
    InOrderIsUninterrupted(records, day);
    MarkersAreTurns(records, day);
    FileExceedsCapByItsMarkers(records, day, most);
    OneMoreTime(most, 0);
  }

  lemma InOrderIsUninterrupted(records: seq<Record>, day: Day)
    requires InOrder(records)
    ensures !Interrupted(records, day)
  {
  }

  // ---------------------------------------------------------------- a file with two markers

  lemma RunOneMore(records: seq<Record>, record: Record)
    ensures Run(records + [record]) == After(Run(records), record)
  {
    assert (records + [record])[..|records|] == records;
  }

  predicate Either(records: seq<Record>, first: Record, second: Record) {
    forall i :: 0 <= i < |records| ==> records[i] == first || records[i] == second
  }

  /** Writing the same record again and again fills its day, and touches nothing else. */
  lemma {:induction false} FillDay(records: seq<Record>, record: Record, other: Record) returns (more: seq<Record>)
    requires record.bytes > 0 && record.io.Works? && Run(records).enabled && Either(records, record, other)
    ensures Either(more, record, other) && Run(more).enabled && Over(Run(more), record)
    ensures Run(more).markedDay == Run(records).markedDay
    ensures forall day :: day != record.day ==> Lines(Run(more), day) == Lines(Run(records), day)
    ensures Markers(Lines(Run(more), record.day)) == Markers(Lines(Run(records), record.day))
    decreases DAY_BYTE_CAP - Bytes(Lines(Run(records), record.day))
  {
    if Over(Run(records), record) {
      more := records;
    } else {
      RunOneMore(records, record);
      OneLineMore(Lines(Run(records), record.day), RecordLine(record));
      more := FillDay(records + [record], record, other);
    }
  }

  /** A refusal that is not of the marked day adds a marker to its file. */
  lemma RefuseAndMark(records: seq<Record>, record: Record)
    requires MarksNow(Run(records), record)
    ensures var after := Run(records + [record]);
            && after.enabled && after.markedDay == Some(record.day) && Over(after, record)
            && Markers(Lines(after, record.day)) == Markers(Lines(Run(records), record.day)) + 1
            && forall day :: day != record.day ==> Lines(after, day) == Lines(Run(records), day)
  {
    RunOneMore(records, record);
    OneLineMore(Lines(Run(records), record.day), Line(Marker, record.markerBytes));
  }

  /** Two records of different days, however small, whose writes work: a run of only these two fills
      both days and then puts a second marker into the first file. */
  lemma AlternatingDaysMarkAgain(first: Record, second: Record) returns (records: seq<Record>)
    requires first.day != second.day && first.bytes > 0 && second.bytes > 0 && first.io.Works? && second.io.Works?
    ensures Either(records, first, second) && Markers(Lines(Run(records), first.day)) == 2
  {
    records := FillDay([], first, second);
    RefuseAndMark(records, first);
    records := records + [first];
    records := FillDay(records, second, first);
    RefuseAndMark(records, second);
    records := records + [second];
    RefuseAndMark(records, first);
    records := records + [first];
  }

  // ---------------------------------------------------------------- giving up

  /** Failures since the last line that was written; refusals in between count neither way. */
  function FailuresSince(records: seq<Record>): nat {
    if records == [] then 0
    else
      var outcome := OutcomeOf(Run(records[..|records| - 1]), records[|records| - 1]);
      match outcome
      case Failed => FailuresSince(records[..|records| - 1]) + 1
      case Stored => 0
      case CapReached =>
        if Run(records[..|records| - 1]).markedDay == Some(records[|records| - 1].day)
        then FailuresSince(records[..|records| - 1]) else 0
      case Disabled => FailuresSince(records[..|records| - 1])
  }

  /** The log turns itself off exactly at the third failure in a row. */
  lemma {:induction false} DisabledAtTheThirdFailure(records: seq<Record>)
    ensures Run(records).failures == FailuresSince(records)
    ensures Run(records).enabled <==> FailuresSince(records) < MAX_FAILURES
  {
    if records != [] {
      DisabledAtTheThirdFailure(records[..|records| - 1]);
    }
  }
}
