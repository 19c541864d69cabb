/** The export's merge of slow-call records: for each call the longest one, the later one on a tie. */
module SlowCallMerge {
  import opened Wrappers

  type CallId = nat

  /** A line of the log; `content` stands for everything else in it. */
  datatype Record = Record(slowCall: bool, callId: Option<CallId>, elapsedMs: int, running: bool, content: string)

  predicate IsSlow(record: Record) { record.slowCall && record.callId.Some? }

  predicate SlowOf(record: Record, id: CallId) { record.slowCall && record.callId == Some(id) }

  /** The record the export keeps for a call: nothing shorter than what it kept before. */
  function Longest(records: seq<Record>, id: CallId): Option<Record> {
    if records == [] then None
    else
      var before, last := Longest(records[..|records| - 1], id), records[|records| - 1];
      if SlowOf(last, id) && last.elapsedMs >= Elapsed(before) then Some(last) else before
  }

  function Elapsed(record: Option<Record>): int { if record.Some? then record.value.elapsedMs else 0 }

  function Others(records: seq<Record>): seq<Record> {
    if records == [] then []
    else Others(records[..|records| - 1]) + if IsSlow(records[|records| - 1]) then [] else [records[|records| - 1]]
  }

  /** The calls with a kept record, in the order of their first one. */
  function Calls(records: seq<Record>): seq<CallId> {
    if records == [] then []
    else
      var before, last := Calls(records[..|records| - 1]), records[|records| - 1];
      if IsSlow(last) && last.callId.value !in before && Longest(records, last.callId.value).Some?
      then before + [last.callId.value] else before
  }

  function KeptRecords(records: seq<Record>, ids: seq<CallId>): seq<Record>
    requires forall id :: id in ids ==> Longest(records, id).Some?
  {
    if ids == [] then []
    else KeptRecords(records, ids[..|ids| - 1]) + [Longest(records, ids[|ids| - 1]).value]
  }

  lemma {:induction false} CallsAreKept(records: seq<Record>)
    ensures forall id :: id in Calls(records) <==> Longest(records, id).Some?
    ensures forall i, j :: 0 <= i < j < |Calls(records)| ==> Calls(records)[i] != Calls(records)[j]
  {
    if records != [] {
      CallsAreKept(records[..|records| - 1]);
    }
  }

  function Merged(records: seq<Record>): seq<Record> {
    CallsAreKept(records);
    Others(records) + KeptRecords(records, Calls(records))
  }

  function Times(records: seq<Record>, id: CallId): nat {
    if records == [] then 0
    else Times(records[..|records| - 1], id) + if SlowOf(records[|records| - 1], id) then 1 else 0
  }

  lemma {:induction false} TimesAppend(xs: seq<Record>, ys: seq<Record>, id: CallId)
    ensures Times(xs + ys, id) == Times(xs, id) + Times(ys, id)
  {
    if ys == [] {
      assert xs + ys == xs;
    } else {
      assert (xs + ys)[..|xs| + |ys| - 1] == xs + ys[..|ys| - 1];
      TimesAppend(xs, ys[..|ys| - 1], id);
    }
  }

  lemma {:induction false} LongestIsOf(records: seq<Record>, id: CallId)
    ensures Longest(records, id).Some? ==>
              SlowOf(Longest(records, id).value, id) && Longest(records, id).value in records
  {
    if records != [] {
      LongestIsOf(records[..|records| - 1], id);
    }
  }

  lemma {:induction false} OthersHaveNone(records: seq<Record>, id: CallId)
    ensures Times(Others(records), id) == 0
  {
    if records != [] {
      OthersHaveNone(records[..|records| - 1], id);
      TimesAppend(Others(records[..|records| - 1]), Others(records)[|Others(records[..|records| - 1])|..], id);
      assert Others(records)
             == Others(records[..|records| - 1]) + Others(records)[|Others(records[..|records| - 1])|..];
    }
  }

  lemma {:induction false} KeptHaveOne(records: seq<Record>, ids: seq<CallId>, id: CallId)
    requires forall other :: other in ids ==> Longest(records, other).Some?
    requires forall i, j :: 0 <= i < j < |ids| ==> ids[i] != ids[j]
    ensures Times(KeptRecords(records, ids), id) == if id in ids then 1 else 0
    ensures id in ids ==> Longest(records, id).value in KeptRecords(records, ids)
  {
    if ids != [] {
      var front, last := ids[..|ids| - 1], ids[|ids| - 1];
      KeptHaveOne(records, front, id);
      LongestIsOf(records, last);
      var kept := KeptRecords(records, ids);
      assert kept[..|kept| - 1] == KeptRecords(records, front);
      assert ids == front + [last];
    }
  }

  /** After the merge every kept call has one slow record, its longest; a call without one has none. */
  lemma MergedHasOne(records: seq<Record>, id: CallId)
    ensures Times(Merged(records), id) == if Longest(records, id).Some? then 1 else 0
    ensures Longest(records, id).Some? ==> Longest(records, id).value in Merged(records)
    ensures Others(records) <= Merged(records)
  {
    CallsAreKept(records);
    OthersHaveNone(records, id);
    KeptHaveOne(records, Calls(records), id);
    TimesAppend(Others(records), KeptRecords(records, Calls(records)), id);
  }

  /** The kept record is the longest of its call. */
  lemma {:induction false} LongestIsLongest(records: seq<Record>, id: CallId, record: Record)
    requires record in records && SlowOf(record, id) && record.elapsedMs >= 0
    ensures Longest(records, id).Some? && Longest(records, id).value.elapsedMs >= record.elapsedMs
  {
    var front, last := records[..|records| - 1], records[|records| - 1];
    assert records == front + [last];
    if record in front {
      LongestIsLongest(front, id, record);
    } else {
      LongestIsNotNegative(front, id);
    }
  }

  /** Among the longest records of a call the last one is kept. */
  lemma {:induction false} LongestIsLatest(records: seq<Record>, id: CallId) returns (i: nat)
    requires Longest(records, id).Some?
    ensures i < |records| && records[i] == Longest(records, id).value
    ensures forall j :: i < j < |records| && SlowOf(records[j], id) ==> records[j].elapsedMs < records[i].elapsedMs
  {
    var front, last := records[..|records| - 1], records[|records| - 1];
    if SlowOf(last, id) && last.elapsedMs >= Elapsed(Longest(front, id)) {
      i := |records| - 1;
    } else {
      i := LongestIsLatest(front, id);
      forall j | i < j < |records| && SlowOf(records[j], id) ensures records[j].elapsedMs < records[i].elapsedMs {
        assert j < |front| ==> records[j] == front[j];
      }
    }
  }

  lemma {:induction false} LongestIsNotNegative(records: seq<Record>, id: CallId)
    ensures Elapsed(Longest(records, id)) >= 0
  {
    if records != [] {
      LongestIsNotNegative(records[..|records| - 1], id);
    }
  }

  ghost predicate Tracks(longest: map<CallId, Record>, records: seq<Record>) {
    forall id :: if id in longest then Longest(records, id) == Some(longest[id]) else Longest(records, id).None?
  }

  /** What the loop makes of one more record. */
  function Kept(longest: map<CallId, Record>, record: Record): map<CallId, Record> {
    if !IsSlow(record) then longest
    else
      var id := record.callId.value;
      if record.elapsedMs >= (if id in longest then longest[id].elapsedMs else 0) then longest[id := record]
      else longest
  }

  lemma TracksOneMore(longest: map<CallId, Record>, records: seq<Record>, record: Record)
    requires Tracks(longest, records)
    ensures Tracks(Kept(longest, record), records + [record])
    ensures Calls(records + [record]) == Calls(records) + if record.callId.Some? && record.callId.value !in longest
                                                            && record.callId.value in Kept(longest, record)
                                                          then [record.callId.value] else []
  {
    var more := records + [record];
    assert more[..|records|] == records;
    CallsAreKept(records);
    if record.callId.Some? {
      var id := record.callId.value;
      assert id in longest <==> id in Calls(records);
      assert Longest(more, id).Some? <==> id in Kept(longest, record);
    }
  }

  /** The dictionary of the longest records, which keeps its keys in the order of their first
      insertion, and the list of the other records. */
  method SortOut(records: seq<Record>) returns (others: seq<Record>, longest: map<CallId, Record>, order: seq<CallId>)
    ensures others == Others(records) && order == Calls(records) && Tracks(longest, records)
  {
    others, longest, order := [], map[], [];
    var i := 0;
    while i < |records|
      invariant 0 <= i <= |records|
      invariant others == Others(records[..i]) && order == Calls(records[..i]) && Tracks(longest, records[..i])
    {
      var record := records[i];
      TracksOneMore(longest, records[..i], record);
      assert records[..i + 1] == records[..i] + [record] && records[..i + 1][..i] == records[..i];
      if !IsSlow(record) {
        others := others + [record];
      } else {
        var id := record.callId.value;
        if record.elapsedMs >= (if id in longest then longest[id].elapsedMs else 0) {
          if id !in longest {
            order := order + [id];
          }
          longest := longest[id := record];
        }
      }
      i := i + 1;
    }
    assert records[..i] == records;
  }

  method MergeSlowCalls(records: seq<Record>) returns (merged: seq<Record>)
    ensures merged == Merged(records)
  {
    var others, longest, order := SortOut(records);
    CallsAreKept(records);
    var values: seq<Record>, i := [], 0;
    while i < |order|
      invariant 0 <= i <= |order| && values == KeptRecords(records, order[..i])
    {
      assert order[..i + 1][..i] == order[..i];
      values := values + [longest[order[i]]];
      i := i + 1;
    }
    assert order[..i] == order;
    merged := others + values;
  }
}
