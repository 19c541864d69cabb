/** The candidate objects of the advisor and the methods that change them in place. */
module IndexAdvice {
  import opened IndexModel
  import opened IndexCandidates
  import R = IndexReconcile

  class Candidate {
    var keys: seq<Key>
    var includes: seq<Column>
    var supports: seq<int>
    var savings: real
    var lowSelectivity: bool

    constructor (draft: Draft)
      ensures Value() == draft
    {
      keys, includes, supports := draft.keys, draft.includes, draft.supports;
      savings, lowSelectivity := draft.savings, draft.lowSelectivity;
    }

    function Value(): Draft
      reads this
    {
      Draft(keys, includes, supports, savings, lowSelectivity)
    }

    /** Moves trailing key columns to the included columns until the key fits. */
    method FitKeyWidth(catalog: Catalog, lowColumns: set<Column>)
      modifies this
      ensures Value() == Fitted(old(Value()), catalog, lowColumns)
    {
      ghost var whole := keys;
      var moved := DropWideKeys(catalog);
      if moved == [] {
        assert whole[..|whole|] == whole;
        return;
      }
      includes := moved + Without(includes, ColumnSet(moved));
      if !lowSelectivity && NameSet(keys) <= lowColumns {
        lowSelectivity := true;
      }
    }

    method DropWideKeys(catalog: Catalog) returns (moved: seq<Column>)
      modifies this`keys
      ensures var n := FittingKeys(old(keys), catalog); keys == old(keys)[..n] && moved == Names(old(keys)[n..])
    {
      moved := [];
      ghost var whole := keys;
      while |keys| > 1 && KeyWidth(keys, catalog) > MAX_KEY_BYTES
        invariant |keys| <= |whole| && keys == whole[..|keys|] && moved == Names(whole[|keys|..])
        invariant FittingKeys(keys, catalog) == FittingKeys(whole, catalog)
        decreases |keys|
      {
        var last := |keys| - 1;
        MoveName(whole, last);
        moved := [keys[last].column] + moved;
        assert keys[..last] == whole[..last];
        keys := keys[..last];
      }
    }

    static lemma MoveName(keys: seq<Key>, last: nat)
      requires last < |keys|
      ensures Names(keys[last..]) == [keys[last].column] + Names(keys[last + 1..])
    {
      assert keys[last..] == [keys[last]] + keys[last + 1..];
    }

    /** Takes over another candidate that changes the same existing index. */
    method Join(candidate: Candidate)
      requires candidate != this
      modifies this
      ensures Value() == Joined(old(Value()), candidate.Value())
    {
      var longer := Longer(candidate.keys, keys);
      var names := NameSet(longer);
      var all := AppendMissing(includes, Without(candidate.includes, names));
      keys, includes := longer, Without(all, names);
      supports := supports + candidate.supports;
      savings := savings + candidate.savings;
    }

    /** Takes over a candidate with compatible keys, if the combined includes stay within bounds. */
    method Absorb(candidate: Candidate, settings: Settings) returns (absorbed: bool)
      requires candidate != this
      modifies this
      ensures var whole := IndexCandidates.Absorb(old(Value()), candidate.Value());
              absorbed == Bounded(settings, whole.includes) && Value() == if absorbed then whole else old(Value())
    {
      var longer := Longer(candidate.keys, keys);
      var all := AppendMissing(includes, candidate.includes);
      var combined := Without(all, NameSet(longer));
      absorbed := Bounded(settings, combined);
      if absorbed {
        keys, includes := longer, combined;
        supports := supports + candidate.supports;
        savings := savings + candidate.savings;
        lowSelectivity := lowSelectivity && candidate.lowSelectivity;
      }
    }
  }

  method AppendMissing(includes: seq<Column>, more: seq<Column>) returns (all: seq<Column>)
    ensures all == AppendNew(includes, more)
  {
    all := includes;
    for i := 0 to |more|
      invariant AppendNew(all, more[i..]) == AppendNew(includes, more)
    {
      assert more[i..][1..] == more[i + 1..];
      if more[i] !in all {
        all := all + [more[i]];
      }
    }
  }

  /** The objects hold exactly these values. */
  ghost predicate Hold(candidates: seq<Candidate>, drafts: seq<Draft>)
    reads candidates
  {
    |candidates| == |drafts| && forall i :: 0 <= i < |candidates| ==> candidates[i].Value() == drafts[i]
  }

  function Objects(candidates: seq<Candidate>): set<Candidate> { set c | c in candidates }

  predicate Separate(candidates: seq<Candidate>) {
    forall i, j :: 0 <= i < j < |candidates| ==> candidates[i] != candidates[j]
  }

  /** The objects of `part` all belong to `whole`. */
  predicate Among(part: seq<Candidate>, whole: seq<Candidate>) { forall c :: c in part ==> c in whole }

  method InsertBySavings(ordered: seq<Candidate>, candidate: Candidate, ghost sorted: seq<Draft>)
      returns (longer: seq<Candidate>)
    requires Hold(ordered, sorted) && Separate(ordered) && candidate !in ordered
    ensures Hold(longer, Insert(sorted, candidate.Value()))
    ensures Separate(longer) && Among(longer, ordered + [candidate])
  {
    var p := |ordered|;
    assert sorted[..p] == sorted;
    while p > 0 && ordered[p - 1].savings < candidate.savings
      invariant 0 <= p <= |ordered|
      invariant InsertPosition(sorted[..p], candidate.savings) == InsertPosition(sorted, candidate.savings)
    {
      p := p - 1;
      assert sorted[..p + 1][..p] == sorted[..p];
    }
    longer := ordered[..p] + [candidate] + ordered[p..];
    assert InsertPosition(sorted, candidate.savings) == p by {
      if p > 0 { assert sorted[..p][p - 1] == sorted[p - 1]; }
    }
    InsertedHold(ordered, candidate, sorted, p);
  }

  lemma InsertedHold(ordered: seq<Candidate>, candidate: Candidate, sorted: seq<Draft>, p: nat)
    requires Hold(ordered, sorted) && Separate(ordered) && candidate !in ordered && p <= |ordered|
    ensures var longer := ordered[..p] + [candidate] + ordered[p..];
            && Hold(longer, sorted[..p] + [candidate.Value()] + sorted[p..])
            && Separate(longer) && Among(longer, ordered + [candidate])
  {
  }

  /** Stable sort by falling savings. */
  method SortBySavings(candidates: seq<Candidate>, ghost drafts: seq<Draft>) returns (ordered: seq<Candidate>)
    requires Hold(candidates, drafts) && Separate(candidates)
    ensures Hold(ordered, Sorted(drafts)) && Separate(ordered) && Among(ordered, candidates)
  {
    ordered := [];
    for i := 0 to |candidates|
      invariant Hold(ordered, Sorted(drafts[..i])) && Separate(ordered) && Among(ordered, candidates[..i])
    {
      assert drafts[..i + 1][..i] == drafts[..i];
      assert candidates[i] !in candidates[..i];
      ordered := InsertBySavings(ordered, candidates[i], Sorted(drafts[..i]));
    }
    assert drafts[..|candidates|] == drafts;
  }

  method FindCompatible(merged: seq<Candidate>, keys: seq<Key>, ghost drafts: seq<Draft>) returns (at: nat)
    requires Hold(merged, drafts)
    ensures at == FirstCompatible(drafts, keys)
  {
    at := 0;
    while at < |merged| && !Compatible(keys, merged[at].keys)
      invariant 0 <= at <= |merged| && FirstCompatible(drafts, keys) == at + FirstCompatible(drafts[at..], keys)
    {
      assert drafts[at..][1..] == drafts[at + 1..];
      at := at + 1;
    }
  }

  /** Adds one candidate: into the first compatible one that can take it, or to the list. */
  method MergeCandidate(merged: seq<Candidate>, candidate: Candidate, settings: Settings, ghost drafts: seq<Draft>)
      returns (after: seq<Candidate>)
    requires Hold(merged, drafts) && Separate(merged) && candidate !in merged
    modifies Objects(merged)
    ensures Hold(after, MergeOne(settings, drafts, candidate.Value()))
    ensures Separate(after) && Among(after, merged + [candidate])
  {
    var at := FindCompatible(merged, candidate.keys, drafts);
    var absorbed := false;
    if at < |merged| {
      absorbed := merged[at].Absorb(candidate, settings);
    }
    after := if absorbed then merged else merged + [candidate];
  }

  /** Merges candidates whose keys are compatible, the costliest first. */
  method MergeCandidates(candidates: seq<Candidate>, settings: Settings, ghost drafts: seq<Draft>)
      returns (merged: seq<Candidate>)
    requires Hold(candidates, drafts) && Separate(candidates)
    modifies Objects(candidates)
    ensures Hold(merged, Merged(settings, drafts))
    ensures Separate(merged) && Among(merged, candidates)
  {
    var ordered := SortBySavings(candidates, drafts);
    ghost var sorted := Sorted(drafts);
    merged := MergeOrdered(ordered, settings, sorted);
  }

  method MergeOrdered(ordered: seq<Candidate>, settings: Settings, ghost sorted: seq<Draft>)
        returns (merged: seq<Candidate>)
    requires Hold(ordered, sorted) && Separate(ordered)
    modifies Objects(ordered)
    ensures Hold(merged, MergeAll(settings, sorted))
    ensures Separate(merged) && Among(merged, ordered)
  {
    merged := [];
    ghost var drafts: seq<Draft> := [];
    for i := 0 to |ordered|
      invariant Hold(merged, drafts) && drafts == MergeAll(settings, sorted[..i])
      invariant Separate(merged) && Among(merged, ordered[..i])
      invariant forall k :: i <= k < |ordered| ==> ordered[k].Value() == sorted[k]
    {
      assert sorted[..i + 1][..i] == sorted[..i];
      Apart(ordered, merged, i);
      merged := MergeCandidate(merged, ordered[i], settings, drafts);
      drafts := MergeOne(settings, drafts, sorted[i]);
    }
    assert sorted[..|ordered|] == sorted;
  }

  lemma Apart(ordered: seq<Candidate>, merged: seq<Candidate>, i: nat)
    requires Separate(ordered) && i <= |ordered| && Among(merged, ordered[..i])
    ensures forall k :: i <= k < |ordered| ==> ordered[k] !in merged
    ensures forall c :: c in merged ==> c in ordered
  {
  }

  // ---------------------------------------------------------------- reconciliation

  /** Candidates that land on the same existing index are joined into one object. */
  datatype Slot = Slot(action: R.Action, target: Index, candidate: Candidate)

  class Reconciliation {
    const context: R.Context
    var skipped: seq<Draft>
    var covered: seq<Draft>
    var slots: seq<Slot>
    var creates: seq<Candidate>

    constructor (settings: Settings, existing: seq<Index>, lowColumns: set<Column>)
      ensures context == R.ContextOf(settings, existing, lowColumns)
      ensures skipped == [] && covered == [] && slots == [] && creates == []
    {
      var clustering := FindClusteringKeys(existing);
      context := R.Context(settings, R.Rowstore(existing), clustering, lowColumns);
      skipped, covered, slots, creates := [], [], [], [];
    }

    /** The candidates this object holds; none of them is held twice. */
    function Held(): set<Candidate>
      reads this
    {
      (set slot | slot in slots :: slot.candidate) + Objects(creates)
    }

    ghost predicate Valid(book: R.Book)
      reads this, Held()
    {
      && skipped == book.skipped && covered == book.covered
      && |slots| == |book.groups|
      && (forall i :: 0 <= i < |slots| ==>
            R.Group(slots[i].action, slots[i].target, slots[i].candidate.Value()) == book.groups[i])
      && Hold(creates, book.creates) && Apart()
    }

    ghost predicate Apart()
      reads this
    {
      && (forall i, j :: 0 <= i < j < |slots| ==> slots[i].candidate != slots[j].candidate)
      && forall i :: 0 <= i < |slots| ==> slots[i].candidate !in creates
    }

    method FindSlot(action: R.Action, name: string, ghost book: R.Book) returns (at: nat)
      requires Valid(book)
      ensures at == R.FindGroup(book.groups, action, name)
    {
      at := 0;
      while at < |slots| && !(slots[at].action == action && slots[at].target.name == name)
        invariant 0 <= at <= |slots|
        invariant R.FindGroup(book.groups, action, name) == at + R.FindGroup(book.groups[at..], action, name)
      {
        assert book.groups[at..][1..] == book.groups[at + 1..] && book.groups[at..][0] == book.groups[at];
        at := at + 1;
      }
    }

    method GroupOnTarget(action: R.Action, target: Index, candidate: Candidate, ghost book: R.Book)
      requires Valid(book) && candidate !in Held()
      modifies this`slots, Held()
      ensures Valid(book.(groups := R.GroupOn(book.groups, action, target, candidate.Value())))
      ensures Held() <= old(Held()) + {candidate}
    {
      var at := FindSlot(action, target.name, book);
      if at == |slots| {
        slots := slots + [Slot(action, target, candidate)];
      } else {
        JoinSlot(at, candidate, book);
      }
    }

    method JoinSlot(at: nat, candidate: Candidate, ghost book: R.Book)
      requires Valid(book) && candidate !in Held() && at < |slots|
      modifies Held()
      ensures var joined := book.groups[at].(draft := Joined(book.groups[at].draft, candidate.Value()));
              Valid(book.(groups := book.groups[at := joined]))
    {
      assert slots[at] in slots;
      slots[at].candidate.Join(candidate);
    }

    /** Decides where one fitted candidate goes. */
    method FindSpot(draft: Draft, ghost book: R.Book) returns (spot: R.Spot)
      requires Valid(book)
      ensures spot == R.SpotOf(context, book.groups, draft)
    {
      if draft.lowSelectivity && |draft.supports| < 2 {
        return R.Skipping;
      }
      if R.CoveredByExisting(context, draft) {
        return R.Covering;
      }
      var extend := R.FirstExtendable(context.rowstore, draft.keys);
      if extend.Some? {
        return R.Grouping(R.Extend, extend.value);
      }
      var widen := R.FirstWidenable(context.rowstore, draft.keys);
      if widen.Some? {
        var joins := CanJoin(widen.value, draft.keys, book);
        if joins {
          return R.Grouping(R.Widen, widen.value);
        }
      }
      spot := R.Creating;
    }

    /** Puts one fitted candidate where it goes. */
    method Place(candidate: Candidate, ghost book: R.Book)
      requires Valid(book) && candidate !in Held()
      modifies this, Held()
      ensures Valid(R.Place(context, book, old(candidate.Value())))
      ensures Held() <= old(Held()) + {candidate}
    {
      var draft := candidate.Value();
      var spot := FindSpot(draft, book);
      match spot {
        case Skipping => skipped := skipped + [draft];
        case Covering => covered := covered + [draft];
        case Grouping(action, target) => GroupOnTarget(action, target, candidate, book);
        case Creating => creates := creates + [candidate];
      }
    }

    method CanJoin(target: Index, keys: seq<Key>, ghost book: R.Book) returns (joins: bool)
      requires Valid(book)
      ensures joins == R.JoinsWiden(book.groups, target, keys)
    {
      var at := FindSlot(R.Widen, target.name, book);
      joins := at == |slots| || Compatible(slots[at].candidate.keys, keys);
    }

    /** Changes the targets that can take their group; the other groups become new indexes. */
    method Finish(ghost book: R.Book) returns (changes: seq<R.Group>)
      requires Valid(book)
      modifies this`creates
      ensures changes == R.Changes(context, book.groups) && Hold(creates, R.Creations(context, book))
    {
      changes := [];
      assert book.groups[..0] == [];
      assert R.Fallbacks(context, []) == [] && book.creates + [] == book.creates;
      for i := 0 to |slots|
        invariant changes == R.Changes(context, book.groups[..i])
        invariant Hold(creates, book.creates + R.Fallbacks(context, book.groups[..i]))
      {
        FinishStep(book, i);
        changes := FinishSlot(book.groups[i], i, changes, book.creates + R.Fallbacks(context, book.groups[..i]));
      }
      assert book.groups[..|slots|] == book.groups;
    }

    /** One grouped candidate: a change, or one more index to create. */
    method FinishSlot(ghost group: R.Group, i: nat, changes: seq<R.Group>, ghost drafts: seq<Draft>)
          returns (more: seq<R.Group>)
      requires i < |slots| && R.Group(slots[i].action, slots[i].target, slots[i].candidate.Value()) == group
               && Hold(creates, drafts)
      modifies this`creates
      ensures more == changes + if R.Accepted(context, group) then [group] else []
      ensures Hold(creates, drafts + if R.Accepted(context, group) then [] else [group.draft])
    {
      more := changes;
      var own := R.Group(slots[i].action, slots[i].target, slots[i].candidate.Value());
      if R.Accepted(context, own) {
        more := more + [own];
      } else {
        creates := creates + [slots[i].candidate];
      }
    }

    lemma FinishStep(book: R.Book, i: nat)
      requires i < |book.groups|
      ensures var group, accepted := book.groups[i], R.Accepted(context, book.groups[i]);
              && R.Changes(context, book.groups[..i + 1])
                 == R.Changes(context, book.groups[..i]) + (if accepted then [group] else [])
              && book.creates + R.Fallbacks(context, book.groups[..i + 1])
                 == (book.creates + R.Fallbacks(context, book.groups[..i])) + (if accepted then [] else [group.draft])
    {
      assert book.groups[..i + 1][..i] == book.groups[..i];
    }

    /** The advice for one table: which targets change, and which new indexes to create. */
    method Reconcile(candidates: seq<Candidate>, ghost drafts: seq<Draft>) returns (changes: seq<R.Group>)
      requires skipped == covered == [] && slots == [] && creates == []
      requires Hold(candidates, drafts) && Separate(candidates)
      modifies this, Objects(candidates)
      ensures var book := R.PlaceAll(context, drafts);
              changes == R.Changes(context, book.groups) && Hold(creates, R.Creations(context, book))
    {
      ghost var book := R.Book([], [], [], []);
      for i := 0 to |candidates|
        invariant Valid(book) && book == R.PlaceAll(context, drafts[..i])
        invariant Held() <= Objects(candidates[..i])
        invariant forall k :: i <= k < |candidates| ==> candidates[k].Value() == drafts[k]
      {
        var candidate := candidates[i];
        assert drafts[..i + 1][..i] == drafts[..i];
        assert candidate !in Objects(candidates[..i]);
        candidate.FitKeyWidth(context.settings.catalog, context.lowColumns);
        Place(candidate, book);
        book := R.Place(context, book, R.FittedFor(context, drafts[i]));
      }
      assert drafts[..|candidates|] == drafts;
      changes := Finish(book);
    }
  }
}
