/** The report of one table: the changes and new indexes of the advice together with the findings of
    the review, carried out in any order. Either side rebuilds an index from its catalogued
    definition and knows nothing of the other; a rebuild of an index that is gone changes nothing. */
module IndexReport {
  import opened Wrappers
  import opened IndexModel
  import C = IndexCandidates
  import B = IndexBounds
  import R = IndexReconcile
  import O = IndexOutcome
  import F = IndexFindings
  import S = FindingsSafety
  import J = FindingsJustified

  datatype Entry = Found(finding: F.Finding) | Changed(group: R.Group) | Created(draft: C.Draft)

  function FindingsOf(entries: seq<Entry>): seq<F.Finding> {
    if entries == [] then []
    else FindingsOf(entries[..|entries| - 1])
         + var last := entries[|entries| - 1]; if last.Found? then [last.finding] else []
  }

  function ChangesOf(entries: seq<Entry>): seq<R.Group> {
    if entries == [] then []
    else ChangesOf(entries[..|entries| - 1])
         + var last := entries[|entries| - 1]; if last.Changed? then [last.group] else []
  }

  function CreatedOf(entries: seq<Entry>): seq<C.Draft> {
    if entries == [] then []
    else CreatedOf(entries[..|entries| - 1])
         + var last := entries[|entries| - 1]; if last.Created? then [last.draft] else []
  }

  predicate Rebuilds(f: F.Finding, index: Index) { f.Consolidated? && f.needed != [] && f.survivor == index }

  predicate RebuildsIndex(entry: Entry, index: Index) {
    (entry.Found? && Rebuilds(entry.finding, index)) || (entry.Changed? && entry.group.target == index)
  }

  /** The definition that an entry gives the index it rebuilds. */
  function DefinitionBy(advice: R.Context, index: Index, entry: Entry): Index
    requires RebuildsIndex(entry, index)
  {
    if entry.Found? then F.Widened(index, entry.finding.needed) else R.Redefined(advice, entry.group)
  }

  /** The definition of an index after the entries were carried out in this order. */
  function DefinitionAfter(advice: R.Context, index: Index, entries: seq<Entry>): Index {
    if entries == [] then index
    else
      var front, last := entries[..|entries| - 1], entries[|entries| - 1];
      if RebuildsIndex(last, index) then DefinitionBy(advice, index, last) else DefinitionAfter(advice, index, front)
  }

  /** The catalogued indexes that no entry removes, as the entries leave them. */
  function Kept(advice: R.Context, existing: seq<Index>, entries: seq<Entry>): (table: seq<Index>)
    ensures forall index :: index in existing && index.name !in S.Removed(FindingsOf(entries)) ==>
              DefinitionAfter(advice, index, entries) in table
  {
    if existing == [] then []
    else (if existing[0].name in S.Removed(FindingsOf(entries)) then []
          else [DefinitionAfter(advice, existing[0], entries)])
         + Kept(advice, existing[1..], entries)
  }

  function TableAfter(advice: R.Context, existing: seq<Index>, entries: seq<Entry>): seq<Index> {
    Kept(advice, existing, entries) + O.NewIndexes(CreatedOf(entries))
  }

  /** Some enabled index of the table covers the request. */
  ghost predicate CoveredIn(clustering: seq<Column>, table: seq<Index>, keys: seq<Key>, includes: seq<Column>) {
    exists index :: index in table && !index.isDisabled && Covers(index, keys, includes, clustering)
  }

  predicate IsRebuilt(findings: seq<F.Finding>, index: Index) { exists f :: f in findings && Rebuilds(f, index) }

  /** The advice changes the index, and the review removes it or rebuilds it. */
  predicate Contested(entries: seq<Entry>, index: Index) {
    O.Targets(ChangesOf(entries), index)
    && (index.name in S.Removed(FindingsOf(entries)) || IsRebuilt(FindingsOf(entries), index))
  }

  ghost predicate NoneContested(entries: seq<Entry>) { forall index :: !Contested(entries, index) }

  /** One table: both sides read the same indexes. */
  predicate SameTable(review: F.Context, advice: R.Context, existing: seq<Index>) {
    && review.clustering == advice.clustering && DistinctNames(existing)
    && advice.rowstore == R.Rowstore(existing)
  }

  /** Any selection of what the review found and the advice changes, in any order. */
  ghost predicate Selects(review: F.Context, advice: R.Context, existing: seq<Index>, candidates: seq<C.Draft>,
                          findings: seq<F.Finding>, entries: seq<Entry>) {
    && SameTable(review, advice, existing) && S.Justified(review, existing, findings)
    && S.Selection(FindingsOf(entries), findings)
    && forall group :: group in ChangesOf(entries) ==>
         group in R.Changes(advice, R.PlaceAll(advice, candidates).groups)
  }

  /** The findings of the review are such a list. */
  lemma ReviewIsSelected(review: F.Context, advice: R.Context, existing: seq<Index>, candidates: seq<C.Draft>,
                         entries: seq<Entry>)
    requires SameTable(review, advice, existing)
    requires S.Selection(FindingsOf(entries), F.Reviewing(review, existing).findings)
    requires forall group :: group in ChangesOf(entries) ==>
               group in R.Changes(advice, R.PlaceAll(advice, candidates).groups)
    ensures Selects(review, advice, existing, candidates, F.Reviewing(review, existing).findings, entries)
  {
    J.ReviewIsJustified(review, existing);
  }

  // ---------------------------------------------------------------- one index

  lemma LastFinding(front: seq<Entry>, last: Entry)
    ensures var found := FindingsOf(front + [last]);
            if last.Found?
            then |found| == |FindingsOf(front)| + 1 && found[..|found| - 1] == FindingsOf(front)
                 && found[|found| - 1] == last.finding
            else found == FindingsOf(front)
  {
    assert (front + [last])[..|front|] == front;
  }

  lemma LastChange(front: seq<Entry>, last: Entry)
    ensures var changes := ChangesOf(front + [last]);
            if last.Changed?
            then |changes| == |ChangesOf(front)| + 1 && changes[..|changes| - 1] == ChangesOf(front)
                 && changes[|changes| - 1] == last.group
            else changes == ChangesOf(front)
  {
    assert (front + [last])[..|front|] == front;
  }

  lemma {:induction false} UnchangedIsFinal(advice: R.Context, index: Index, entries: seq<Entry>)
    requires !O.Targets(ChangesOf(entries), index)
    ensures DefinitionAfter(advice, index, entries) == S.FinalDefinition(index, FindingsOf(entries))
  {
    if entries != [] {
      var front, last := entries[..|entries| - 1], entries[|entries| - 1];
      assert entries == front + [last];
      LastChange(front, last);
      assert last.Changed? ==> last.group in ChangesOf(entries);
      assert forall group :: group in ChangesOf(front) ==> group in ChangesOf(entries);
      UnchangedIsFinal(advice, index, front);
      LastFinding(front, last);
    }
  }

  lemma {:induction false} UnbuiltIsChanged(advice: R.Context, index: Index, entries: seq<Entry>)
    requires !IsRebuilt(FindingsOf(entries), index)
    ensures DefinitionAfter(advice, index, entries) == O.DefinitionAfter(advice, index, ChangesOf(entries))
  {
    if entries != [] {
      var front, last := entries[..|entries| - 1], entries[|entries| - 1];
      assert entries == front + [last];
      LastFinding(front, last);
      assert last.Found? ==> last.finding in FindingsOf(entries);
      assert forall f :: f in FindingsOf(front) ==> f in FindingsOf(entries);
      UnbuiltIsChanged(advice, index, front);
      LastChange(front, last);
    }
  }

  lemma {:induction false} UnbuiltIsCatalogued(index: Index, findings: seq<F.Finding>)
    requires !IsRebuilt(findings, index)
    ensures S.FinalDefinition(index, findings) == index
  {
    if findings != [] {
      var front, last := findings[..|findings| - 1], findings[|findings| - 1];
      assert findings == front + [last] && last in findings;
      UnbuiltIsCatalogued(index, front);
    }
  }

  /** Longer keys, more columns, and nothing else changed. */
  predicate Improves(after: Index, before: Index) {
    && after == before.(keys := after.keys, includes := after.includes) && before.keys <= after.keys
    && NameSet(before.keys) + ColumnSet(before.includes) <= NameSet(after.keys) + ColumnSet(after.includes)
  }

  lemma ImprovedCovers(after: Index, before: Index, keys: seq<Key>, includes: seq<Column>, clustering: seq<Column>)
    requires Improves(after, before) && Covers(before, keys, includes, clustering)
    ensures Covers(after, keys, includes, clustering)
  {
  }

  lemma {:induction false} RebuildsImprove(review: F.Context, advice: R.Context, existing: seq<Index>,
                                           candidates: seq<C.Draft>, findings: seq<F.Finding>, index: Index,
                                           entries: seq<Entry>)
    requires Selects(review, advice, existing, candidates, findings, entries)
    ensures Improves(DefinitionAfter(advice, index, entries), index)
  {
    if entries != [] {
      var front, last := entries[..|entries| - 1], entries[|entries| - 1];
      assert ChangesOf(entries) == ChangesOf(front) + if last.Changed? then [last.group] else [];
      assert FindingsOf(entries) == FindingsOf(front) + if last.Found? then [last.finding] else [];
      RebuildsImprove(review, advice, existing, candidates, findings, index, front);
      if last.Found? && Rebuilds(last.finding, index) {
        assert ColumnSet(index.includes) <= ColumnSet(index.includes + last.finding.needed);
      } else if last.Changed? && last.group.target == index {
        assert last.group in ChangesOf(entries);
        R.RowstoreStaysDistinct(existing);
        R.EveryChangeKeepsItsTarget(advice, candidates, last.group, [], []);
      }
    }
  }

  // ---------------------------------------------------------------- what indexes covered

  lemma KeptInTable(advice: R.Context, existing: seq<Index>, entries: seq<Entry>, index: Index,
                    keys: seq<Key>, includes: seq<Column>)
    requires index in existing && index.name !in S.Removed(FindingsOf(entries)) && !index.isDisabled
    requires Improves(DefinitionAfter(advice, index, entries), index)
    requires Covers(DefinitionAfter(advice, index, entries), keys, includes, advice.clustering)
    ensures CoveredIn(advice.clustering, TableAfter(advice, existing, entries), keys, includes)
  {
    assert DefinitionAfter(advice, index, entries) in TableAfter(advice, existing, entries);
  }

  /** The survivor of a consolidation covers what the removed index covered. */
  lemma SurvivorCovers(review: F.Context, advice: R.Context, existing: seq<Index>, candidates: seq<C.Draft>,
                       findings: seq<F.Finding>, entries: seq<Entry>, redundant: Index, survivor: Index,
                       needed: seq<Column>, keys: seq<Key>, includes: seq<Column>)
    requires Selects(review, advice, existing, candidates, findings, entries) && !Contested(entries, survivor)
    requires F.Consolidated(redundant, survivor, needed) in FindingsOf(entries)
    requires redundant.typeCode == NONCLUSTERED && Covers(redundant, keys, includes, advice.clustering)
    ensures CoveredIn(advice.clustering, TableAfter(advice, existing, entries), keys, includes)
  {
    var selected := FindingsOf(entries);
    S.SurvivorCarries(review, existing, findings, selected, redundant, survivor, needed);
    RebuildsImprove(review, advice, existing, candidates, findings, survivor, entries);
    var after := DefinitionAfter(advice, survivor, entries);
    if O.Targets(ChangesOf(entries), survivor) {
      UnbuiltIsCatalogued(survivor, selected);
    } else {
      UnchangedIsFinal(advice, survivor, entries);
    }
    assert NameSet(redundant.keys) + ColumnSet(redundant.includes) <= Carried(after, advice.clustering);
    KeptInTable(advice, existing, entries, survivor, keys, includes);
  }

  /** Whatever part of the report is carried out, in whatever order: when no index is both changed by
      the advice and removed or rebuilt by the review, every request that an enabled index covered is
      covered afterwards, unless that index is dropped as unused. */
  lemma ReportKeepsCoverage(review: F.Context, advice: R.Context, existing: seq<Index>, candidates: seq<C.Draft>,
                            findings: seq<F.Finding>, entries: seq<Entry>, index: Index,
                            keys: seq<Key>, includes: seq<Column>)
    requires Selects(review, advice, existing, candidates, findings, entries) && NoneContested(entries)
    requires index in existing && !index.isDisabled && F.Dropped(index) !in FindingsOf(entries)
    requires Covers(index, keys, includes, advice.clustering)
    ensures CoveredIn(advice.clustering, TableAfter(advice, existing, entries), keys, includes)
  {
    var selected := FindingsOf(entries);
    if index.name !in S.Removed(selected) {
      RebuildsImprove(review, advice, existing, candidates, findings, index, entries);
      ImprovedCovers(DefinitionAfter(advice, index, entries), index, keys, includes, advice.clustering);
      KeptInTable(advice, existing, entries, index, keys, includes);
    } else {
      var f := RemovedByConsolidation(review, existing, findings, selected, index);
      SurvivorCovers(review, advice, existing, candidates, findings, entries, f.redundant, f.survivor, f.needed,
                     keys, includes);
    }
  }

  lemma RemovedByConsolidation(review: F.Context, existing: seq<Index>, findings: seq<F.Finding>,
                               selected: seq<F.Finding>, index: Index) returns (f: F.Finding)
    requires S.Justified(review, existing, findings) && S.Selection(selected, findings) && DistinctNames(existing)
    requires index in existing && index.name in S.Removed(selected) && F.Dropped(index) !in selected
    ensures f in selected && f.Consolidated? && f.redundant == index && index.typeCode == NONCLUSTERED
  {
    S.RemovedBySome(selected, index.name);
    f :| f in selected && S.Removes(f, index.name);
    match f {
      case Dropped(other) =>
        S.DroppedIsExisting(review, existing, findings, other);
        S.SameName(existing, other, index);
      case Consolidated(redundant, _, _) =>
        S.ConsolidationFacts(review, existing, findings, f);
        S.SameName(existing, redundant, index);
    }
  }

  // ---------------------------------------------------------------- what the candidates ask for

  /** The whole advice, in any order among the findings. */
  predicate HasAllAdvice(advice: R.Context, candidates: seq<C.Draft>, entries: seq<Entry>) {
    && O.Orders(advice, candidates, ChangesOf(entries))
    && forall draft :: draft in R.Creations(advice, R.PlaceAll(advice, candidates)) ==> draft in CreatedOf(entries)
  }

  ghost predicate CoveredByDropped(findings: seq<F.Finding>, keys: seq<Key>, includes: seq<Column>,
                                   clustering: seq<Column>) {
    exists index :: F.Dropped(index) in findings && Covers(index, keys, includes, clustering)
  }

  lemma CreatedInTable(advice: R.Context, existing: seq<Index>, entries: seq<Entry>, draft: C.Draft,
                       keys: seq<Key>, includes: seq<Column>)
    requires draft in CreatedOf(entries) && Covers(R.NewIndex(draft), keys, includes, advice.clustering)
    ensures CoveredIn(advice.clustering, TableAfter(advice, existing, entries), keys, includes)
  {
    var created := CreatedOf(entries);
    var i :| 0 <= i < |created| && created[i] == draft;
    assert O.NewIndexes(created)[i] == R.NewIndex(draft);
    assert R.NewIndex(draft) in TableAfter(advice, existing, entries);
  }

  lemma ChangeCovers(review: F.Context, advice: R.Context, existing: seq<Index>, candidates: seq<C.Draft>,
                     findings: seq<F.Finding>, entries: seq<Entry>, group: R.Group, fitted: C.Draft)
    requires Selects(review, advice, existing, candidates, findings, entries)
    requires HasAllAdvice(advice, candidates, entries) && !Contested(entries, group.target)
    requires group in R.Changes(advice, R.PlaceAll(advice, candidates).groups) && R.GroupFits(advice, group)
    requires !O.HasRival(advice, candidates, group) && C.Serves(group.draft, fitted)
    ensures CoveredIn(advice.clustering, TableAfter(advice, existing, entries), fitted.keys, fitted.includes)
  {
    R.RowstoreStaysDistinct(existing);
    assert O.Targets(ChangesOf(entries), group.target);
    UnbuiltIsChanged(advice, group.target, entries);
    O.ChangeStays(advice, candidates, ChangesOf(entries), group);
    R.RedefinedCovers(advice, group, fitted);
    RebuildsImprove(review, advice, existing, candidates, findings, group.target, entries);
    KeptInTable(advice, existing, entries, group.target, fitted.keys, fitted.includes);
  }

  /** The whole advice, with any of the findings and in any order: when no index is both changed by the
      advice and removed or rebuilt by the review, every fitted candidate is weak, or covered by the
      table afterwards, or endangered within the advice, or was covered by an index dropped as unused. */
  lemma ReportCoversCandidates(review: F.Context, advice: R.Context, existing: seq<Index>, candidates: seq<C.Draft>,
                               findings: seq<F.Finding>, entries: seq<Entry>, candidate: C.Draft)
    requires Selects(review, advice, existing, candidates, findings, entries) && NoneContested(entries)
    requires HasAllAdvice(advice, candidates, entries) && candidate in candidates
    ensures var fitted := R.FittedFor(advice, candidate);
            || R.Weak(fitted)
            || CoveredIn(advice.clustering, TableAfter(advice, existing, entries), fitted.keys, fitted.includes)
            || O.Endangered(advice, candidates, fitted)
            || CoveredByDropped(FindingsOf(entries), fitted.keys, fitted.includes, advice.clustering)
  {
    var book, fitted := R.PlaceAll(advice, candidates), R.FittedFor(advice, candidate);
    R.RowstoreStaysDistinct(existing);
    R.AllBooked(advice, candidates);
    assert R.Booked(advice, book, fitted);
    if fitted in book.skipped {
      R.OnlyWeakSkipped(advice, candidates, fitted);
    } else if index :| index in advice.rowstore && Covers(index, fitted.keys, fitted.includes, advice.clustering) {
      if F.Dropped(index) !in FindingsOf(entries) {
        ReportKeepsCoverage(review, advice, existing, candidates, findings, entries, index, fitted.keys,
          fitted.includes);
      }
    } else if group :| group in book.groups && C.Serves(group.draft, fitted) {
      GroupCovers(review, advice, existing, candidates, findings, entries, group, fitted);
    } else if other :| other in book.creates && C.Serves(other, fitted) {
      assert other in R.Creations(advice, book);
      R.NewIndexCovers(other, fitted, advice.clustering);
      CreatedInTable(advice, existing, entries, other, fitted.keys, fitted.includes);
    }
  }

  lemma GroupCovers(review: F.Context, advice: R.Context, existing: seq<Index>, candidates: seq<C.Draft>,
                    findings: seq<F.Finding>, entries: seq<Entry>, group: R.Group, fitted: C.Draft)
    requires Selects(review, advice, existing, candidates, findings, entries) && NoneContested(entries)
    requires HasAllAdvice(advice, candidates, entries)
    requires group in R.PlaceAll(advice, candidates).groups && R.GroupFits(advice, group)
    requires C.Serves(group.draft, fitted)
    ensures CoveredIn(advice.clustering, TableAfter(advice, existing, entries), fitted.keys, fitted.includes)
            || O.Endangered(advice, candidates, fitted)
  {
    var book := R.PlaceAll(advice, candidates);
    R.GroupIsDecided(advice, book.groups, group);
    if group in R.Changes(advice, book.groups) {
      if !O.HasRival(advice, candidates, group) {
        ChangeCovers(review, advice, existing, candidates, findings, entries, group, fitted);
      }
    } else {
      assert group.draft in R.Creations(advice, book);
      R.NewIndexCovers(group.draft, fitted, advice.clustering);
      CreatedInTable(advice, existing, entries, group.draft, fitted.keys, fitted.includes);
    }
  }

  // ---------------------------------------------------------------- in every order

  predicate SomeRebuild(entries: seq<Entry>, index: Index) {
    exists entry :: entry in entries && RebuildsIndex(entry, index)
  }

  /** The index stays, and every definition that the entries have for it covers the request. */
  predicate CoversFirmly(advice: R.Context, entries: seq<Entry>, index: Index, keys: seq<Key>, includes: seq<Column>) {
    && index.name !in S.Removed(FindingsOf(entries)) && !index.isDisabled
    && (!SomeRebuild(entries, index) ==> Covers(index, keys, includes, advice.clustering))
    && forall entry :: entry in entries && RebuildsIndex(entry, index) ==>
         Covers(DefinitionBy(advice, index, entry), keys, includes, advice.clustering)
  }

  ghost predicate FirmlyCovered(advice: R.Context, existing: seq<Index>, entries: seq<Entry>,
                                keys: seq<Key>, includes: seq<Column>) {
    || (exists draft :: Created(draft) in entries && Covers(R.NewIndex(draft), keys, includes, advice.clustering))
    || exists index :: index in existing && CoversFirmly(advice, entries, index, keys, includes)
  }

  predicate Reorders(order: seq<Entry>, entries: seq<Entry>) {
    (forall entry :: entry in order ==> entry in entries) && forall entry :: entry in entries ==> entry in order
  }

  ghost predicate AlwaysCovered(advice: R.Context, existing: seq<Index>, entries: seq<Entry>,
                                keys: seq<Key>, includes: seq<Column>) {
    forall order :: Reorders(order, entries) ==>
      CoveredIn(advice.clustering, TableAfter(advice, existing, order), keys, includes)
  }

  lemma {:induction false} FindingsAreFound(entries: seq<Entry>)
    ensures forall f :: f in FindingsOf(entries) <==> Found(f) in entries
  {
    if entries != [] {
      var front, last := entries[..|entries| - 1], entries[|entries| - 1];
      assert entries == front + [last];
      FindingsAreFound(front);
    }
  }

  lemma {:induction false} DraftsAreCreated(entries: seq<Entry>)
    ensures forall draft :: draft in CreatedOf(entries) <==> Created(draft) in entries
  {
    if entries != [] {
      var front, last := entries[..|entries| - 1], entries[|entries| - 1];
      assert entries == front + [last];
      DraftsAreCreated(front);
    }
  }

  lemma {:induction false} RemovesItsIndex(findings: seq<F.Finding>, f: F.Finding, name: string)
    requires f in findings && S.Removes(f, name)
    ensures name in S.Removed(findings)
  {
    var front, last := findings[..|findings| - 1], findings[|findings| - 1];
    assert findings == front + [last];
    if f != last {
      RemovesItsIndex(front, f, name);
    }
  }

  /** What is removed does not depend on the order. */
  lemma SameRemoved(order: seq<Entry>, entries: seq<Entry>)
    requires Reorders(order, entries)
    ensures S.Removed(FindingsOf(order)) == S.Removed(FindingsOf(entries))
  {
    FindingsAreFound(order);
    FindingsAreFound(entries);
    forall name ensures name in S.Removed(FindingsOf(order)) <==> name in S.Removed(FindingsOf(entries)) {
      if name in S.Removed(FindingsOf(order)) {
        S.RemovedBySome(FindingsOf(order), name);
        var f :| f in FindingsOf(order) && S.Removes(f, name);
        RemovesItsIndex(FindingsOf(entries), f, name);
      }
      if name in S.Removed(FindingsOf(entries)) {
        S.RemovedBySome(FindingsOf(entries), name);
        var f :| f in FindingsOf(entries) && S.Removes(f, name);
        RemovesItsIndex(FindingsOf(order), f, name);
      }
    }
  }

  lemma {:induction false} DefinitionIsSome(advice: R.Context, index: Index, order: seq<Entry>)
    ensures var after := DefinitionAfter(advice, index, order);
            (after == index && !SomeRebuild(order, index))
            || exists entry ::
              entry in order && RebuildsIndex(entry, index) && after == DefinitionBy(advice, index, entry)
  {
    if order != [] {
      var front, last := order[..|order| - 1], order[|order| - 1];
      assert order == front + [last];
      DefinitionIsSome(advice, index, front);
      if RebuildsIndex(last, index) {
        assert last in order && DefinitionAfter(advice, index, order) == DefinitionBy(advice, index, last);
      } else if SomeRebuild(front, index) {
        var entry :| entry in front && RebuildsIndex(entry, index)
                     && DefinitionAfter(advice, index, front) == DefinitionBy(advice, index, entry);
        assert entry in order;
      }
    }
  }

  lemma {:induction false} LaterDecides(advice: R.Context, index: Index, earlier: seq<Entry>, later: seq<Entry>)
    requires SomeRebuild(later, index)
    ensures DefinitionAfter(advice, index, earlier + later) == DefinitionAfter(advice, index, later)
  {
    var front, last := later[..|later| - 1], later[|later| - 1];
    assert later == front + [last];
    assert (earlier + later)[..|earlier + later| - 1] == earlier + front;
    if !RebuildsIndex(last, index) {
      assert SomeRebuild(front, index);
      LaterDecides(advice, index, earlier, front);
    }
  }

  /** An entry that gives some index a definition which does not cover the request. */
  predicate Spoils(advice: R.Context, entry: Entry, keys: seq<Key>, includes: seq<Column>) {
    if entry.Found? then
      entry.finding.Consolidated? && entry.finding.needed != []
      && !Covers(F.Widened(entry.finding.survivor, entry.finding.needed), keys, includes, advice.clustering)
    else
      entry.Changed? && !Covers(R.Redefined(advice, entry.group), keys, includes, advice.clustering)
  }

  function Split(advice: R.Context, entries: seq<Entry>, keys: seq<Key>, includes: seq<Column>, spoiling: bool)
      : (part: seq<Entry>)
    ensures forall entry :: entry in part <==> entry in entries && Spoils(advice, entry, keys, includes) == spoiling
  {
    if entries == [] then []
    else
      var front, last := entries[..|entries| - 1], entries[|entries| - 1];
      assert entries == front + [last];
      Split(advice, front, keys, includes, spoiling)
      + if Spoils(advice, last, keys, includes) == spoiling then [last] else []
  }

  /** The entries that spoil the request run last. */
  function SpoiledLast(advice: R.Context, entries: seq<Entry>, keys: seq<Key>, includes: seq<Column>): seq<Entry> {
    Split(advice, entries, keys, includes, false) + Split(advice, entries, keys, includes, true)
  }

  lemma SpoiledLastReorders(advice: R.Context, entries: seq<Entry>, keys: seq<Key>, includes: seq<Column>)
    ensures Reorders(SpoiledLast(advice, entries, keys, includes), entries)
  {
    forall entry ensures entry in SpoiledLast(advice, entries, keys, includes) <==> entry in entries {}
  }

  lemma SpoilsExactly(advice: R.Context, index: Index, entry: Entry, keys: seq<Key>, includes: seq<Column>)
    requires RebuildsIndex(entry, index)
    ensures Spoils(advice, entry, keys, includes)
            <==> !Covers(DefinitionBy(advice, index, entry), keys, includes, advice.clustering)
  {
  }

  lemma SpoiledDefinition(advice: R.Context, entries: seq<Entry>, index: Index, keys: seq<Key>, includes: seq<Column>)
    requires index.name !in S.Removed(FindingsOf(entries)) && !index.isDisabled
    requires !CoversFirmly(advice, entries, index, keys, includes)
    ensures !Covers(DefinitionAfter(advice, index, SpoiledLast(advice, entries, keys, includes)), keys, includes,
                    advice.clustering)
  {
    var earlier, later := Split(advice, entries, keys, includes, false), Split(advice, entries, keys, includes, true);
    if SomeRebuild(entries, index) {
      var entry :| entry in entries && RebuildsIndex(entry, index)
                   && !Covers(DefinitionBy(advice, index, entry), keys, includes, advice.clustering);
      SpoilsExactly(advice, index, entry, keys, includes);
      assert entry in later;
      LaterDecides(advice, index, earlier, later);
      SpoilersLeaveNone(advice, index, later, keys, includes);
    } else {
      DefinitionIsSome(advice, index, earlier + later);
    }
  }

  lemma SpoilersLeaveNone(advice: R.Context, index: Index, later: seq<Entry>, keys: seq<Key>, includes: seq<Column>)
    requires SomeRebuild(later, index) && forall entry :: entry in later ==> Spoils(advice, entry, keys, includes)
    ensures !Covers(DefinitionAfter(advice, index, later), keys, includes, advice.clustering)
  {
    DefinitionIsSome(advice, index, later);
    var entry :| entry in later && RebuildsIndex(entry, index)
                 && DefinitionAfter(advice, index, later) == DefinitionBy(advice, index, entry);
    SpoilsExactly(advice, index, entry, keys, includes);
  }

  lemma {:induction false} KeptIsSome(advice: R.Context, existing: seq<Index>, entries: seq<Entry>, index: Index)
    requires index in Kept(advice, existing, entries)
    ensures exists before :: before in existing && before.name !in S.Removed(FindingsOf(entries))
                             && index == DefinitionAfter(advice, before, entries)
  {
    if index !in Kept(advice, existing[1..], entries) {
      assert existing[0] in existing;
    } else {
      KeptIsSome(advice, existing[1..], entries, index);
    }
  }

  lemma SpoiledTable(review: F.Context, advice: R.Context, existing: seq<Index>, candidates: seq<C.Draft>,
                     findings: seq<F.Finding>, entries: seq<Entry>, keys: seq<Key>, includes: seq<Column>)
    requires Selects(review, advice, existing, candidates, findings, SpoiledLast(advice, entries, keys, includes))
    requires !FirmlyCovered(advice, existing, entries, keys, includes)
    ensures !CoveredIn(advice.clustering, TableAfter(advice, existing, SpoiledLast(advice, entries, keys, includes)),
                       keys, includes)
  {
    var order := SpoiledLast(advice, entries, keys, includes);
    SpoiledLastReorders(advice, entries, keys, includes);
    SameRemoved(order, entries);
    DraftsAreCreated(order);
    forall index | index in TableAfter(advice, existing, order) && !index.isDisabled
      ensures !Covers(index, keys, includes, advice.clustering) {
      if index in Kept(advice, existing, order) {
        KeptIsSome(advice, existing, order, index);
        var before :| before in existing && before.name !in S.Removed(FindingsOf(order))
                      && index == DefinitionAfter(advice, before, order);
        RebuildsImprove(review, advice, existing, candidates, findings, before, order);
        SpoiledDefinition(advice, entries, before, keys, includes);
      } else {
        var i :| 0 <= i < |CreatedOf(order)| && index == O.NewIndexes(CreatedOf(order))[i];
        assert CreatedOf(order)[i] in CreatedOf(order);
      }
    }
  }

  lemma FirmlyCoveredStays(review: F.Context, advice: R.Context, existing: seq<Index>, candidates: seq<C.Draft>,
                           findings: seq<F.Finding>, entries: seq<Entry>, order: seq<Entry>,
                           keys: seq<Key>, includes: seq<Column>)
    requires Selects(review, advice, existing, candidates, findings, order) && Reorders(order, entries)
    requires FirmlyCovered(advice, existing, entries, keys, includes)
    ensures CoveredIn(advice.clustering, TableAfter(advice, existing, order), keys, includes)
  {
    SameRemoved(order, entries);
    DraftsAreCreated(order);
    if index :| index in existing && CoversFirmly(advice, entries, index, keys, includes) {
      DefinitionIsSome(advice, index, order);
      RebuildsImprove(review, advice, existing, candidates, findings, index, order);
      KeptInTable(advice, existing, order, index, keys, includes);
    } else {
      var draft :| Created(draft) in entries && Covers(R.NewIndex(draft), keys, includes, advice.clustering);
      CreatedInTable(advice, existing, order, draft, keys, includes);
    }
  }

  lemma SelectsInAnyOrder(review: F.Context, advice: R.Context, existing: seq<Index>, candidates: seq<C.Draft>,
                          findings: seq<F.Finding>, entries: seq<Entry>, order: seq<Entry>)
    requires Selects(review, advice, existing, candidates, findings, entries) && Reorders(order, entries)
    ensures Selects(review, advice, existing, candidates, findings, order)
  {
    FindingsAreFound(order);
    FindingsAreFound(entries);
    ChangesAreChanged(order);
    ChangesAreChanged(entries);
  }

  lemma {:induction false} ChangesAreChanged(entries: seq<Entry>)
    ensures forall group :: group in ChangesOf(entries) <==> Changed(group) in entries
  {
    if entries != [] {
      var front, last := entries[..|entries| - 1], entries[|entries| - 1];
      assert entries == front + [last];
      ChangesAreChanged(front);
    }
  }

  /** Let some part of a report be carried out. A request is covered in every order if and only if a new
      index covers it, or an index that stays does under every definition that the part has for it. */
  lemma AlwaysCoveredExactly(review: F.Context, advice: R.Context, existing: seq<Index>, candidates: seq<C.Draft>,
                             findings: seq<F.Finding>, entries: seq<Entry>, keys: seq<Key>, includes: seq<Column>)
    requires Selects(review, advice, existing, candidates, findings, entries)
    ensures AlwaysCovered(advice, existing, entries, keys, includes)
            <==> FirmlyCovered(advice, existing, entries, keys, includes)
  {
    if FirmlyCovered(advice, existing, entries, keys, includes) {
      forall order | Reorders(order, entries)
        ensures CoveredIn(advice.clustering, TableAfter(advice, existing, order), keys, includes) {
        SelectsInAnyOrder(review, advice, existing, candidates, findings, entries, order);
        FirmlyCoveredStays(review, advice, existing, candidates, findings, entries, order, keys, includes);
      }
    } else {
      var order := SpoiledLast(advice, entries, keys, includes);
      SpoiledLastReorders(advice, entries, keys, includes);
      SelectsInAnyOrder(review, advice, existing, candidates, findings, entries, order);
      SpoiledTable(review, advice, existing, candidates, findings, entries, keys, includes);
    }
  }

  // ---------------------------------------------------------------- foreign keys

  /** Whatever part of the report is carried out, in whatever order: no foreign key loses its support. */
  lemma ReportKeepsSupport(review: F.Context, advice: R.Context, existing: seq<Index>, candidates: seq<C.Draft>,
                           findings: seq<F.Finding>, entries: seq<Entry>)
    requires Selects(review, advice, existing, candidates, findings, entries)
    ensures F.Support(existing, {}, None) <= F.Support(TableAfter(advice, existing, entries), {}, None)
  {
    var selected, table := FindingsOf(entries), TableAfter(advice, existing, entries);
    S.SupportIsConserved(review, existing, findings);
    S.SelectionRemovesNoMore(review, existing, findings, selected);
    F.SupportShrinks(existing, S.Removed(selected), S.Removed(findings), None);
    forall fk | fk in F.Support(existing, {}, None) ensures fk in F.Support(table, {}, None) {
      S.InSupport(existing, S.Removed(selected), None, fk);
      var index :| index in existing && F.Live(index, S.Removed(selected)) && fk in F.ForeignKeys(index);
      RebuildsImprove(review, advice, existing, candidates, findings, index, entries);
      StillSupports(advice, existing, entries, index, fk);
    }
  }

  lemma StillSupports(advice: R.Context, existing: seq<Index>, entries: seq<Entry>, index: Index, fk: int)
    requires index in existing && F.Live(index, S.Removed(FindingsOf(entries))) && fk in F.ForeignKeys(index)
    requires Improves(DefinitionAfter(advice, index, entries), index)
    ensures fk in F.Support(TableAfter(advice, existing, entries), {}, None)
  {
    S.InSupport(TableAfter(advice, existing, entries), {}, None, fk);
    assert DefinitionAfter(advice, index, entries) in TableAfter(advice, existing, entries);
  }

  // ---------------------------------------------------------------- a contested index

  /** A narrow index with one included column, and a wide one that its key leads. */
  function Narrow(a: Column, x: Column): Index { B.Plain(['i', 'z'], a).(includes := [x]) }

  function Wide(a: Column, b: Column): Index {
    R.NewIndex(C.Draft([Key(a, Ascending), Key(b, Ascending)], [], [], 0.0, false)).(name := ['i', 's'])
  }

  lemma WideNames(a: Column, b: Column)
    ensures Names(Wide(a, b).keys) == [a, b] && NameSet(Wide(a, b).keys) == {a, b}
  {
    assert Names(Wide(a, b).keys) == [a, b];
  }

  lemma PairIsRowstore(a: Column, b: Column, x: Column)
    ensures R.Rowstore([Narrow(a, x), Wide(a, b)]) == [Narrow(a, x), Wide(a, b)]
    ensures ClusteringKeys([Narrow(a, x), Wide(a, b)]) == []
  {
    var pair := [Narrow(a, x), Wide(a, b)];
    assert pair[1..] == [Wide(a, b)] && [Wide(a, b)][1..] == [];
    assert R.Rowstore([Wide(a, b)]) == [Wide(a, b)] && ClusteringKeys([Wide(a, b)]) == [];
  }

  lemma PairIsNonclustered(a: Column, b: Column, x: Column)
    ensures F.Nonclustered([Narrow(a, x), Wide(a, b)]) == [Narrow(a, x), Wide(a, b)]
  {
    assert [Narrow(a, x), Wide(a, b)][..1] == [Narrow(a, x)] && [Narrow(a, x)][..0] == [];
    assert F.Nonclustered([Narrow(a, x)]) == [Narrow(a, x)];
  }

  // The review of the two.

  /** Whatever the review looks up: the wide index may be rebuilt, and takes one more column. */
  predicate Permits(review: F.Context, a: Column, b: Column, x: Column) {
    && review.clustering == [] && review.maxIncludes >= 1
    && review.canRender(Wide(a, b)) && review.canRender(F.Widened(Wide(a, b), [x]))
  }

  lemma {:induction false} NoTwins(review: F.Context, ledger: F.Ledger, indexes: seq<Index>,
                                   signatures: seq<F.Signature>)
    requires forall i :: 0 <= i < |signatures| ==> |F.WithSignature(indexes, signatures[i])| < 2
    ensures F.DuplicatePass(review, ledger, indexes, signatures) == ledger
  {
    if signatures != [] {
      NoTwins(review, ledger, indexes, signatures[..|signatures| - 1]);
    }
  }

  lemma OneOfEach(a: Column, b: Column, x: Column, s: F.Signature)
    ensures |F.WithSignature([Narrow(a, x), Wide(a, b)], s)| < 2
  {
    var pair := [Narrow(a, x), Wide(a, b)];
    assert pair[..1] == [Narrow(a, x)] && [Narrow(a, x)][..0] == [];
    assert |Narrow(a, x).keys| != |Wide(a, b).keys|;
    assert |F.WithSignature([Narrow(a, x)], s)| <= 1;
  }

  lemma NarrowIsConsolidated(review: F.Context, a: Column, b: Column, x: Column)
    requires Permits(review, a, b, x) && x != a && x != b
    ensures var narrow, wide := Narrow(a, x), Wide(a, b);
            F.Consolidate(review, F.EMPTY, narrow, wide)
            == F.Ledger({narrow.name}, {narrow.name}, {wide.name}, {wide.name}, [F.Consolidated(narrow, wide, [x])])
  {
    var narrow, wide := Narrow(a, x), Wide(a, b);
    WideNames(a, b);
    B.OneKeyNames(a);
    var columns := narrow.includes + Names(narrow.keys);
    assert columns == [x, a] && columns[1..] == [a] && [a][1..] == [];
    assert Carried(wide, []) == {a, b};
    assert F.Missing([a], {a, b} + {x}) == [];
    assert F.Missing(columns, {a, b}) == [x];
    assert wide.includes + [x] == [x];
  }

  lemma OnlyExtension(a: Column, b: Column, x: Column)
    ensures F.Extensions(Narrow(a, x), [Narrow(a, x), Wide(a, b)], {}) == [Wide(a, b)]
  {
    var pair := [Narrow(a, x), Wide(a, b)];
    assert pair[..1] == [Narrow(a, x)] && [Narrow(a, x)][..0] == [];
    assert F.Extends(Narrow(a, x), Wide(a, b), {});
    assert F.Extensions(Narrow(a, x), [Narrow(a, x)], {}) == [];
  }

  lemma PrefixesOfPair(review: F.Context, a: Column, b: Column, x: Column)
    requires Permits(review, a, b, x) && x != a && x != b
    ensures var pair := [Narrow(a, x), Wide(a, b)];
            F.PrefixPass(review, F.EMPTY, pair, pair) == F.Consolidate(review, F.EMPTY, Narrow(a, x), Wide(a, b))
  {
    var pair := [Narrow(a, x), Wide(a, b)];
    assert pair[..1] == [Narrow(a, x)] && [Narrow(a, x)][..0] == [];
    OnlyExtension(a, b, x);
    NarrowIsConsolidated(review, a, b, x);
    var once := F.Consolidate(review, F.EMPTY, Narrow(a, x), Wide(a, b));
    assert F.ReviewNarrow(review, F.EMPTY, Narrow(a, x), pair) == once;
    assert F.PrefixPass(review, F.EMPTY, [Narrow(a, x)], pair) == once;
    assert F.ReviewNarrow(review, once, Wide(a, b), pair) == once;
  }

  lemma UnusedOfPair(review: F.Context, ledger: F.Ledger, first: Index, second: Index)
    requires first.name in ledger.consumed && second.name in ledger.survivors
    ensures F.UnusedPass(review, ledger, [first, second], [first, second]) == ledger
  {
    assert [first, second][..1] == [first] && [first][..0] == [];
    assert F.UnusedPass(review, ledger, [first], [first, second]) == ledger;
  }

  lemma ReviewOfPair(review: F.Context, a: Column, b: Column, x: Column)
    requires Permits(review, a, b, x) && x != a && x != b
    ensures F.Reviewing(review, [Narrow(a, x), Wide(a, b)]).findings == [F.Consolidated(Narrow(a, x), Wide(a, b), [x])]
  {
    var pair := [Narrow(a, x), Wide(a, b)];
    PairIsNonclustered(a, b, x);
    forall i | 0 <= i < |F.Signatures(pair)| ensures |F.WithSignature(pair, F.Signatures(pair)[i])| < 2 {
      OneOfEach(a, b, x, F.Signatures(pair)[i]);
    }
    NoTwins(review, F.EMPTY, pair, F.Signatures(pair));
    PrefixesOfPair(review, a, b, x);
    NarrowIsConsolidated(review, a, b, x);
    UnusedOfPair(review, F.Consolidate(review, F.EMPTY, Narrow(a, x), Wide(a, b)), Narrow(a, x), Wide(a, b));
  }

  // The advice for the two.

  function Wanted(a: Column, b: Column, y: Column): C.Draft { O.TwoKeys(a, b, [y]) }

  lemma WantedExtends(advice: R.Context, a: Column, b: Column, x: Column, y: Column)
    requires advice.rowstore == [Narrow(a, x), Wide(a, b)] && advice.clustering == [] && y != a && y != b
    ensures R.SpotOf(advice, [], Wanted(a, b, y)) == R.Grouping(R.Extend, Wide(a, b))
  {
    var draft, narrow, wide := Wanted(a, b, y), Narrow(a, x), Wide(a, b);
    WideNames(a, b);
    assert |narrow.keys| < |draft.keys| && draft.keys == wide.keys;
    assert y in ColumnSet(draft.includes) && y !in Carried(wide, []);
    assert !R.CoveredByExisting(advice, draft);
    assert advice.rowstore[1..] == [wide];
    assert R.CanExtend(wide, draft.keys) && !R.CanExtend(narrow, draft.keys);
    assert R.FirstExtendable([wide], draft.keys) == Some(wide);
  }

  lemma WantedIsPlaced(advice: R.Context, a: Column, b: Column, x: Column, y: Column)
    requires advice.rowstore == [Narrow(a, x), Wide(a, b)] && advice.clustering == [] && y != a && y != b
    requires C.KeyWidth(Wide(a, b).keys, advice.settings.catalog) <= C.MAX_KEY_BYTES
    ensures R.FittedFor(advice, Wanted(a, b, y)) == Wanted(a, b, y)
    ensures R.PlaceAll(advice, [Wanted(a, b, y)])
            == R.Book([], [], [R.Group(R.Extend, Wide(a, b), Wanted(a, b, y))], [])
  {
    var draft := Wanted(a, b, y);
    O.TwoKeysFit(advice, draft);
    assert [] + [draft] == [draft];
    B.PlacedLast(advice, [], draft);
    WantedExtends(advice, a, b, x, y);
    assert R.GroupOn([], R.Extend, Wide(a, b), draft) == [R.Group(R.Extend, Wide(a, b), draft)];
  }

  lemma OneChange(advice: R.Context, group: R.Group)
    requires R.Accepted(advice, group)
    ensures R.Changes(advice, [group]) == [group] && R.Fallbacks(advice, [group]) == []
  {
    assert [group][..0] == [];
  }

  lemma AdviceForPair(advice: R.Context, a: Column, b: Column, x: Column, y: Column)
    requires advice.rowstore == [Narrow(a, x), Wide(a, b)] && advice.clustering == []
    requires a != b && y != a && y != b && advice.settings.maxIncludes >= 1
    requires C.KeyWidth(Wide(a, b).keys, advice.settings.catalog) <= C.MAX_KEY_BYTES
    ensures var book, group := R.PlaceAll(advice, [Wanted(a, b, y)]), R.Group(R.Extend, Wide(a, b), Wanted(a, b, y));
            && R.Changes(advice, book.groups) == [group] && R.Creations(advice, book) == []
            && R.Redefined(advice, group) == Wide(a, b).(includes := [y])
  {
    var group := R.Group(R.Extend, Wide(a, b), Wanted(a, b, y));
    WantedIsPlaced(advice, a, b, x, y);
    O.TwoKeyNames(a, b, [y]);
    B.PlainRedefinition(advice, group);
    OneChange(advice, group);
  }

  // Both together.

  function Pair(advice: R.Context, a: Column, b: Column, x: Column, y: Column): (Entry, Entry) {
    (Changed(R.Group(R.Extend, Wide(a, b), Wanted(a, b, y))), Found(F.Consolidated(Narrow(a, x), Wide(a, b), [x])))
  }

  lemma PairLeaves(advice: R.Context, a: Column, b: Column, x: Column, y: Column)
    requires R.Redefined(advice, R.Group(R.Extend, Wide(a, b), Wanted(a, b, y))) == Wide(a, b).(includes := [y])
    ensures var (changed, found) := Pair(advice, a, b, x, y);
            && TableAfter(advice, [Narrow(a, x), Wide(a, b)], [changed, found]) == [Wide(a, b).(includes := [x])]
            && TableAfter(advice, [Narrow(a, x), Wide(a, b)], [found, changed]) == [Wide(a, b).(includes := [y])]
  {
    var (changed, found) := Pair(advice, a, b, x, y);
    var inOrder, reversed, existing := [changed, found], [found, changed], [Narrow(a, x), Wide(a, b)];
    PairParts(advice, a, b, x, y);
    assert Wide(a, b).includes + [x] == [x];
    assert DefinitionAfter(advice, Wide(a, b), inOrder) == Wide(a, b).(includes := [x]);
    assert DefinitionAfter(advice, Wide(a, b), reversed) == Wide(a, b).(includes := [y]);
    OneKept(advice, a, b, x, inOrder);
    OneKept(advice, a, b, x, reversed);
  }

  lemma PairParts(advice: R.Context, a: Column, b: Column, x: Column, y: Column)
    ensures var (changed, found) := Pair(advice, a, b, x, y);
            && FindingsOf([changed, found]) == FindingsOf([found, changed]) == [found.finding]
            && ChangesOf([changed, found]) == ChangesOf([found, changed]) == [changed.group]
            && CreatedOf([changed, found]) == CreatedOf([found, changed]) == []
  {
    var (changed, found) := Pair(advice, a, b, x, y);
    assert [changed, found][..1] == [changed] && [found, changed][..1] == [found];
    assert [changed][..0] == [] && [found][..0] == [];
    assert FindingsOf([changed]) == [] && FindingsOf([found]) == [found.finding];
    assert ChangesOf([changed]) == [changed.group] && ChangesOf([found]) == [];
    assert CreatedOf([changed]) == [] && CreatedOf([found]) == [];
  }

  lemma OneKept(advice: R.Context, a: Column, b: Column, x: Column, entries: seq<Entry>)
    requires FindingsOf(entries) == [F.Consolidated(Narrow(a, x), Wide(a, b), [x])] && CreatedOf(entries) == []
    ensures TableAfter(advice, [Narrow(a, x), Wide(a, b)], entries) == [DefinitionAfter(advice, Wide(a, b), entries)]
  {
    var pair := [Narrow(a, x), Wide(a, b)];
    var findings := FindingsOf(entries);
    assert findings[..0] == [];
    assert S.Removed(findings) == {Narrow(a, x).name};
    assert pair[1..] == [Wide(a, b)] && [Wide(a, b)][1..] == [];
    assert Kept(advice, [Wide(a, b)], entries) == [DefinitionAfter(advice, Wide(a, b), entries)];
  }

  lemma OtherIncludesMiss(a: Column, b: Column, x: Column, y: Column)
    requires x != a && x != b && y != a && y != b && x != y
    ensures !CoveredIn([], [Wide(a, b).(includes := [x])], Wanted(a, b, y).keys, [y])
    ensures !CoveredIn([], [Wide(a, b).(includes := [y])], Narrow(a, x).keys, [x])
  {
    WideNames(a, b);
    assert y in ColumnSet([y]) && x in ColumnSet([x]);
    assert Carried(Wide(a, b).(includes := [x]), []) == {a, b, x};
    assert Carried(Wide(a, b).(includes := [y]), []) == {a, b, y};
  }

  lemma PairIsOneTable(review: F.Context, settings: C.Settings, a: Column, b: Column, x: Column)
    requires review.clustering == []
    ensures var existing := [Narrow(a, x), Wide(a, b)];
            var advice := R.ContextOf(settings, existing, {});
            && advice == R.Context(settings, existing, [], {}) && SameTable(review, advice, existing)
  {
    PairIsRowstore(a, b, x);
    assert Narrow(a, x).name[1] != Wide(a, b).name[1];
  }

  lemma PairLosesOne(advice: R.Context, a: Column, b: Column, x: Column, y: Column)
    requires advice.rowstore == [Narrow(a, x), Wide(a, b)] && advice.clustering == []
    requires a != b && x != a && x != b && y != a && y != b && x != y && advice.settings.maxIncludes >= 1
    requires C.KeyWidth(Wide(a, b).keys, advice.settings.catalog) <= C.MAX_KEY_BYTES
    ensures var (changed, found) := Pair(advice, a, b, x, y);
            && !CoveredIn([], TableAfter(advice, advice.rowstore, [changed, found]), Wanted(a, b, y).keys, [y])
            && !CoveredIn([], TableAfter(advice, advice.rowstore, [found, changed]), Narrow(a, x).keys, [x])
  {
    AdviceForPair(advice, a, b, x, y);
    PairLeaves(advice, a, b, x, y);
    OtherIncludesMiss(a, b, x, y);
  }

  /** The advice extends an index into which the review consolidates another one. In the order of the
      report the candidate is lost; in the other order what the removed index covered is lost. */
  lemma ContestedIndexLosesOne(review: F.Context, settings: C.Settings)
      returns (advice: R.Context, existing: seq<Index>, wanted: C.Draft, changed: Entry, found: Entry)
    requires Permits(review, ['a'], ['b'], ['x']) && settings.maxIncludes >= 1
    requires C.KeyWidth(Wide(['a'], ['b']).keys, settings.catalog) <= C.MAX_KEY_BYTES
    ensures advice == R.ContextOf(settings, existing, {}) && SameTable(review, advice, existing)
    ensures R.FittedFor(advice, wanted) == wanted && !R.Weak(wanted)
    ensures changed.Changed? && R.Changes(advice, R.PlaceAll(advice, [wanted]).groups) == [changed.group]
    ensures R.Creations(advice, R.PlaceAll(advice, [wanted])) == []
    ensures found.Found? && F.Reviewing(review, existing).findings == [found.finding] && found.finding.Consolidated?
    ensures !CoveredIn([], TableAfter(advice, existing, [changed, found]), wanted.keys, wanted.includes)
    ensures var gone := found.finding.redundant;
            gone in existing && !CoveredIn([], TableAfter(advice, existing, [found, changed]), gone.keys, gone.includes)
  {
    var a, b, x, y := ['a'], ['b'], ['x'], ['y'];
    existing, wanted := [Narrow(a, x), Wide(a, b)], Wanted(a, b, y);
    advice := R.ContextOf(settings, existing, {});
    changed, found := Pair(advice, a, b, x, y).0, Pair(advice, a, b, x, y).1;
    PairIsOneTable(review, settings, a, b, x);
    ReviewOfPair(review, a, b, x);
    WantedIsPlaced(advice, a, b, x, y);
    AdviceForPair(advice, a, b, x, y);
    PairLosesOne(advice, a, b, x, y);
  }
}
