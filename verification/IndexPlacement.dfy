/** Where each candidate goes, spelled out in the fields of the catalogued indexes: what is skipped,
    what an index provides already, which index may be extended or widened, and what becomes a new index. */
module IndexPlacement {
  import opened Wrappers
  import opened IndexModel
  import opened IndexCandidates
  import opened IndexReconcile
  import B = IndexBounds

  /** The first enabled clustered index. */
  ghost predicate IsClustering(existing: seq<Index>, p: nat) {
    && p < |existing| && existing[p].typeCode == 1 && !existing[p].isDisabled
    && forall q :: 0 <= q < p ==> existing[q].typeCode != 1 || existing[q].isDisabled
  }

  /** The column is a key of the clustered index, which every nonclustered row carries. */
  ghost predicate InClustering(existing: seq<Index>, column: Column) {
    exists p: nat :: IsClustering(existing, p) && NamesColumn(existing[p].keys, column)
  }

  /** An enabled, unfiltered rowstore index whose keys begin with the requested keys in the requested
      directions, and whose rows carry the other columns. */
  ghost predicate Provides(existing: seq<Index>, index: Index, draft: Draft) {
    && !index.isDisabled && (index.typeCode == 1 || index.typeCode == 2) && index.filter == ""
    && Begins(index.keys, draft.keys)
    && (index.typeCode == 1 || forall c :: c in draft.includes ==>
          NamesColumn(index.keys, c) || c in index.includes || InClustering(existing, c))
  }

  /** Enabled, nonclustered, unfiltered, and neither a primary key nor a unique constraint. */
  ghost predicate MayChange(index: Index) {
    !index.isDisabled && index.typeCode == 2 && index.filter == "" && !index.isPrimaryKey && !index.isUniqueConstraint
  }

  /** It may take more included columns for these keys. */
  ghost predicate MayExtend(index: Index, keys: seq<Key>) { MayChange(index) && keys != [] && Begins(index.keys, keys) }

  /** It may get the longer keys; the keys of a unique index say what is unique, and stay. */
  ghost predicate MayWiden(index: Index, keys: seq<Key>) {
    MayChange(index) && !index.isUnique && index.keys != [] && |index.keys| < |keys| && Begins(keys, index.keys)
  }

  ghost predicate FirstToExtend(existing: seq<Index>, p: nat, keys: seq<Key>) {
    p < |existing| && MayExtend(existing[p], keys) && forall q :: 0 <= q < p ==> !MayExtend(existing[q], keys)
  }

  ghost predicate FirstToWiden(existing: seq<Index>, p: nat, keys: seq<Key>) {
    p < |existing| && MayWiden(existing[p], keys) && forall q :: 0 <= q < p ==> !MayWiden(existing[q], keys)
  }

  ghost predicate Unprovided(existing: seq<Index>, draft: Draft) {
    forall index :: index in existing ==> !Provides(existing, index, draft)
  }

  ghost predicate NoneToExtend(existing: seq<Index>, keys: seq<Key>) {
    forall index :: index in existing ==> !MayExtend(index, keys)
  }

  ghost predicate NoneToWiden(existing: seq<Index>, keys: seq<Key>) {
    forall index :: index in existing ==> !MayWiden(index, keys)
  }

  /** Selective enough, or wanted by two accesses. */
  ghost predicate WorthAdvice(draft: Draft) { !draft.lowSelectivity || |draft.supports| >= 2 }

  // ---------------------------------------------------------------- merging

  /** One begins with the other, in the same directions. */
  ghost predicate Comparable(keys: seq<Key>, others: seq<Key>) {
    keys != [] && others != [] && (Begins(keys, others) || Begins(others, keys))
  }

  ghost predicate FirstComparable(merged: seq<Draft>, p: nat, keys: seq<Key>) {
    p < |merged| && Comparable(merged[p].keys, keys) && forall q :: 0 <= q < p ==> !Comparable(merged[q].keys, keys)
  }

  /** The longer keys, the columns of both that are no keys, and what both stand for. */
  ghost predicate IsMerger(merger: Draft, target: Draft, candidate: Draft) {
    && merger.keys == (if |candidate.keys| > |target.keys| then candidate.keys else target.keys)
    && (forall c :: c in merger.includes <==>
          (c in target.includes || c in candidate.includes) && !NamesColumn(merger.keys, c))
    && merger.supports == target.supports + candidate.supports
    && merger.savings == target.savings + candidate.savings
    && (merger.lowSelectivity <==> target.lowSelectivity && candidate.lowSelectivity)
  }

  ghost predicate MayCarry(settings: Settings, draft: Draft) {
    B.WithinBound(settings, |draft.includes|, Width(draft.includes, settings.catalog))
  }

  lemma ComparableIsCompatible(keys: seq<Key>, others: seq<Key>)
    ensures Comparable(keys, others) <==> Compatible(others, keys)
  {
    BeginsIsPrefix(keys, others);
    BeginsIsPrefix(others, keys);
  }

  lemma {:induction false} FirstCompatibleIsFirst(merged: seq<Draft>, keys: seq<Key>)
    ensures var p := FirstCompatible(merged, keys);
            && (p < |merged| ==> FirstComparable(merged, p, keys))
            && (p == |merged| ==> forall i :: 0 <= i < |merged| ==> !Comparable(merged[i].keys, keys))
  {
    if merged != [] {
      ComparableIsCompatible(merged[0].keys, keys);
      FirstCompatibleIsFirst(merged[1..], keys);
      assert forall i :: 0 < i < |merged| ==> merged[i] == merged[1..][i - 1];
    }
  }

  lemma AbsorbIsMerger(target: Draft, candidate: Draft)
    ensures IsMerger(Absorb(target, candidate), target, candidate)
  {
    var merger := Absorb(target, candidate);
    AppendNewHolds(target.includes, candidate.includes);
    forall c ensures c in merger.includes <==>
                     (c in target.includes || c in candidate.includes) && !NamesColumn(merger.keys, c) {
      NamesColumnIsInNames(merger.keys, c);
      assert c in ColumnSet(AppendNew(target.includes, candidate.includes)) <==>
             c in ColumnSet(target.includes) + ColumnSet(candidate.includes);
    }
  }

  /** A candidate is merged into the first draft with comparable keys exactly when the result is within
      the bound on included columns; else it stays by itself, behind the others. */
  lemma MergingFollowsTheRule(settings: Settings, candidates: seq<Draft>, n: nat) returns (p: nat)
    requires n < |candidates|
    ensures var before, after := MergeAll(settings, candidates[..n]), MergeAll(settings, candidates[..n + 1]);
            if p < |before| then
              && FirstComparable(before, p, candidates[n].keys)
              && var merger := Absorb(before[p], candidates[n]);
                 && IsMerger(merger, before[p], candidates[n])
                 && after == if MayCarry(settings, merger) then before[p := merger] else before + [candidates[n]]
            else
              && (forall i :: 0 <= i < |before| ==> !Comparable(before[i].keys, candidates[n].keys))
              && after == before + [candidates[n]]
  {
    var before := MergeAll(settings, candidates[..n]);
    p := FirstCompatible(before, candidates[n].keys);
    FirstCompatibleIsFirst(before, candidates[n].keys);
    assert candidates[..n + 1][..n] == candidates[..n];
    assert MergeAll(settings, candidates[..n + 1]) == MergeOne(settings, before, candidates[n]);
    if p < |before| {
      AbsorbIsMerger(before[p], candidates[n]);
    }
  }

  // ---------------------------------------------------------------- the searches

  lemma {:induction false} ClusteringIsFirst(existing: seq<Index>)
    ensures ClusteringKeys(existing) == [] || exists p: nat :: IsClustering(existing, p)
    ensures forall p: nat :: IsClustering(existing, p) ==> ClusteringKeys(existing) == Names(existing[p].keys)
  {
    if existing != [] {
      ClusteringIsFirst(existing[1..]);
      if existing[0].typeCode == 1 && !existing[0].isDisabled {
        assert IsClustering(existing, 0);
      } else {
        forall p: nat | IsClustering(existing[1..], p) ensures IsClustering(existing, p + 1) {
          assert existing[p + 1] == existing[1..][p];
          assert forall q :: 0 < q <= p ==> existing[q] == existing[1..][q - 1];
        }
        forall p: nat | IsClustering(existing, p) ensures p > 0 && IsClustering(existing[1..], p - 1) {
        }
      }
    }
  }

  lemma InClusteringIsNamed(existing: seq<Index>, column: Column)
    ensures InClustering(existing, column) <==> column in ColumnSet(ClusteringKeys(existing))
  {
    ClusteringIsFirst(existing);
    if p: nat :| IsClustering(existing, p) {
      NamesColumnIsInNames(existing[p].keys, column);
      if column in ColumnSet(ClusteringKeys(existing)) {
        assert IsClustering(existing, p) && NamesColumn(existing[p].keys, column);
      }
      if q: nat :| IsClustering(existing, q) && NamesColumn(existing[q].keys, column) {
        NamesColumnIsInNames(existing[q].keys, column);
      }
    }
  }

  lemma ProvidesIsCovers(settings: Settings, existing: seq<Index>, lowColumns: set<Column>, index: Index, draft: Draft)
    requires index in existing
    ensures Provides(existing, index, draft) <==>
            index in Rowstore(existing) && Covers(index, draft.keys, draft.includes, ClusteringKeys(existing))
  {
    BeginsIsPrefix(index.keys, draft.keys);
    forall c ensures (NamesColumn(index.keys, c) || c in index.includes || InClustering(existing, c))
                     <==> c in Carried(index, ClusteringKeys(existing)) {
      NamesColumnIsInNames(index.keys, c);
      InClusteringIsNamed(existing, c);
    }
    if index.typeCode == 2 && Provides(existing, index, draft) {
      forall c | c in ColumnSet(draft.includes) ensures c in Carried(index, ClusteringKeys(existing)) {
      }
    }
    if index.typeCode == 2 && Covers(index, draft.keys, draft.includes, ClusteringKeys(existing)) {
      forall c | c in draft.includes ensures c in Carried(index, ClusteringKeys(existing)) {
        assert c in ColumnSet(draft.includes);
      }
    }
  }

  lemma UnprovidedIsUncovered(settings: Settings, existing: seq<Index>, lowColumns: set<Column>, draft: Draft)
    ensures Unprovided(existing, draft) <==> !CoveredByExisting(ContextOf(settings, existing, lowColumns), draft)
  {
    forall index | index in existing
      ensures Provides(existing, index, draft) <==>
              index in Rowstore(existing) && Covers(index, draft.keys, draft.includes, ClusteringKeys(existing)) {
      ProvidesIsCovers(settings, existing, lowColumns, index, draft);
    }
  }

  lemma {:induction false} ExtendSearch(existing: seq<Index>, keys: seq<Key>)
    ensures FirstExtendable(Rowstore(existing), keys).None? <==> NoneToExtend(existing, keys)
    ensures forall p: nat :: FirstToExtend(existing, p, keys) ==>
              FirstExtendable(Rowstore(existing), keys) == Some(existing[p])
    ensures FirstExtendable(Rowstore(existing), keys).Some? ==> exists p: nat :: FirstToExtend(existing, p, keys)
  {
    if existing != [] {
      var rest := existing[1..];
      ExtendSearch(rest, keys);
      BeginsIsPrefix(existing[0].keys, keys);
      assert existing == [existing[0]] + rest;
      if MayExtend(existing[0], keys) {
        assert FirstToExtend(existing, 0, keys);
        assert FirstExtendable(Rowstore(existing), keys) == Some(existing[0]);
      } else {
        SameExtend(existing, keys);
        forall p: nat | FirstToExtend(existing, p, keys) ensures p > 0 && FirstToExtend(rest, p - 1, keys) {
        }
        forall p: nat | FirstToExtend(rest, p, keys) ensures FirstToExtend(existing, p + 1, keys) {
          assert forall q :: 0 < q <= p ==> existing[q] == rest[q - 1];
        }
      }
    }
  }

  lemma SameExtend(existing: seq<Index>, keys: seq<Key>)
    requires existing != [] && !MayExtend(existing[0], keys)
    ensures FirstExtendable(Rowstore(existing), keys) == FirstExtendable(Rowstore(existing[1..]), keys)
  {
    BeginsIsPrefix(existing[0].keys, keys);
    var rest := Rowstore(existing[1..]);
    if !existing[0].isDisabled && (existing[0].typeCode == 1 || existing[0].typeCode == 2) {
      assert Rowstore(existing) == [existing[0]] + rest && Rowstore(existing)[1..] == rest;
    } else {
      assert Rowstore(existing) == rest;
    }
  }

  lemma {:induction false} WidenSearch(existing: seq<Index>, keys: seq<Key>)
    ensures FirstWidenable(Rowstore(existing), keys).None? <==> NoneToWiden(existing, keys)
    ensures forall p: nat :: FirstToWiden(existing, p, keys) ==>
              FirstWidenable(Rowstore(existing), keys) == Some(existing[p])
    ensures FirstWidenable(Rowstore(existing), keys).Some? ==> exists p: nat :: FirstToWiden(existing, p, keys)
  {
    if existing != [] {
      var rest := existing[1..];
      WidenSearch(rest, keys);
      BeginsIsPrefix(keys, existing[0].keys);
      assert existing == [existing[0]] + rest;
      if MayWiden(existing[0], keys) {
        assert FirstToWiden(existing, 0, keys);
        assert FirstWidenable(Rowstore(existing), keys) == Some(existing[0]);
      } else {
        SameWiden(existing, keys);
        forall p: nat | FirstToWiden(existing, p, keys) ensures p > 0 && FirstToWiden(rest, p - 1, keys) {
        }
        forall p: nat | FirstToWiden(rest, p, keys) ensures FirstToWiden(existing, p + 1, keys) {
          assert forall q :: 0 < q <= p ==> existing[q] == rest[q - 1];
        }
      }
    }
  }

  lemma SameWiden(existing: seq<Index>, keys: seq<Key>)
    requires existing != [] && !MayWiden(existing[0], keys)
    ensures FirstWidenable(Rowstore(existing), keys) == FirstWidenable(Rowstore(existing[1..]), keys)
  {
    BeginsIsPrefix(keys, existing[0].keys);
    var rest := Rowstore(existing[1..]);
    if !existing[0].isDisabled && (existing[0].typeCode == 1 || existing[0].typeCode == 2) {
      assert Rowstore(existing) == [existing[0]] + rest && Rowstore(existing)[1..] == rest;
    } else {
      assert Rowstore(existing) == rest;
    }
  }

  // ---------------------------------------------------------------- the decision on one candidate

  /** The group that is being filled for this index and action, with keys that do not fit the others. */
  ghost predicate Incomparable(groups: seq<Group>, target: Index, keys: seq<Key>) {
    exists i :: 0 <= i < |groups| && IsIncomparable(groups[i], target, keys)
  }

  ghost predicate IsIncomparable(group: Group, target: Index, keys: seq<Key>) {
    group.action == Widen && group.target == target && !Begins(group.draft.keys, keys)
      && !Begins(keys, group.draft.keys)
  }

  /** The rule by which one fitted candidate is placed beside the groups that there are. */
  ghost predicate Rule(existing: seq<Index>, groups: seq<Group>, draft: Draft, spot: Spot) {
    match spot
    case Skipping => draft.lowSelectivity && |draft.supports| < 2
    case Covering => WorthAdvice(draft) && !Unprovided(existing, draft)
    case Grouping(Extend, target) =>
      && WorthAdvice(draft) && Unprovided(existing, draft)
      && exists p: nat :: FirstToExtend(existing, p, draft.keys) && existing[p] == target
    case Grouping(Widen, target) =>
      && WorthAdvice(draft) && Unprovided(existing, draft) && NoneToExtend(existing, draft.keys)
      && !Incomparable(groups, target, draft.keys)
      && exists p: nat :: FirstToWiden(existing, p, draft.keys) && existing[p] == target
    case Creating =>
      && WorthAdvice(draft) && Unprovided(existing, draft) && NoneToExtend(existing, draft.keys)
      && forall p: nat :: FirstToWiden(existing, p, draft.keys) ==> Incomparable(groups, existing[p], draft.keys)
  }

  lemma GroupIsFound(context: Context, groups: seq<Group>, target: Index, keys: seq<Key>)
    requires DistinctNames(context.rowstore) && target in context.rowstore && OnePerTarget(groups)
    requires forall group :: group in groups ==> GroupFits(context, group)
    requires |target.keys| < |keys| && target.keys != []
    ensures JoinsWiden(groups, target, keys) <==> !Incomparable(groups, target, keys)
  {
    var at := FindGroup(groups, Widen, target.name);
    if at < |groups| {
      var group := groups[at];
      assert group in groups;
      SameTarget(context, group.target, target);
      BeginsIsPrefix(group.draft.keys, keys);
      BeginsIsPrefix(keys, group.draft.keys);
      assert IsIncomparable(group, target, keys) <==> !Compatible(group.draft.keys, keys);
    }
    if i :| 0 <= i < |groups| && IsIncomparable(groups[i], target, keys) {
      assert i == at;
    }
  }

  lemma SpotIsByRule(settings: Settings, existing: seq<Index>, lowColumns: set<Column>, groups: seq<Group>,
                     draft: Draft)
    requires DistinctNames(existing) && OnePerTarget(groups)
    requires forall group :: group in groups ==> GroupFits(ContextOf(settings, existing, lowColumns), group)
    ensures Rule(existing, groups, draft, SpotOf(ContextOf(settings, existing, lowColumns), groups, draft))
  {
    var context := ContextOf(settings, existing, lowColumns);
    RowstoreStaysDistinct(existing);
    UnprovidedIsUncovered(settings, existing, lowColumns, draft);
    ExtendSearch(existing, draft.keys);
    WidenSearch(existing, draft.keys);
    var widen := FirstWidenable(context.rowstore, draft.keys);
    if widen.Some? {
      GroupIsFound(context, groups, widen.value, draft.keys);
    }
  }

  // ---------------------------------------------------------------- the whole advice

  /** Where a placed candidate is found. */
  ghost predicate Placed(book: Book, draft: Draft, spot: Spot) {
    match spot
    case Skipping => draft in book.skipped
    case Covering => draft in book.covered
    case Grouping(action, target) => InGroup(book.groups, action, target, draft)
    case Creating => draft in book.creates
  }

  ghost predicate InGroup(groups: seq<Group>, action: Action, target: Index, draft: Draft) {
    exists i :: 0 <= i < |groups| && Takes(groups[i], action, target, draft)
  }

  ghost predicate Takes(group: Group, action: Action, target: Index, draft: Draft) {
    group.action == action && group.target == target && Serves(group.draft, draft)
  }

  /** Later candidates take nothing back. */
  ghost predicate Grows(before: Book, after: Book) {
    && (forall draft :: draft in before.skipped ==> draft in after.skipped)
    && (forall draft :: draft in before.covered ==> draft in after.covered)
    && (forall draft :: draft in before.creates ==> draft in after.creates)
    && |before.groups| <= |after.groups|
    && forall i :: 0 <= i < |before.groups| ==> Follows(after.groups[i], before.groups[i])
  }

  lemma GrowsOn(a: Book, b: Book, c: Book)
    requires Grows(a, b) && Grows(b, c)
    ensures Grows(a, c)
  {
    forall i | 0 <= i < |a.groups| ensures Follows(c.groups[i], a.groups[i]) {
      assert Follows(b.groups[i], a.groups[i]) && Follows(c.groups[i], b.groups[i]);
      ServesIsTransitive(c.groups[i].draft, b.groups[i].draft, a.groups[i].draft);
    }
  }

  lemma PlacingGrows(context: Context, book: Book, draft: Draft)
    requires DistinctNames(context.rowstore) && BookFits(context, book) && KeysFit(context, draft.keys)
    ensures Grows(book, Place(context, book, draft))
    ensures Placed(Place(context, book, draft), draft, SpotOf(context, book.groups, draft))
  {
    var spot, after := SpotOf(context, book.groups, draft), Place(context, book, draft);
    if spot.Grouping? {
      forall group | group in book.groups && group.target.name == spot.target.name ensures group.target == spot.target {
        SameTarget(context, group.target, spot.target);
      }
      GroupOnKeeps(context, book.groups, spot.action, spot.target, draft);
      var at := FindGroup(book.groups, spot.action, spot.target.name);
      if at < |book.groups| {
        assert book.groups[at] in book.groups;
        JoinKeepsFit(context, book.groups[at], draft);
      }
      assert Takes(after.groups[at], spot.action, spot.target, draft);
    }
  }

  lemma LaterPlaced(before: Book, after: Book, draft: Draft, spot: Spot)
    requires Grows(before, after) && Placed(before, draft, spot)
    ensures Placed(after, draft, spot)
  {
    if spot.Grouping? {
      var i :| 0 <= i < |before.groups| && Takes(before.groups[i], spot.action, spot.target, draft);
      assert Follows(after.groups[i], before.groups[i]);
      ServesIsTransitive(after.groups[i].draft, before.groups[i].draft, draft);
      assert Takes(after.groups[i], spot.action, spot.target, draft);
    }
  }

  lemma {:induction false} BookGrows(context: Context, candidates: seq<Draft>, n: nat)
    requires DistinctNames(context.rowstore) && n <= |candidates|
    ensures Grows(PlaceAll(context, candidates[..n]), PlaceAll(context, candidates))
    decreases |candidates|
  {
    var book := PlaceAll(context, candidates);
    if n == |candidates| {
      assert candidates[..n] == candidates;
      forall i | 0 <= i < |book.groups| ensures Follows(book.groups[i], book.groups[i]) {
      }
    } else {
      var front, last := candidates[..|candidates| - 1], candidates[|candidates| - 1];
      assert front[..n] == candidates[..n];
      BookGrows(context, front, n);
      AllBooked(context, front);
      FittingKeepsColumns(last, context.settings.catalog, context.lowColumns);
      PlacingGrows(context, PlaceAll(context, front), FittedFor(context, last));
      GrowsOn(PlaceAll(context, candidates[..n]), PlaceAll(context, front), book);
    }
  }

  /** Every candidate is placed by the rule, given the groups of the candidates before it, and is
      found there in the end. */
  lemma CandidateIsPlacedByRule(settings: Settings, existing: seq<Index>, lowColumns: set<Column>,
                                candidates: seq<Draft>, n: nat)
    requires DistinctNames(existing) && n < |candidates|
    ensures var context := ContextOf(settings, existing, lowColumns);
            var groups, fitted := PlaceAll(context, candidates[..n]).groups, FittedFor(context, candidates[n]);
            var spot := SpotOf(context, groups, fitted);
            Rule(existing, groups, fitted, spot) && Placed(PlaceAll(context, candidates), fitted, spot)
  {
    var context := ContextOf(settings, existing, lowColumns);
    RowstoreStaysDistinct(existing);
    AllBooked(context, candidates[..n]);
    SpotIsByRule(settings, existing, lowColumns, PlaceAll(context, candidates[..n]).groups,
      FittedFor(context, candidates[n]));
    EndsPlaced(context, candidates, n);
  }

  lemma EndsPlaced(context: Context, candidates: seq<Draft>, n: nat)
    requires DistinctNames(context.rowstore) && n < |candidates|
    ensures var earlier, fitted := PlaceAll(context, candidates[..n]), FittedFor(context, candidates[n]);
            Placed(PlaceAll(context, candidates), fitted, SpotOf(context, earlier.groups, fitted))
  {
    var earlier, fitted := PlaceAll(context, candidates[..n]), FittedFor(context, candidates[n]);
    AllBooked(context, candidates[..n]);
    FittingKeepsColumns(candidates[n], context.settings.catalog, context.lowColumns);
    PlacingGrows(context, earlier, fitted);
    assert candidates[..n + 1][..n] == candidates[..n];
    BookGrows(context, candidates, n + 1);
    LaterPlaced(PlaceAll(context, candidates[..n + 1]), PlaceAll(context, candidates), fitted,
      SpotOf(context, earlier.groups, fitted));
  }

  // ---------------------------------------------------------------- what is advised

  /** Only plain indexes change: enabled, nonclustered, unfiltered, no constraint; what a unique index
      makes unique stays, and a change only ever adds columns that its candidates need. */
  lemma OnlyPlainIndexesChange(settings: Settings, existing: seq<Index>, lowColumns: set<Column>,
                               candidates: seq<Draft>, group: Group)
    requires DistinctNames(existing)
    requires var context := ContextOf(settings, existing, lowColumns);
             group in Changes(context, PlaceAll(context, candidates).groups)
    ensures var changed := Redefined(ContextOf(settings, existing, lowColumns), group);
            && group.target in existing && MayChange(group.target)
            && (group.target.isUnique ==> changed.keys == group.target.keys)
            && (if group.action == Extend then group.draft.keys != [] && Begins(group.target.keys, group.draft.keys)
                else changed.keys == group.draft.keys && MayWiden(group.target, changed.keys))
            && changed == group.target.(keys := changed.keys, includes := changed.includes)
            && (forall c :: c in changed.includes ==> c in group.target.includes || c in group.draft.includes)
            && (forall c :: c in changed.includes ==> !NamesColumn(changed.keys, c))
            && (forall c :: c in changed.includes && InClustering(existing, c) ==> c in group.target.includes)
            && B.WithinBound(settings, |changed.includes|, Width(changed.includes, settings.catalog))
  {
    var context := ContextOf(settings, existing, lowColumns);
    var book := PlaceAll(context, candidates);
    RowstoreStaysDistinct(existing);
    AllBooked(context, candidates);
    DecidedFromGroups(context, book.groups);
    ChangesAreAccepted(context, book.groups, group);
    BeginsIsPrefix(group.target.keys, group.draft.keys);
    BeginsIsPrefix(group.draft.keys, group.target.keys);
    RedefinedColumns(existing, context, group);
  }

  lemma {:induction false} ChangesAreAccepted(context: Context, groups: seq<Group>, group: Group)
    requires group in groups
    ensures group in Changes(context, groups)
            <==> B.WithinBound(context.settings, |Redefined(context, group).includes|,
                               Width(Redefined(context, group).includes, context.settings.catalog))
  {
    var front, last := groups[..|groups| - 1], groups[|groups| - 1];
    assert groups == front + [last];
    if group in front {
      ChangesAreAccepted(context, front, group);
    } else {
      DecidedFromGroups(context, front);
    }
  }

  lemma RedefinedColumns(existing: seq<Index>, context: Context, group: Group)
    requires context.clustering == ClusteringKeys(existing)
    ensures var changed := Redefined(context, group);
            forall c :: c in changed.includes ==>
              && (c in group.target.includes || c in group.draft.includes) && !NamesColumn(changed.keys, c)
              && (InClustering(existing, c) ==> c in group.target.includes)
  {
    var changed := Redefined(context, group);
    var names := NameSet(changed.keys);
    var kept, added := Without(group.target.includes, names),
      Without(group.draft.includes, names + ColumnSet(context.clustering));
    AppendNewHolds(kept, added);
    forall c | c in changed.includes
      ensures (c in group.target.includes || c in group.draft.includes) && !NamesColumn(changed.keys, c)
              && (InClustering(existing, c) ==> c in group.target.includes) {
      assert c in ColumnSet(AppendNew(kept, added));
      NamesColumnIsInNames(changed.keys, c);
      InClusteringIsNamed(existing, c);
    }
  }

  /** A new index is advised only where no index provides its columns, none may be extended for it, and
      none may be widened for it, unless the first of these is already being widened to keys that do not
      fit together with its own. */
  lemma NewIndexesFindNoTarget(settings: Settings, existing: seq<Index>, lowColumns: set<Column>,
                               candidates: seq<Draft>, draft: Draft)
    requires DistinctNames(existing)
    requires draft in PlaceAll(ContextOf(settings, existing, lowColumns), candidates).creates
    ensures WorthAdvice(draft) && Unprovided(existing, draft) && NoneToExtend(existing, draft.keys)
    ensures forall p: nat :: FirstToWiden(existing, p, draft.keys) ==>
              Incomparable(PlaceAll(ContextOf(settings, existing, lowColumns), candidates).groups, existing[p],
                draft.keys)
  {
    var context := ContextOf(settings, existing, lowColumns);
    var n := CreatedAt(context, candidates, draft);
    var earlier, book := PlaceAll(context, candidates[..n]), PlaceAll(context, candidates);
    CandidateIsPlacedByRule(settings, existing, lowColumns, candidates, n);
    RowstoreStaysDistinct(existing);
    BookGrows(context, candidates, n);
    forall p: nat | FirstToWiden(existing, p, draft.keys) ensures Incomparable(book.groups, existing[p], draft.keys) {
      StaysIncomparable(earlier, book, existing[p], draft.keys);
    }
  }

  lemma StaysIncomparable(before: Book, after: Book, target: Index, keys: seq<Key>)
    requires Grows(before, after) && Incomparable(before.groups, target, keys)
    ensures Incomparable(after.groups, target, keys)
  {
    var i :| 0 <= i < |before.groups| && IsIncomparable(before.groups[i], target, keys);
    assert Follows(after.groups[i], before.groups[i]);
    assert IsIncomparable(after.groups[i], target, keys);
  }

  /** The candidate that became this new index. */
  lemma {:induction false} CreatedAt(context: Context, candidates: seq<Draft>, draft: Draft) returns (n: nat)
    requires draft in PlaceAll(context, candidates).creates
    ensures n < |candidates| && FittedFor(context, candidates[n]) == draft
    ensures SpotOf(context, PlaceAll(context, candidates[..n]).groups, draft) == Creating
  {
    var front, last := candidates[..|candidates| - 1], candidates[|candidates| - 1];
    if draft in PlaceAll(context, front).creates {
      n := CreatedAt(context, front, draft);
      assert front[..n] == candidates[..n];
    } else {
      n := |candidates| - 1;
    }
  }
}
