/** Candidate indexes: merging by key prefix, fitting to the key-width limit, joining on a target. */
module IndexCandidates {
  import opened IndexModel

  const MAX_KEY_BYTES := 1700

  /** The value of a candidate: `supports` are the accesses it serves. */
  datatype Draft = Draft(keys: seq<Key>, includes: seq<Column>, supports: seq<int>, savings: real, lowSelectivity: bool)

  datatype Settings = Settings(maxIncludes: int, catalog: Catalog)

  /** `wider` does everything `draft` does: same leading keys, all its columns. */
  predicate Serves(wider: Draft, draft: Draft) {
    draft.keys <= wider.keys && ColumnSet(draft.includes) <= NameSet(wider.keys) + ColumnSet(wider.includes)
  }

  predicate Bounded(settings: Settings, includes: seq<Column>) {
    |includes| <= settings.maxIncludes && !TooWide(includes, settings.catalog)
  }

  predicate Distinct(columns: seq<Column>) { forall i, j :: 0 <= i < j < |columns| ==> columns[i] != columns[j] }

  /** No column is named twice, among the keys, among the included columns or in both. */
  predicate Tidy(draft: Draft) {
    NameSet(draft.keys) !! ColumnSet(draft.includes) && Distinct(Names(draft.keys)) && Distinct(draft.includes)
  }

  /** The columns of `more` that are not there yet are appended, each once. */
  function AppendNew(includes: seq<Column>, more: seq<Column>): seq<Column>
    decreases |more|
  {
    if more == [] then includes
    else AppendNew(if more[0] in includes then includes else includes + [more[0]], more[1..])
  }

  function Without(includes: seq<Column>, names: set<Column>): (kept: seq<Column>)
    ensures forall c :: c in kept <==> c in includes && c !in names
  {
    if includes == [] then []
    else Without(includes[..|includes| - 1], names)
         + var last := includes[|includes| - 1]; if last in names then [] else [last]
  }

  // ---------------------------------------------------------------- merging

  predicate Compatible(left: seq<Key>, right: seq<Key>) {
    if |left| <= |right| then left != [] && left <= right else right != [] && right <= left
  }

  function Longer(candidate: seq<Key>, target: seq<Key>): seq<Key> {
    if |candidate| > |target| then candidate else target
  }

  function Absorb(target: Draft, candidate: Draft): Draft {
    var keys := Longer(candidate.keys, target.keys);
    Draft(keys, Without(AppendNew(target.includes, candidate.includes), NameSet(keys)),
          target.supports + candidate.supports, target.savings + candidate.savings,
          target.lowSelectivity && candidate.lowSelectivity)
  }

  /** The position of the first draft whose keys are compatible, or the length of the list. */
  function FirstCompatible(merged: seq<Draft>, keys: seq<Key>): (at: nat)
    ensures at <= |merged| && (at < |merged| ==> Compatible(keys, merged[at].keys))
  {
    if merged == [] then 0
    else if Compatible(keys, merged[0].keys) then 0
    else 1 + FirstCompatible(merged[1..], keys)
  }

  function MergeOne(settings: Settings, merged: seq<Draft>, candidate: Draft): seq<Draft> {
    var at := FirstCompatible(merged, candidate.keys);
    if at == |merged| || !Bounded(settings, Absorb(merged[at], candidate).includes) then merged + [candidate]
    else merged[at := Absorb(merged[at], candidate)]
  }

  function MergeAll(settings: Settings, candidates: seq<Draft>): seq<Draft> {
    if candidates == [] then []
    else MergeOne(settings, MergeAll(settings, candidates[..|candidates| - 1]), candidates[|candidates| - 1])
  }

  /** Behind the last draft that saves at least as much. */
  function InsertPosition(sorted: seq<Draft>, savings: real): (p: nat)
    ensures p <= |sorted|
  {
    if sorted == [] then 0
    else if sorted[|sorted| - 1].savings >= savings then |sorted|
    else InsertPosition(sorted[..|sorted| - 1], savings)
  }

  /** Stable insertion by falling savings. */
  function Insert(sorted: seq<Draft>, candidate: Draft): seq<Draft> {
    var p := InsertPosition(sorted, candidate.savings);
    sorted[..p] + [candidate] + sorted[p..]
  }

  function Sorted(candidates: seq<Draft>): seq<Draft> {
    if candidates == [] then []
    else Insert(Sorted(candidates[..|candidates| - 1]), candidates[|candidates| - 1])
  }

  // ---------------------------------------------------------------- fitting the key width

  function KeyWidth(keys: seq<Key>, catalog: Catalog): nat { Width(Names(keys), catalog) }

  /** How many leading keys stay: keys are dropped from the end, never the first one. */
  function FittingKeys(keys: seq<Key>, catalog: Catalog): (n: nat)
    ensures n <= |keys|
  {
    if |keys| <= 1 || KeyWidth(keys, catalog) <= MAX_KEY_BYTES then |keys| else FittingKeys(keys[..|keys| - 1], catalog)
  }

  /** `lowColumns`: columns with a positive distinct estimate below the selectivity threshold. */
  function Fitted(draft: Draft, catalog: Catalog, lowColumns: set<Column>): Draft {
    var n := FittingKeys(draft.keys, catalog);
    var moved := Names(draft.keys[n..]);
    if moved == [] then draft
    else draft.(keys := draft.keys[..n],
                includes := moved + Without(draft.includes, ColumnSet(moved)),
                lowSelectivity := draft.lowSelectivity || NameSet(draft.keys[..n]) <= lowColumns)
  }

  // ---------------------------------------------------------------- joining on a target

  function Joined(merged: Draft, candidate: Draft): Draft {
    var keys := Longer(candidate.keys, merged.keys);
    var names := NameSet(keys);
    merged.(keys := keys,
            includes := Without(AppendNew(merged.includes, Without(candidate.includes, names)), names),
            supports := merged.supports + candidate.supports,
            savings := merged.savings + candidate.savings)
  }

  // ---------------------------------------------------------------- lemmas

  lemma {:induction false} AppendNewHolds(includes: seq<Column>, more: seq<Column>)
    ensures ColumnSet(AppendNew(includes, more)) == ColumnSet(includes) + ColumnSet(more)
    ensures includes <= AppendNew(includes, more)
    decreases |more|
  {
    if more != [] {
      var next := if more[0] in includes then includes else includes + [more[0]];
      AppendNewHolds(next, more[1..]);
      assert more == [more[0]] + more[1..];
      assert ColumnSet(next) == ColumnSet(includes) + {more[0]};
      assert ColumnSet(more) == {more[0]} + ColumnSet(more[1..]);
    }
  }

  lemma {:induction false} AppendNewDistinct(includes: seq<Column>, more: seq<Column>)
    requires Distinct(includes)
    ensures Distinct(AppendNew(includes, more))
    decreases |more|
  {
    if more != [] {
      AppendNewDistinct(if more[0] in includes then includes else includes + [more[0]], more[1..]);
    }
  }

  lemma {:induction false} WithoutDistinct(includes: seq<Column>, names: set<Column>)
    requires Distinct(includes)
    ensures Distinct(Without(includes, names))
  {
    if includes != [] {
      var front, last := includes[..|includes| - 1], includes[|includes| - 1];
      WithoutDistinct(front, names);
      assert last !in front;
      assert last !in Without(front, names);
    }
  }

  /** Absorbing and joining serve both sides when the keys are comparable. */
  lemma AbsorbServes(target: Draft, candidate: Draft)
    requires target.keys <= candidate.keys || candidate.keys <= target.keys
    ensures Serves(Absorb(target, candidate), target) && Serves(Absorb(target, candidate), candidate)
  {
    AppendNewHolds(target.includes, candidate.includes);
  }

  lemma JoinedServes(merged: Draft, candidate: Draft)
    requires merged.keys <= candidate.keys || candidate.keys <= merged.keys
    ensures Serves(Joined(merged, candidate), merged) && Serves(Joined(merged, candidate), candidate)
  {
    var names := NameSet(Longer(candidate.keys, merged.keys));
    var added := Without(candidate.includes, names);
    AppendNewHolds(merged.includes, added);
    forall c | c in ColumnSet(candidate.includes) ensures c in names + ColumnSet(Joined(merged, candidate).includes) {
      assert c in names || c in ColumnSet(added);
    }
  }

  lemma ServesIsTransitive(a: Draft, b: Draft, c: Draft)
    requires Serves(a, b) && Serves(b, c)
    ensures Serves(a, c)
  {
    assert forall k :: k in NameSet(b.keys) ==> k in NameSet(a.keys) by {
      forall i | 0 <= i < |b.keys| ensures b.keys[i].column in NameSet(a.keys) {
        assert Names(a.keys)[i] == b.keys[i].column;
      }
    }
  }

  // Conservation: nothing that supported a candidate gets lost or counted twice.

  /** How often an access supports one of the drafts. */
  function SupportCount(drafts: seq<Draft>, access: int): nat {
    if drafts == [] then 0
    else SupportCount(drafts[..|drafts| - 1], access) + multiset(drafts[|drafts| - 1].supports)[access]
  }

  function TotalSavings(drafts: seq<Draft>): real {
    if drafts == [] then 0.0 else TotalSavings(drafts[..|drafts| - 1]) + drafts[|drafts| - 1].savings
  }

  lemma {:induction false} ReplaceCounts(drafts: seq<Draft>, at: nat, draft: Draft, supports: seq<int>, savings: real,
                                         access: int)
    requires at < |drafts| && draft.supports == drafts[at].supports + supports
             && draft.savings == drafts[at].savings + savings
    ensures SupportCount(drafts[at := draft], access) == SupportCount(drafts, access) + multiset(supports)[access]
    ensures TotalSavings(drafts[at := draft]) == TotalSavings(drafts) + savings
  {
    var n := |drafts| - 1;
    if at == n {
      assert drafts[at := draft][..n] == drafts[..n];
    } else {
      ReplaceCounts(drafts[..n], at, draft, supports, savings, access);
      assert drafts[at := draft][..n] == drafts[..n][at := draft];
    }
  }

  lemma AppendCounts(drafts: seq<Draft>, draft: Draft, access: int)
    ensures SupportCount(drafts + [draft], access) == SupportCount(drafts, access) + multiset(draft.supports)[access]
    ensures TotalSavings(drafts + [draft]) == TotalSavings(drafts) + draft.savings
  {
    assert (drafts + [draft])[..|drafts|] == drafts;
  }

  lemma MergeOneCounts(settings: Settings, merged: seq<Draft>, candidate: Draft, access: int)
    ensures var after := MergeOne(settings, merged, candidate);
            && SupportCount(after, access) == SupportCount(merged, access) + multiset(candidate.supports)[access]
            && TotalSavings(after) == TotalSavings(merged) + candidate.savings
  {
    var at := FirstCompatible(merged, candidate.keys);
    if at < |merged| {
      ReplaceCounts(merged, at, Absorb(merged[at], candidate), candidate.supports, candidate.savings, access);
    } else {
      AppendCounts(merged, candidate, access);
    }
  }

  lemma {:induction false} MergeConserves(settings: Settings, candidates: seq<Draft>, access: int)
    ensures SupportCount(MergeAll(settings, candidates), access) == SupportCount(candidates, access)
    ensures TotalSavings(MergeAll(settings, candidates)) == TotalSavings(candidates)
  {
    if candidates != [] {
      MergeConserves(settings, candidates[..|candidates| - 1], access);
      MergeOneCounts(settings, MergeAll(settings, candidates[..|candidates| - 1]), candidates[|candidates| - 1],
        access);
    }
  }

  lemma {:induction false} ConcatCounts(left: seq<Draft>, right: seq<Draft>, access: int)
    ensures SupportCount(left + right, access) == SupportCount(left, access) + SupportCount(right, access)
    ensures TotalSavings(left + right) == TotalSavings(left) + TotalSavings(right)
  {
    if right == [] {
      assert left + right == left;
    } else {
      var n := |right| - 1;
      ConcatCounts(left, right[..n], access);
      assert (left + right)[..|left| + n] == left + right[..n];
    }
  }

  lemma InsertCounts(sorted: seq<Draft>, candidate: Draft, access: int)
    ensures SupportCount(Insert(sorted, candidate), access)
            == SupportCount(sorted, access) + multiset(candidate.supports)[access]
    ensures TotalSavings(Insert(sorted, candidate)) == TotalSavings(sorted) + candidate.savings
  {
    var p := InsertPosition(sorted, candidate.savings);
    ConcatCounts(sorted[..p] + [candidate], sorted[p..], access);
    AppendCounts(sorted[..p], candidate, access);
    ConcatCounts(sorted[..p], sorted[p..], access);
    assert sorted[..p] + sorted[p..] == sorted;
  }

  lemma {:induction false} SortingCounts(candidates: seq<Draft>, access: int)
    ensures SupportCount(Sorted(candidates), access) == SupportCount(candidates, access)
    ensures TotalSavings(Sorted(candidates)) == TotalSavings(candidates)
  {
    if candidates != [] {
      SortingCounts(candidates[..|candidates| - 1], access);
      InsertCounts(Sorted(candidates[..|candidates| - 1]), candidates[|candidates| - 1], access);
    }
  }

  /** What the advisor merges: the candidates in the order of falling savings. */
  function Merged(settings: Settings, candidates: seq<Draft>): seq<Draft> { MergeAll(settings, Sorted(candidates)) }

  /** Sorting and merging keep how often each access supports a candidate, and the sum of the savings. */
  lemma MergedConserves(settings: Settings, candidates: seq<Draft>, access: int)
    ensures SupportCount(Merged(settings, candidates), access) == SupportCount(candidates, access)
    ensures TotalSavings(Merged(settings, candidates)) == TotalSavings(candidates)
  {
    SortingCounts(candidates, access);
    MergeConserves(settings, Sorted(candidates), access);
  }

  predicate Falling(drafts: seq<Draft>) {
    forall i, j :: 0 <= i < j < |drafts| ==> drafts[i].savings >= drafts[j].savings
  }

  lemma InsertPermutes(sorted: seq<Draft>, candidate: Draft)
    ensures multiset(Insert(sorted, candidate)) == multiset(sorted) + multiset{candidate}
  {
    var p := InsertPosition(sorted, candidate.savings);
    assert sorted == sorted[..p] + sorted[p..];
  }

  lemma {:induction false} SortingPermutes(candidates: seq<Draft>)
    ensures multiset(Sorted(candidates)) == multiset(candidates)
  {
    if candidates != [] {
      var front, last := candidates[..|candidates| - 1], candidates[|candidates| - 1];
      SortingPermutes(front);
      InsertPermutes(Sorted(front), last);
      assert candidates == front + [last];
    }
  }

  lemma {:induction false} SortingSorts(candidates: seq<Draft>)
    ensures Falling(Sorted(candidates))
  {
    if candidates != [] {
      SortingSorts(candidates[..|candidates| - 1]);
      InsertSorts(Sorted(candidates[..|candidates| - 1]), candidates[|candidates| - 1]);
    }
  }

  lemma InsertSorts(sorted: seq<Draft>, candidate: Draft)
    requires Falling(sorted)
    ensures Falling(Insert(sorted, candidate))
  {
    InsertPositionSplits(sorted, candidate.savings);
  }

  lemma {:induction false} InsertPositionSplits(sorted: seq<Draft>, savings: real)
    requires Falling(sorted)
    ensures var p := InsertPosition(sorted, savings);
            forall i :: 0 <= i < |sorted| ==> (sorted[i].savings >= savings <==> i < p)
  {
    if sorted != [] && sorted[|sorted| - 1].savings < savings {
      InsertPositionSplits(sorted[..|sorted| - 1], savings);
    }
  }

  /** The drafts of these savings, in order. */
  function Saving(drafts: seq<Draft>, savings: real): seq<Draft> {
    if drafts == [] then []
    else Saving(drafts[..|drafts| - 1], savings)
         + var last := drafts[|drafts| - 1]; if last.savings == savings then [last] else []
  }

  lemma {:induction false} SavingSplits(left: seq<Draft>, right: seq<Draft>, savings: real)
    ensures Saving(left + right, savings) == Saving(left, savings) + Saving(right, savings)
  {
    if right == [] {
      assert left + right == left;
    } else {
      var n := |right| - 1;
      SavingSplits(left, right[..n], savings);
      assert (left + right)[..|left| + n] == left + right[..n];
    }
  }

  lemma {:induction false} SavesLess(drafts: seq<Draft>, savings: real)
    requires forall draft :: draft in drafts ==> draft.savings != savings
    ensures Saving(drafts, savings) == []
  {
    if drafts != [] {
      assert drafts[|drafts| - 1] in drafts;
      SavesLess(drafts[..|drafts| - 1], savings);
    }
  }

  lemma NoneBehind(sorted: seq<Draft>, savings: real)
    requires Falling(sorted)
    ensures Saving(sorted[InsertPosition(sorted, savings)..], savings) == []
  {
    var p := InsertPosition(sorted, savings);
    InsertPositionSplits(sorted, savings);
    forall draft | draft in sorted[p..] ensures draft.savings != savings {
      var i :| 0 <= i < |sorted| - p && sorted[p..][i] == draft;
      assert sorted[p + i] == draft;
    }
    SavesLess(sorted[p..], savings);
  }

  lemma SavingOne(draft: Draft, savings: real)
    ensures Saving([draft], savings) == if draft.savings == savings then [draft] else []
  {
    assert [draft][..0] == [];
  }

  lemma InsertIsStable(sorted: seq<Draft>, candidate: Draft, savings: real)
    requires Falling(sorted)
    ensures Saving(Insert(sorted, candidate), savings) == Saving(sorted, savings) + Saving([candidate], savings)
  {
    var p := InsertPosition(sorted, candidate.savings);
    var front, back := sorted[..p], sorted[p..];
    assert Saving(Insert(sorted, candidate), savings)
           == Saving(front, savings) + Saving([candidate], savings) + Saving(back, savings) by {
      SavingSplits(front + [candidate], back, savings);
      SavingSplits(front, [candidate], savings);
    }
    assert Saving(sorted, savings) == Saving(front, savings) + Saving(back, savings) by {
      SavingSplits(front, back, savings);
      assert sorted == front + back;
    }
    SavingOne(candidate, savings);
    NoneBehind(sorted, candidate.savings);
  }

  /** Sorting leaves candidates of equal savings in their order. */
  lemma {:induction false} SortingIsStable(candidates: seq<Draft>, savings: real)
    ensures Saving(Sorted(candidates), savings) == Saving(candidates, savings)
  {
    if candidates != [] {
      var front, last := candidates[..|candidates| - 1], candidates[|candidates| - 1];
      SortingSorts(front);
      SortingIsStable(front, savings);
      InsertIsStable(Sorted(front), last, savings);
      SavingSplits(front, [last], savings);
      assert candidates == front + [last];
    }
  }

  // Every candidate stays served, and merged candidates keep their shape.

  ghost predicate ServedBySome(drafts: seq<Draft>, draft: Draft) {
    exists i :: 0 <= i < |drafts| && Serves(drafts[i], draft)
  }

  lemma MergeOneServes(settings: Settings, merged: seq<Draft>, candidate: Draft, draft: Draft)
    requires draft == candidate || ServedBySome(merged, draft)
    ensures ServedBySome(MergeOne(settings, merged, candidate), draft)
  {
    var after := MergeOne(settings, merged, candidate);
    var at := FirstCompatible(merged, candidate.keys);
    if |after| == |merged| {
      AbsorbServes(merged[at], candidate);
      if draft == candidate {
        assert Serves(after[at], draft);
      } else {
        var i :| 0 <= i < |merged| && Serves(merged[i], draft);
        if i == at {
          ServesIsTransitive(after[at], merged[at], draft);
        }
        assert Serves(after[i], draft);
      }
    } else if draft == candidate {
      assert Serves(after[|merged|], draft);
    } else {
      var i :| 0 <= i < |merged| && Serves(merged[i], draft);
      assert Serves(after[i], draft);
    }
  }

  lemma {:induction false} MergeServesEveryCandidate(settings: Settings, candidates: seq<Draft>, draft: Draft)
    requires draft in candidates
    ensures ServedBySome(MergeAll(settings, candidates), draft)
  {
    var front, last := candidates[..|candidates| - 1], candidates[|candidates| - 1];
    assert candidates == front + [last];
    if draft in front {
      MergeServesEveryCandidate(settings, front, draft);
    }
    MergeOneServes(settings, MergeAll(settings, front), last, draft);
  }

  lemma MergedServesEveryCandidate(settings: Settings, candidates: seq<Draft>, draft: Draft)
    requires draft in candidates
    ensures ServedBySome(Merged(settings, candidates), draft)
  {
    SortingPermutes(candidates);
    assert draft in multiset(Sorted(candidates));
    MergeServesEveryCandidate(settings, Sorted(candidates), draft);
  }

  predicate Shaped(settings: Settings, draft: Draft) { Tidy(draft) && Bounded(settings, draft.includes) }

  lemma AbsorbIsTidy(target: Draft, candidate: Draft)
    requires Tidy(target) && Tidy(candidate)
    ensures Tidy(Absorb(target, candidate))
  {
    AppendNewDistinct(target.includes, candidate.includes);
    WithoutDistinct(AppendNew(target.includes, candidate.includes), NameSet(Longer(candidate.keys, target.keys)));
  }

  lemma {:induction false} MergeKeepsShape(settings: Settings, candidates: seq<Draft>)
    requires forall draft :: draft in candidates ==> Shaped(settings, draft)
    ensures forall draft :: draft in MergeAll(settings, candidates) ==> Shaped(settings, draft)
  {
    if candidates != [] {
      var front, last := candidates[..|candidates| - 1], candidates[|candidates| - 1];
      MergeKeepsShape(settings, front);
      var merged := MergeAll(settings, front);
      var at := FirstCompatible(merged, last.keys);
      if at < |merged| {
        assert merged[at] in merged && last in candidates;
        AbsorbIsTidy(merged[at], last);
      }
    }
  }

  lemma MergedKeepsShape(settings: Settings, candidates: seq<Draft>)
    requires forall draft :: draft in candidates ==> Shaped(settings, draft)
    ensures forall draft :: draft in Merged(settings, candidates) ==> Shaped(settings, draft)
  {
    SortingPermutes(candidates);
    forall draft | draft in Sorted(candidates) ensures Shaped(settings, draft) {
      assert draft in multiset(candidates);
    }
    MergeKeepsShape(settings, Sorted(candidates));
  }

  // Fitting keeps the longest prefix that fits and every column.

  /** n is the longest non-empty prefix within the limit, or one key when none fits. */
  lemma {:induction false} FittingIsLongest(keys: seq<Key>, catalog: Catalog)
    ensures var n := FittingKeys(keys, catalog);
            && (keys != [] ==> n >= 1)
            && (n > 1 ==> KeyWidth(keys[..n], catalog) <= 1700)
            && forall m :: n < m <= |keys| ==> KeyWidth(keys[..m], catalog) > 1700
  {
    var n := FittingKeys(keys, catalog);
    assert keys[..|keys|] == keys;
    if n != |keys| {
      var front := keys[..|keys| - 1];
      FittingIsLongest(front, catalog);
      assert front[..n] == keys[..n];
      forall m | n < m <= |keys| ensures KeyWidth(keys[..m], catalog) > 1700 {
        if m < |keys| { assert front[..m] == keys[..m]; }
      }
    }
  }

  /** A draft that keeps all its keys stays as it is; one that does not is of low selectivity if it was
      before, or if all the keys that it keeps are. */
  lemma FittingMarksLowSelectivity(draft: Draft, catalog: Catalog, lowColumns: set<Column>)
    ensures var fitted := Fitted(draft, catalog, lowColumns);
            && (|fitted.keys| == |draft.keys| ==> fitted == draft)
            && (|fitted.keys| < |draft.keys| ==>
                  (fitted.lowSelectivity <==>
                    draft.lowSelectivity || forall i :: 0 <= i < |fitted.keys| ==> fitted.keys[i].column in lowColumns))
  {
    var n := FittingKeys(draft.keys, catalog);
    var kept := draft.keys[..n];
    if n < |draft.keys| {
      assert |Names(draft.keys[n..])| > 0;
      forall i | 0 <= i < n ensures kept[i].column in NameSet(kept) {
        assert Names(kept)[i] == kept[i].column;
      }
    }
  }

  /** The names in front of a cut and behind it. */
  lemma CutNames(keys: seq<Key>, n: nat)
    requires n <= |keys|
    ensures NameSet(keys[..n]) + ColumnSet(Names(keys[n..])) == NameSet(keys)
  {
    assert Names(keys) == Names(keys[..n]) + Names(keys[n..]);
  }

  lemma WithoutCovers(front: seq<Column>, columns: seq<Column>)
    ensures ColumnSet(front + Without(columns, ColumnSet(front))) == ColumnSet(front) + ColumnSet(columns)
  {
    var kept := Without(columns, ColumnSet(front));
    forall c ensures c in front + kept <==> c in front || c in columns {}
  }

  lemma FittingKeepsColumns(draft: Draft, catalog: Catalog, lowColumns: set<Column>)
    ensures var fitted := Fitted(draft, catalog, lowColumns);
            && fitted.keys <= draft.keys
            && NameSet(fitted.keys) + ColumnSet(fitted.includes) == NameSet(draft.keys) + ColumnSet(draft.includes)
            && (|fitted.keys| > 1 ==> KeyWidth(fitted.keys, catalog) <= 1700)
            && fitted.supports == draft.supports && fitted.savings == draft.savings
  {
    var n := FittingKeys(draft.keys, catalog);
    var moved := Names(draft.keys[n..]);
    FittingIsLongest(draft.keys, catalog);
    CutNames(draft.keys, n);
    WithoutCovers(moved, draft.includes);
    if moved == [] {
      assert draft.keys[..n] == draft.keys;
    }
  }
}
