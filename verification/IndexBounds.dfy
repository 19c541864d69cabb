/** When a new index keeps the bound on included columns. The bound is checked when candidates are
    designed, merged, and joined to an existing index, but neither after keys were moved to the
    included columns nor when the candidates of a refused group become one new index. */
module IndexBounds {
  import opened IndexModel
  import opened IndexCandidates
  import opened IndexReconcile

  // ---------------------------------------------------------------- one candidate

  /** The bound on a number of included columns that take so many bytes together. */
  predicate WithinBound(settings: Settings, count: int, bytes: int) {
    && count <= settings.maxIncludes
    && !(settings.catalog.columns != map[] && settings.catalog.rowWidth > 0
         && 10 * bytes > 6 * settings.catalog.rowWidth && count > 4)
  }

  /** The included columns and the keys that do not fit, counted and weighed before they are moved. */
  predicate StaysBounded(settings: Settings, draft: Draft) {
    var n := FittingKeys(draft.keys, settings.catalog);
    WithinBound(settings, |draft.includes| + |draft.keys| - n,
                Width(draft.includes, settings.catalog)
                + KeyWidth(draft.keys, settings.catalog) - KeyWidth(draft.keys[..n], settings.catalog))
  }

  lemma {:induction false} WidthAdds(left: seq<Column>, right: seq<Column>, catalog: Catalog)
    ensures Width(left + right, catalog) == Width(left, catalog) + Width(right, catalog)
  {
    if left == [] {
      assert left + right == right;
    } else {
      WidthAdds(left[1..], right, catalog);
      assert (left + right)[1..] == left[1..] + right;
    }
  }

  /** Wherever a column stands, it counts with its declared width; one without catalog metadata counts nothing. */
  lemma ColumnCounts(left: seq<Column>, column: Column, right: seq<Column>, catalog: Catalog)
    ensures Width(left + [column] + right, catalog)
            == Width(left + right, catalog)
               + if column in catalog.columns then catalog.columns[column].width else 0
    ensures Width([], catalog) == 0
  {
    WidthAdds(left + [column], right, catalog);
    WidthAdds(left, [column], catalog);
    WidthAdds(left, right, catalog);
    assert [column][1..] == [];
  }

  /** Of two or more keys that fitting keeps, each is declared with at most 1700 bytes, and any two of
      them together as well. */
  lemma KeptKeysFitInBytes(draft: Draft, catalog: Catalog, lowColumns: set<Column>, i: nat, j: nat)
    requires i < j < |Fitted(draft, catalog, lowColumns).keys|
    requires var keys := Fitted(draft, catalog, lowColumns).keys;
             keys[i].column in catalog.columns && keys[j].column in catalog.columns
    ensures var keys := Fitted(draft, catalog, lowColumns).keys;
            catalog.columns[keys[i].column].width + catalog.columns[keys[j].column].width <= 1700
  {
    var keys := Fitted(draft, catalog, lowColumns).keys;
    var names := Names(keys);
    FittingKeepsColumns(draft, catalog, lowColumns);
    assert names == names[..j] + [names[j]] + names[j + 1..];
    ColumnCounts(names[..j], names[j], names[j + 1..], catalog);
    var others := names[..j] + names[j + 1..];
    assert others == others[..i] + [others[i]] + others[i + 1..];
    ColumnCounts(others[..i], others[i], others[i + 1..], catalog);
  }

  lemma {:induction false} WithoutNone(columns: seq<Column>, names: set<Column>)
    requires forall i :: 0 <= i < |columns| ==> columns[i] !in names
    ensures Without(columns, names) == columns
  {
    if columns != [] {
      var front, last := columns[..|columns| - 1], columns[|columns| - 1];
      WithoutNone(front, names);
      assert Without(columns, names) == front + [last];
    }
  }

  lemma CutWidths(keys: seq<Key>, n: nat, catalog: Catalog)
    requires n <= |keys|
    ensures Names(keys) == Names(keys[..n]) + Names(keys[n..])
    ensures KeyWidth(keys, catalog) == KeyWidth(keys[..n], catalog) + Width(Names(keys[n..]), catalog)
  {
    assert Names(keys) == Names(keys[..n]) + Names(keys[n..]);
    WidthAdds(Names(keys[..n]), Names(keys[n..]), catalog);
  }

  /** Fitting puts the keys behind the cut in front of the included columns. */
  lemma FittedIncludes(draft: Draft, catalog: Catalog, lowColumns: set<Column>)
    requires Tidy(draft)
    ensures Fitted(draft, catalog, lowColumns).includes
            == Names(draft.keys[FittingKeys(draft.keys, catalog)..]) + draft.includes
  {
    var n := FittingKeys(draft.keys, catalog);
    var moved := Names(draft.keys[n..]);
    CutNames(draft.keys, n);
    WithoutNone(draft.includes, ColumnSet(moved));
  }

  /** A fitted candidate is over the bound exactly when its included columns and the keys that did
      not fit are over it together. */
  lemma FittingBoundsExactly(context: Context, draft: Draft)
    requires Tidy(draft)
    ensures var fitted, n := FittedFor(context, draft), FittingKeys(draft.keys, context.settings.catalog);
            && |fitted.includes| == |draft.includes| + |draft.keys| - n
            && (Bounded(context.settings, fitted.includes) <==> StaysBounded(context.settings, draft))
  {
    var catalog := context.settings.catalog;
    var n := FittingKeys(draft.keys, catalog);
    FittedIncludes(draft, catalog, context.lowColumns);
    CutWidths(draft.keys, n, catalog);
    WidthAdds(Names(draft.keys[n..]), draft.includes, catalog);
  }

  lemma DistinctSplits(left: seq<Column>, right: seq<Column>)
    ensures Distinct(left + right) <==> Distinct(left) && Distinct(right) && ColumnSet(left) !! ColumnSet(right)
  {
    var all := left + right;
    assert forall i :: 0 <= i < |left| ==> all[i] == left[i];
    assert forall j :: 0 <= j < |right| ==> all[|left| + j] == right[j];
    if Distinct(all) {
      forall i, j | 0 <= i < j < |right| ensures right[i] != right[j] {
        assert all[|left| + i] != all[|left| + j];
      }
    }
    if Distinct(left) && Distinct(right) && ColumnSet(left) !! ColumnSet(right) {
      forall i, j | 0 <= i < j < |all| ensures all[i] != all[j] {
        if i < |left| <= j {
          assert all[i] in ColumnSet(left) && all[j] == right[j - |left|] && right[j - |left|] in ColumnSet(right);
        }
      }
    }
  }

  lemma FittingKeepsTidy(draft: Draft, catalog: Catalog, lowColumns: set<Column>)
    requires Tidy(draft)
    ensures Tidy(Fitted(draft, catalog, lowColumns))
  {
    var n := FittingKeys(draft.keys, catalog);
    var moved := Names(draft.keys[n..]);
    FittedIncludes(draft, catalog, lowColumns);
    CutNames(draft.keys, n);
    assert Names(draft.keys) == Names(draft.keys[..n]) + moved;
    DistinctSplits(Names(draft.keys[..n]), moved);
    DistinctSplits(moved, draft.includes);
    if moved == [] {
      assert draft.keys[..n] == draft.keys;
    }
  }

  /** When the first key alone is over the limit, all other keys become included columns, however
      many they are. */
  lemma OverwideKeyOverflowsIncludes(context: Context, draft: Draft)
    requires Tidy(draft) && |draft.keys| > 1
    requires KeyWidth(draft.keys[..1], context.settings.catalog) > MAX_KEY_BYTES
    requires |draft.includes| + |draft.keys| - 1 > context.settings.maxIncludes
    ensures !Bounded(context.settings, FittedFor(context, draft).includes)
  {
    var catalog := context.settings.catalog;
    var n := FittingKeys(draft.keys, catalog);
    FittingIsLongest(draft.keys, catalog);
    FittingBoundsExactly(context, draft);
    CutWidths(draft.keys[..n], 1, catalog);
    assert draft.keys[..n][..1] == draft.keys[..1];
  }

  // ---------------------------------------------------------------- the candidates of one group

  /** The fitted candidates that were placed on this target for this action, in order. */
  function Members(context: Context, candidates: seq<Draft>, action: Action, name: string): seq<Draft> {
    if candidates == [] then []
    else
      var front, fitted := candidates[..|candidates| - 1], FittedFor(context, candidates[|candidates| - 1]);
      Members(context, front, action, name)
      + if LandsOn(SpotOf(context, PlaceAll(context, front).groups, fitted), action, name) then [fitted] else []
  }

  predicate LandsOn(spot: Spot, action: Action, name: string) {
    spot.Grouping? && spot.action == action && spot.target.name == name
  }

  function JoinedAll(members: seq<Draft>): Draft
    requires members != []
  {
    if |members| == 1 then members[0] else Joined(JoinedAll(members[..|members| - 1]), members[|members| - 1])
  }

  /** Every column that some member includes. */
  function Pooled(members: seq<Draft>): set<Column> {
    if members == [] then {} else Pooled(members[..|members| - 1]) + ColumnSet(members[|members| - 1].includes)
  }

  function LongestKeys(members: seq<Draft>): seq<Key> {
    if members == [] then [] else Longer(members[|members| - 1].keys, LongestKeys(members[..|members| - 1]))
  }

  /** The draft is the join of the members: the longest of their keys, and what any of them
      includes without these keys, each column once. */
  predicate PoolOf(draft: Draft, members: seq<Draft>) {
    && members != [] && draft == JoinedAll(members) && draft.keys == LongestKeys(members)
    && Distinct(draft.includes) && ColumnSet(draft.includes) == Pooled(members) - NameSet(draft.keys)
  }

  lemma OneIsItsPool(draft: Draft)
    requires Tidy(draft)
    ensures PoolOf(draft, [draft])
  {
    assert Pooled([draft]) == ColumnSet(draft.includes);
    assert LongestKeys([draft]) == draft.keys;
  }

  lemma JoinedSet(merged: Draft, candidate: Draft)
    requires merged.keys <= candidate.keys || candidate.keys <= merged.keys
    requires Distinct(merged.includes)
    ensures var joined := Joined(merged, candidate);
            && Distinct(joined.includes) && NameSet(merged.keys) <= NameSet(joined.keys)
            && ColumnSet(joined.includes)
              == ColumnSet(merged.includes) + ColumnSet(candidate.includes) - NameSet(joined.keys)
  {
    var names := NameSet(Longer(candidate.keys, merged.keys));
    var added := Without(candidate.includes, names);
    AppendNewHolds(merged.includes, added);
    AppendNewDistinct(merged.includes, added);
    WithoutDistinct(AppendNew(merged.includes, added), names);
    KeysCarryOver(merged.keys, Longer(candidate.keys, merged.keys));
    var all := AppendNew(merged.includes, added);
    assert Joined(merged, candidate).includes == Without(all, names);
    forall c ensures c in Without(all, names) <==>
        c in ColumnSet(merged.includes) + ColumnSet(candidate.includes) - names {
      assert c in all <==> c in ColumnSet(all);
      assert c in added <==> c in ColumnSet(added);
    }
  }

  lemma JoinPools(draft: Draft, members: seq<Draft>, candidate: Draft)
    requires PoolOf(draft, members) && (draft.keys <= candidate.keys || candidate.keys <= draft.keys)
    ensures PoolOf(Joined(draft, candidate), members + [candidate])
  {
    assert (members + [candidate])[..|members|] == members;
    JoinedSet(draft, candidate);
  }

  /** Every group is the join of the candidates that were placed on it, and no candidate was placed
      on a target that has no group. */
  ghost predicate Pools(groups: seq<Group>, members: (Action, string) -> seq<Draft>) {
    && (forall i :: 0 <= i < |groups| ==> PoolOf(groups[i].draft, members(groups[i].action, groups[i].target.name)))
    && forall action, name :: FindGroup(groups, action, name) == |groups| ==> members(action, name) == []
  }

  function MembersOf(context: Context, candidates: seq<Draft>): (Action, string) -> seq<Draft> {
    (action, name) => Members(context, candidates, action, name)
  }

  /** The group that takes one more candidate. */
  lemma GrouperPools(context: Context, groups: seq<Group>, action: Action, target: Index, fitted: Draft,
                     before: seq<Draft>)
    requires DistinctNames(context.rowstore) && (forall group :: group in groups ==> GroupFits(context, group))
    requires GroupFits(context, Group(action, target, fitted)) && Tidy(fitted)
    requires action.Widen? ==> JoinsWiden(groups, target, fitted.keys)
    requires var at := FindGroup(groups, action, target.name);
             if at == |groups| then before == [] else PoolOf(groups[at].draft, before)
    ensures var at, after := FindGroup(groups, action, target.name), GroupOn(groups, action, target, fitted);
            at < |after| && PoolOf(after[at].draft, before + [fitted])
            && after[at].action == action && after[at].target.name == target.name
  {
    var at := FindGroup(groups, action, target.name);
    if at == |groups| {
      OneIsItsPool(fitted);
      assert [] + [fitted] == [fitted];
    } else {
      assert groups[at] in groups;
      SameTarget(context, groups[at].target, target);
      JoinPools(groups[at].draft, before, fitted);
    }
  }

  /** Where a candidate is grouped its key fits the target. */
  lemma SpotFits(context: Context, groups: seq<Group>, fitted: Draft)
    requires KeysFit(context, fitted.keys) && SpotOf(context, groups, fitted).Grouping?
    ensures var spot := SpotOf(context, groups, fitted);
            && GroupFits(context, Group(spot.action, spot.target, fitted))
            && (spot.action.Widen? ==> JoinsWiden(groups, spot.target, fitted.keys))
  {
  }

  lemma FoundIsOnly(groups: seq<Group>, i: nat)
    requires OnePerTarget(groups) && i < |groups|
    ensures FindGroup(groups, groups[i].action, groups[i].target.name) == i
  {
  }

  /** Grouping changes where a pair of action and name is found only when it adds that pair. */
  lemma {:induction false} FindAfterGrouping(groups: seq<Group>, action: Action, target: Index, draft: Draft,
                                             other: Action, name: string)
    ensures var after := GroupOn(groups, action, target, draft);
            FindGroup(after, other, name) == |after| ==>
              FindGroup(groups, other, name) == |groups| && (other, name) != (action, target.name)
  {
    var at, after := FindGroup(groups, action, target.name), GroupOn(groups, action, target, draft);
    var found := FindGroup(groups, other, name);
    assert after[at].action == action && after[at].target.name == target.name;
    if found < |groups| {
      assert after[found].action == other && after[found].target.name == name;
    }
  }

  lemma GroupingPools(context: Context, groups: seq<Group>, action: Action, target: Index, fitted: Draft,
                      members: (Action, string) -> seq<Draft>, more: (Action, string) -> seq<Draft>)
    requires DistinctNames(context.rowstore) && OnePerTarget(groups) && Tidy(fitted)
    requires forall group :: group in groups ==> GroupFits(context, group)
    requires GroupFits(context, Group(action, target, fitted))
    requires action.Widen? ==> JoinsWiden(groups, target, fitted.keys)
    requires Pools(groups, members)
    requires more(action, target.name) == members(action, target.name) + [fitted]
    requires forall other, name :: (other, name) != (action, target.name) ==> more(other, name) == members(other, name)
    ensures Pools(GroupOn(groups, action, target, fitted), more)
  {
    var at, after := FindGroup(groups, action, target.name), GroupOn(groups, action, target, fitted);
    GrouperPools(context, groups, action, target, fitted, members(action, target.name));
    forall i | 0 <= i < |after|
      ensures PoolOf(after[i].draft, more(after[i].action, after[i].target.name)) {
      if i != at {
        assert after[i] == groups[i];
        FoundIsOnly(groups, i);
      }
    }
    forall other, name | FindGroup(after, other, name) == |after| ensures more(other, name) == [] {
      FindAfterGrouping(groups, action, target, fitted, other, name);
    }
  }

  lemma PlacedLast(context: Context, front: seq<Draft>, last: Draft)
    ensures PlaceAll(context, front + [last]) == Place(context, PlaceAll(context, front), FittedFor(context, last))
  {
    assert (front + [last])[..|front|] == front;
  }

  lemma UngroupedPools(context: Context, front: seq<Draft>, fitted: Draft,
                       members: (Action, string) -> seq<Draft>, more: (Action, string) -> seq<Draft>)
    requires Pools(PlaceAll(context, front).groups, members)
    requires !SpotOf(context, PlaceAll(context, front).groups, fitted).Grouping?
    requires forall action, name :: more(action, name) == members(action, name)
    ensures Pools(Place(context, PlaceAll(context, front), fitted).groups, more)
  {
    assert Place(context, PlaceAll(context, front), fitted).groups == PlaceAll(context, front).groups;
  }

  /** Placing one more candidate adds it to the members of its target, if it is grouped. */
  lemma MembersOfGrow(context: Context, front: seq<Draft>, last: Draft, action: Action, name: string)
    ensures var fitted := FittedFor(context, last);
            MembersOf(context, front + [last])(action, name)
            == MembersOf(context, front)(action, name)
               + if LandsOn(SpotOf(context, PlaceAll(context, front).groups, fitted), action, name)
                 then [fitted] else []
  {
    assert (front + [last])[..|front|] == front;
  }

  lemma GroupedPools(context: Context, groups: seq<Group>, fitted: Draft, spot: Spot,
                     members: (Action, string) -> seq<Draft>, more: (Action, string) -> seq<Draft>)
    requires DistinctNames(context.rowstore) && Tidy(fitted) && KeysFit(context, fitted.keys)
    requires OnePerTarget(groups) && (forall group :: group in groups ==> GroupFits(context, group))
    requires spot == SpotOf(context, groups, fitted) && spot.Grouping? && Pools(groups, members)
    requires forall action, name ::
               more(action, name) == members(action, name) + if LandsOn(spot, action, name) then [fitted] else []
    ensures Pools(GroupOn(groups, spot.action, spot.target, fitted), more)
  {
    SpotFits(context, groups, fitted);
    GroupingPools(context, groups, spot.action, spot.target, fitted, members, more);
  }

  lemma OneMorePools(context: Context, front: seq<Draft>, last: Draft)
    requires DistinctNames(context.rowstore) && Tidy(last)
    requires Pools(PlaceAll(context, front).groups, MembersOf(context, front))
    ensures Pools(PlaceAll(context, front + [last]).groups, MembersOf(context, front + [last]))
  {
    var fitted := FittedFor(context, last);
    var members, more := MembersOf(context, front), MembersOf(context, front + [last]);
    forall action, name
      ensures more(action, name)
              == members(action, name)
                 + if LandsOn(SpotOf(context, PlaceAll(context, front).groups, fitted), action, name)
                   then [fitted] else [] {
      MembersOfGrow(context, front, last, action, name);
    }
    PlacedLast(context, front, last);
    FittingKeepsColumns(last, context.settings.catalog, context.lowColumns);
    FittingKeepsTidy(last, context.settings.catalog, context.lowColumns);
    var groups := PlaceAll(context, front).groups;
    var spot := SpotOf(context, groups, fitted);
    if spot.Grouping? {
      AllBooked(context, front);
      GroupedPools(context, groups, fitted, spot, members, more);
    } else {
      UngroupedPools(context, front, fitted, members, more);
    }
  }

  lemma {:induction false} GroupsAreJoins(context: Context, candidates: seq<Draft>)
    requires DistinctNames(context.rowstore) && forall draft :: draft in candidates ==> Tidy(draft)
    ensures Pools(PlaceAll(context, candidates).groups, MembersOf(context, candidates))
  {
    if candidates != [] {
      var front, last := candidates[..|candidates| - 1], candidates[|candidates| - 1];
      assert candidates == front + [last] && last in candidates;
      GroupsAreJoins(context, front);
      OneMorePools(context, front, last);
    }
  }

  /** A group is the join of the candidates that were placed on it. */
  lemma GroupIsJoin(context: Context, candidates: seq<Draft>, group: Group)
    requires DistinctNames(context.rowstore) && forall draft :: draft in candidates ==> Tidy(draft)
    requires group in PlaceAll(context, candidates).groups
    ensures PoolOf(group.draft, Members(context, candidates, group.action, group.target.name))
  {
    GroupsAreJoins(context, candidates);
    var groups := PlaceAll(context, candidates).groups;
    var i :| 0 <= i < |groups| && groups[i] == group;
  }

  lemma {:induction false} DistinctCounts(columns: seq<Column>)
    requires Distinct(columns)
    ensures |ColumnSet(columns)| == |columns|
  {
    if columns != [] {
      var front, last := columns[..|columns| - 1], columns[|columns| - 1];
      DistinctCounts(front);
      assert ColumnSet(columns) == ColumnSet(front) + {last} && last !in ColumnSet(front);
    }
  }

  // ---------------------------------------------------------------- all new indexes of a table

  /** The candidates that become a new index of their own, before fitting. */
  function Direct(context: Context, candidates: seq<Draft>): seq<Draft> {
    if candidates == [] then []
    else
      var front, last := candidates[..|candidates| - 1], candidates[|candidates| - 1];
      Direct(context, front)
      + if SpotOf(context, PlaceAll(context, front).groups, FittedFor(context, last)).Creating? then [last] else []
  }

  lemma {:induction false} DirectCreates(context: Context, candidates: seq<Draft>)
    ensures var creates, direct := PlaceAll(context, candidates).creates, Direct(context, candidates);
            && |creates| == |direct|
            && forall i :: 0 <= i < |direct| ==> direct[i] in candidates && creates[i] == FittedFor(context, direct[i])
  {
    if candidates != [] {
      DirectCreates(context, candidates[..|candidates| - 1]);
    }
  }

  /** The bytes of a set of columns. */
  ghost function SetWidth(columns: set<Column>, catalog: Catalog): nat {
    if columns == {} then 0
    else var c :| c in columns; ColumnWidth(c, catalog) + SetWidth(columns - {c}, catalog)
  }

  /** Whichever column is taken first. */
  lemma {:induction false} TakenFirst(columns: set<Column>, c: Column, catalog: Catalog)
    requires c in columns
    ensures SetWidth(columns, catalog) == ColumnWidth(c, catalog) + SetWidth(columns - {c}, catalog)
    decreases |columns|
  {
    var d :| d in columns && SetWidth(columns, catalog) == ColumnWidth(d, catalog) + SetWidth(columns - {d}, catalog);
    if c != d {
      TakenFirst(columns - {d}, c, catalog);
      TakenFirst(columns - {c}, d, catalog);
      assert columns - {d} - {c} == columns - {c} - {d};
    }
  }

  lemma {:induction false} DistinctWeigh(columns: seq<Column>, catalog: Catalog)
    requires Distinct(columns)
    ensures SetWidth(ColumnSet(columns), catalog) == Width(columns, catalog)
  {
    if columns != [] {
      var first, rest := columns[0], columns[1..];
      DistinctWeigh(rest, catalog);
      assert columns == [first] + rest && first !in ColumnSet(rest);
      assert ColumnSet(columns) == {first} + ColumnSet(rest);
      TakenFirst(ColumnSet(columns), first, catalog);
      assert ColumnSet(columns) - {first} == ColumnSet(rest);
    }
  }

  /** What any candidate of a group includes, without the longest of their keys. */
  function PooledIncludes(members: seq<Draft>): set<Column> { Pooled(members) - NameSet(LongestKeys(members)) }

  /** These columns, counted and weighed, are within the bound. */
  ghost predicate PoolBounded(settings: Settings, members: seq<Draft>) {
    WithinBound(settings, |PooledIncludes(members)|, SetWidth(PooledIncludes(members), settings.catalog))
  }

  lemma PoolIsBoundedExactly(settings: Settings, draft: Draft, members: seq<Draft>)
    requires PoolOf(draft, members)
    ensures |draft.includes| == |PooledIncludes(members)|
    ensures Bounded(settings, draft.includes) <==> PoolBounded(settings, members)
  {
    DistinctCounts(draft.includes);
    DistinctWeigh(draft.includes, settings.catalog);
  }

  predicate DirectsBounded(context: Context, candidates: seq<Draft>) {
    forall draft :: draft in Direct(context, candidates) ==> StaysBounded(context.settings, draft)
  }

  ghost predicate RefusedBounded(context: Context, candidates: seq<Draft>) {
    forall group :: group in PlaceAll(context, candidates).groups && !Accepted(context, group) ==>
      PoolBounded(context.settings, Members(context, candidates, group.action, group.target.name))
  }

  predicate AllBounded(context: Context, drafts: seq<Draft>) {
    forall draft :: draft in drafts ==> Bounded(context.settings, draft.includes)
  }

  lemma DirectCreatesAreBoundedExactly(context: Context, candidates: seq<Draft>)
    requires forall draft :: draft in candidates ==> Tidy(draft)
    ensures AllBounded(context, PlaceAll(context, candidates).creates) <==> DirectsBounded(context, candidates)
  {
    var creates, direct := PlaceAll(context, candidates).creates, Direct(context, candidates);
    DirectCreates(context, candidates);
    forall i | 0 <= i < |direct|
      ensures Bounded(context.settings, creates[i].includes) <==> StaysBounded(context.settings, direct[i]) {
      FittingBoundsExactly(context, direct[i]);
    }
    if AllBounded(context, creates) {
      forall draft | draft in direct ensures StaysBounded(context.settings, draft) {
        var i :| 0 <= i < |direct| && direct[i] == draft;
        assert creates[i] in creates;
      }
    }
    if DirectsBounded(context, candidates) {
      forall draft | draft in creates ensures Bounded(context.settings, draft.includes) {
        var i :| 0 <= i < |creates| && creates[i] == draft;
        assert direct[i] in direct;
      }
    }
  }

  lemma {:induction false} RefusedFallBack(context: Context, groups: seq<Group>)
    ensures forall group :: group in groups && !Accepted(context, group) ==> group.draft in Fallbacks(context, groups)
    ensures forall draft :: draft in Fallbacks(context, groups) ==> ComesFromRefused(context, groups, draft)
  {
    if groups != [] {
      var front, last := groups[..|groups| - 1], groups[|groups| - 1];
      assert groups == front + [last];
      RefusedFallBack(context, front);
      forall draft | draft in Fallbacks(context, groups) ensures ComesFromRefused(context, groups, draft) {
        if draft in Fallbacks(context, front) {
          var group :| group in front && group.draft == draft && !Accepted(context, group);
          assert group in groups;
        } else {
          assert last in groups;
        }
      }
    }
  }

  ghost predicate ComesFromRefused(context: Context, groups: seq<Group>, draft: Draft) {
    exists group :: group in groups && group.draft == draft && !Accepted(context, group)
  }

  lemma FallbacksAreBoundedExactly(context: Context, candidates: seq<Draft>)
    requires DistinctNames(context.rowstore) && forall draft :: draft in candidates ==> Tidy(draft)
    ensures AllBounded(context, Fallbacks(context, PlaceAll(context, candidates).groups))
            <==> RefusedBounded(context, candidates)
  {
    var groups := PlaceAll(context, candidates).groups;
    RefusedFallBack(context, groups);
    forall group | group in groups
      ensures Bounded(context.settings, group.draft.includes)
              <==> PoolBounded(context.settings, Members(context, candidates, group.action, group.target.name)) {
      GroupIsJoin(context, candidates, group);
      PoolIsBoundedExactly(context.settings, group.draft,
                           Members(context, candidates, group.action, group.target.name));
    }
  }

  /** All new indexes of a table keep the bound if and only if every candidate that becomes one keeps
      it together with its moved keys, and the candidates of every refused group keep it together. */
  lemma NewIndexesAreBoundedExactly(context: Context, candidates: seq<Draft>)
    requires DistinctNames(context.rowstore) && forall draft :: draft in candidates ==> Tidy(draft)
    ensures AllBounded(context, Creations(context, PlaceAll(context, candidates)))
            <==> DirectsBounded(context, candidates) && RefusedBounded(context, candidates)
  {
    DirectCreatesAreBoundedExactly(context, candidates);
    FallbacksAreBoundedExactly(context, candidates);
    var book := PlaceAll(context, candidates);
    var fallbacks := Fallbacks(context, book.groups);
    forall draft ensures draft in Creations(context, book) <==> draft in book.creates || draft in fallbacks {}
  }

  lemma {:induction false} MembersAreFitted(context: Context, candidates: seq<Draft>, action: Action, name: string)
    ensures forall member :: member in Members(context, candidates, action, name) ==>
              exists draft :: draft in candidates && member == FittedFor(context, draft)
  {
    if candidates != [] {
      var front, last := candidates[..|candidates| - 1], candidates[|candidates| - 1];
      assert candidates == front + [last];
      MembersAreFitted(context, front, action, name);
      forall member | member in Members(context, candidates, action, name)
        ensures exists draft :: draft in candidates && member == FittedFor(context, draft) {
        if member in Members(context, front, action, name) {
          var draft :| draft in front && member == FittedFor(context, draft);
          assert draft in candidates;
        } else {
          assert last in candidates;
        }
      }
    }
  }

  predicate KeepsAllKeys(context: Context, draft: Draft) {
    FittingKeys(draft.keys, context.settings.catalog) == |draft.keys|
  }

  lemma WholeKeysStayBounded(context: Context, draft: Draft)
    requires Shaped(context.settings, draft) && KeepsAllKeys(context, draft)
    ensures FittedFor(context, draft) == draft && StaysBounded(context.settings, draft)
  {
    assert draft.keys[..|draft.keys|] == draft.keys;
  }

  /** When every candidate keeps all its keys and no two are placed on the same target for the same
      action, every new index keeps the bound that its candidate kept. */
  lemma UnsharedTargetsStayBounded(context: Context, candidates: seq<Draft>)
    requires DistinctNames(context.rowstore)
    requires forall draft :: draft in candidates ==> Shaped(context.settings, draft) && KeepsAllKeys(context, draft)
    requires forall action, name :: |Members(context, candidates, action, name)| <= 1
    ensures AllBounded(context, Creations(context, PlaceAll(context, candidates)))
  {
    NewIndexesAreBoundedExactly(context, candidates);
    DirectCreates(context, candidates);
    forall draft | draft in Direct(context, candidates) ensures StaysBounded(context.settings, draft) {
      WholeKeysStayBounded(context, draft);
    }
    forall group | group in PlaceAll(context, candidates).groups
      ensures PoolBounded(context.settings, Members(context, candidates, group.action, group.target.name)) {
      var members := Members(context, candidates, group.action, group.target.name);
      GroupIsJoin(context, candidates, group);
      MembersAreFitted(context, candidates, group.action, group.target.name);
      assert members[0] in members;
      var draft :| draft in candidates && members[0] == FittedFor(context, draft);
      WholeKeysStayBounded(context, draft);
      PoolIsBoundedExactly(context.settings, group.draft, members);
    }
  }

  // ---------------------------------------------------------------- a run over the bound

  lemma OneSorted(draft: Draft)
    ensures Sorted([draft]) == [draft]
  {
    assert [draft][..0] == [];
    assert InsertPosition([], draft.savings) == 0;
    assert Insert([], draft) == [draft];
  }

  lemma OneMerged(settings: Settings, draft: Draft)
    ensures MergeAll(settings, [draft]) == [draft]
  {
    assert [draft][..0] == [];
    assert MergeOne(settings, [], draft) == [draft];
  }

  lemma TwoSorted(first: Draft, second: Draft)
    requires first.savings >= second.savings
    ensures Sorted([first, second]) == [first, second]
  {
    OneSorted(first);
    assert [first, second][..1] == [first];
    assert InsertPosition([first], second.savings) == 1;
    assert Insert([first], second) == [first, second];
  }

  lemma TwoStayApart(settings: Settings, first: Draft, second: Draft)
    requires first.savings >= second.savings && !Bounded(settings, Absorb(first, second).includes)
    ensures Merged(settings, [first, second]) == [first, second]
  {
    TwoSorted(first, second);
    OneMerged(settings, first);
    assert [first, second][..1] == [first];
    assert MergeOne(settings, [first], second) == [first] + [second];
  }

  lemma PlacePair(context: Context, first: Draft, second: Draft)
    ensures PlaceAll(context, [first, second])
            == Place(context, Place(context, Book([], [], [], []), FittedFor(context, first)),
              FittedFor(context, second))
  {
    assert [] + [first] == [first] && [first] + [second] == [first, second];
    PlacedLast(context, [], first);
    PlacedLast(context, [first], second);
  }

  function OneKey(column: Column): seq<Key> { [Key(column, Ascending)] }

  function Plain(name: string, column: Column): Index {
    NewIndex(Draft(OneKey(column), [], [], 0.0, false)).(name := name)
  }

  /** A candidate of one key. */
  function Including(column: Column, included: seq<Column>, savings: real): Draft {
    Draft(OneKey(column), included, [], savings, false)
  }

  /** One index of one key in a table without a clustered index. */
  function OneIndexTable(settings: Settings, column: Column): Context {
    Context(settings, [Plain(['i', 'x'], column)], [], {})
  }

  /** Two lists of included columns that are within the bound, but not together. */
  predicate OverTogether(settings: Settings, xs: seq<Column>, ys: seq<Column>) {
    && xs != [] && ys != [] && Distinct(xs + ys)
    && Bounded(settings, xs) && Bounded(settings, ys) && !Bounded(settings, xs + ys)
  }

  lemma OneKeyFits(context: Context, draft: Draft)
    requires |draft.keys| == 1
    ensures FittedFor(context, draft) == draft && KeepsAllKeys(context, draft)
  {
    assert Names(draft.keys[1..]) == [];
  }

  lemma IncludingExtends(context: Context, groups: seq<Group>, column: Column, xs: seq<Column>, savings: real)
    requires context == OneIndexTable(context.settings, column) && xs != [] && xs[0] != column
    ensures SpotOf(context, groups, Including(column, xs, savings)) == Grouping(Extend, context.rowstore[0])
  {
    var draft, ix := Including(column, xs, savings), context.rowstore[0];
    assert xs[0] in ColumnSet(draft.includes) && Names(ix.keys) == [column];
    assert xs[0] !in Carried(ix, []);
    assert !CoveredByExisting(context, draft);
    assert CanExtend(ix, draft.keys);
  }

  lemma {:induction false} AllNew(includes: seq<Column>, more: seq<Column>)
    requires Distinct(includes + more)
    ensures AppendNew(includes, more) == includes + more
    decreases |more|
  {
    if more == [] {
      assert includes + more == includes;
    } else {
      DistinctSplits(includes, more);
      assert more[0] in ColumnSet(more);
      assert includes + [more[0]] + more[1..] == includes + more;
      AllNew(includes + [more[0]], more[1..]);
    }
  }

  lemma BothAreKept(xs: seq<Column>, ys: seq<Column>, names: set<Column>)
    requires Distinct(xs + ys) && ColumnSet(xs) !! names && ColumnSet(ys) !! names
    ensures Without(ys, names) == ys && Without(AppendNew(xs, ys), names) == xs + ys
  {
    AllNew(xs, ys);
    forall i | 0 <= i < |xs + ys| ensures (xs + ys)[i] !in names {
      assert (xs + ys)[i] in ColumnSet(xs) || (xs + ys)[i] in ColumnSet(ys);
    }
    forall i | 0 <= i < |ys| ensures ys[i] !in names {
      assert ys[i] in ColumnSet(ys);
    }
    WithoutNone(ys, names);
    WithoutNone(xs + ys, names);
  }

  lemma OneKeyNames(column: Column)
    ensures Names(OneKey(column)) == [column] && NameSet(OneKey(column)) == {column}
  {
    assert Names(OneKey(column)) == [column];
  }

  lemma IncludingsJoin(column: Column, xs: seq<Column>, ys: seq<Column>)
    requires Distinct(xs + ys) && column !in xs && column !in ys
    ensures Joined(Including(column, xs, 2.0), Including(column, ys, 1.0)) == Including(column, xs + ys, 3.0)
  {
    OneKeyNames(column);
    BothAreKept(xs, ys, {column});
  }

  lemma IncludingsAbsorb(column: Column, xs: seq<Column>, ys: seq<Column>)
    requires Distinct(xs + ys) && column !in xs && column !in ys
    ensures Absorb(Including(column, xs, 2.0), Including(column, ys, 1.0)).includes == xs + ys
  {
    OneKeyNames(column);
    BothAreKept(xs, ys, {column});
  }

  lemma JoinOnOneIndex(context: Context, column: Column, xs: seq<Column>, ys: seq<Column>)
    requires context == OneIndexTable(context.settings, column) && xs != [] && ys != []
    requires Distinct(xs + ys) && column !in xs && column !in ys
    ensures PlaceAll(context, [Including(column, xs, 2.0), Including(column, ys, 1.0)])
            == Book([], [], [Group(Extend, context.rowstore[0], Including(column, xs + ys, 3.0))], [])
  {
    var first, second := Including(column, xs, 2.0), Including(column, ys, 1.0);
    var ix := context.rowstore[0];
    PlacePair(context, first, second);
    OneKeyFits(context, first);
    OneKeyFits(context, second);
    IncludingExtends(context, [], column, xs, 2.0);
    assert GroupOn([], Extend, ix, first) == [Group(Extend, ix, first)];
    IncludingExtends(context, [Group(Extend, ix, first)], column, ys, 1.0);
    IncludingsJoin(column, xs, ys);
  }

  lemma KeptAlone(includes: seq<Column>, names: set<Column>)
    requires Distinct(includes) && ColumnSet(includes) !! names
    ensures AppendNew(Without([], names), Without(includes, names)) == includes
  {
    assert [] + includes == includes;
    BothAreKept([], includes, names);
    AllNew([], includes);
  }

  /** An index without included columns takes those of the draft, in a table without clustering keys. */
  lemma PlainRedefinition(context: Context, group: Group)
    requires group.target.includes == [] && context.clustering == [] && Tidy(group.draft)
    requires group.action.Extend? ==> group.target.keys == group.draft.keys
    ensures Redefined(context, group) == group.target.(keys := group.draft.keys, includes := group.draft.includes)
  {
    var names := NameSet(group.draft.keys);
    assert names + ColumnSet([]) == names;
    KeptAlone(group.draft.includes, names);
  }

  lemma FallbackOfOne(context: Context, group: Group)
    requires !Accepted(context, group)
    ensures Fallbacks(context, [group]) == [group.draft]
  {
    assert [group][..0] == [];
  }

  lemma OverfullIsRefused(context: Context, column: Column, includes: seq<Column>)
    requires context == OneIndexTable(context.settings, column)
    requires Distinct(includes) && column !in includes && !Bounded(context.settings, includes)
    ensures !Accepted(context, Group(Extend, context.rowstore[0], Including(column, includes, 3.0)))
  {
    OneKeyNames(column);
    PlainRedefinition(context, Group(Extend, context.rowstore[0], Including(column, includes, 3.0)));
  }

  lemma IncludingIsShaped(settings: Settings, column: Column, xs: seq<Column>, savings: real)
    requires Bounded(settings, xs) && Distinct(xs) && column !in xs
    ensures Shaped(settings, Including(column, xs, savings))
  {
    OneKeyNames(column);
  }

  /** Two candidates within the bound, which merging keeps apart because together they are over it.
      Both extend the same index, the change is refused for the same reason, and their join becomes
      a new index that is over the bound. */
  lemma JoinIsCreated(settings: Settings, column: Column, xs: seq<Column>, ys: seq<Column>)
    requires OverTogether(settings, xs, ys) && column !in xs && column !in ys
    ensures var context, first, second :=
              OneIndexTable(settings, column), Including(column, xs, 2.0), Including(column, ys, 1.0);
            && Shaped(settings, first) && KeepsAllKeys(context, first)
            && Shaped(settings, second) && KeepsAllKeys(context, second)
            && Merged(settings, [first, second]) == [first, second]
            && Creations(context, PlaceAll(context, [first, second])) == [Including(column, xs + ys, 3.0)]
  {
    var context, first, second :=
      OneIndexTable(settings, column), Including(column, xs, 2.0), Including(column, ys, 1.0);
    DistinctSplits(xs, ys);
    IncludingIsShaped(settings, column, xs, 2.0);
    IncludingIsShaped(settings, column, ys, 1.0);
    OneKeyFits(context, first);
    OneKeyFits(context, second);
    IncludingsAbsorb(column, xs, ys);
    TwoStayApart(settings, first, second);
    JoinOnOneIndex(context, column, xs, ys);
    OverfullIsRefused(context, column, xs + ys);
    FallbackOfOne(context, Group(Extend, context.rowstore[0], Including(column, xs + ys, 3.0)));
  }

  /** That many columns, named by repeating a letter. */
  function Columns(letter: char, n: nat): (columns: seq<Column>)
    ensures |columns| == n && forall i :: 0 <= i < n ==> |columns[i]| == i + 1 && columns[i][0] == letter
  {
    seq(n, i requires 0 <= i < n => seq(i + 1, j => letter))
  }

  lemma ColumnsOverTogether(settings: Settings, n: nat)
    requires settings.maxIncludes == n >= 1
    requires !TooWide(Columns('x', n), settings.catalog) && !TooWide(Columns('y', n), settings.catalog)
    ensures OverTogether(settings, Columns('x', n), Columns('y', n))
    ensures forall letter: char :: letter != 'x' && letter != 'y' ==>
              [letter] !in Columns('x', n) && [letter] !in Columns('y', n)
  {
    var xs, ys := Columns('x', n), Columns('y', n);
    assert forall i, j :: 0 <= i < n && 0 <= j < n ==> xs[i][0] != ys[j][0];
  }

  /** A run over the bound, whatever the bound is: both candidates include as many columns as it allows. */
  lemma JoinedFallbackOverflows(settings: Settings, n: nat) returns (context: Context, first: Draft, second: Draft)
    requires settings.maxIncludes == n >= 1 && KeyWidth(OneKey(['a']), settings.catalog) <= MAX_KEY_BYTES
    requires !TooWide(Columns('x', n), settings.catalog) && !TooWide(Columns('y', n), settings.catalog)
    ensures context.settings == settings && DistinctNames(context.rowstore)
    ensures Shaped(settings, first) && KeepsAllKeys(context, first) && |first.includes| == n
    ensures Shaped(settings, second) && KeepsAllKeys(context, second) && |second.includes| == n
    ensures Merged(settings, [first, second]) == [first, second]
    ensures var created := Creations(context, PlaceAll(context, [first, second]));
            |created| == 1 && HasDdl(created[0], settings.catalog) && |created[0].includes| == 2 * n
  {
    var xs, ys := Columns('x', n), Columns('y', n);
    context := OneIndexTable(settings, ['a']);
    first, second := Including(['a'], xs, 2.0), Including(['a'], ys, 1.0);
    ColumnsOverTogether(settings, n);
    JoinIsCreated(settings, ['a'], xs, ys);
  }
}
