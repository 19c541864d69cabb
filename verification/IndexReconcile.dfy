/** Turning fitted candidates into advice: covered, extend, widen or create. */
module IndexReconcile {
  import opened Wrappers
  import opened IndexModel
  import opened IndexCandidates

  datatype Action = Extend | Widen

  /** Candidates that land on the same existing index share one group. */
  datatype Group = Group(action: Action, target: Index, draft: Draft)

  datatype Book = Book(skipped: seq<Draft>, covered: seq<Draft>, groups: seq<Group>, creates: seq<Draft>)

  datatype Context = Context(settings: Settings, rowstore: seq<Index>, clustering: seq<Column>, lowColumns: set<Column>)

  /** Enabled clustered and nonclustered indexes. */
  function Rowstore(existing: seq<Index>): (rowstore: seq<Index>)
    ensures forall index :: index in rowstore <==>
              (index in existing && !index.isDisabled
                && (index.typeCode == CLUSTERED || index.typeCode == NONCLUSTERED))
  {
    if existing == [] then []
    else (if !existing[0].isDisabled && (existing[0].typeCode == CLUSTERED || existing[0].typeCode == NONCLUSTERED)
          then [existing[0]] else []) + Rowstore(existing[1..])
  }

  /** The context of one table, read from its catalogued indexes. */
  function ContextOf(settings: Settings, existing: seq<Index>, lowColumns: set<Column>): Context {
    Context(settings, Rowstore(existing), ClusteringKeys(existing), lowColumns)
  }

  lemma {:induction false} RowstoreStaysDistinct(existing: seq<Index>)
    requires DistinctNames(existing)
    ensures DistinctNames(Rowstore(existing))
  {
    if existing != [] {
      var rest := Rowstore(existing[1..]);
      RowstoreStaysDistinct(existing[1..]);
      forall j | 0 <= j < |rest| ensures rest[j].name != existing[0].name {
        assert rest[j] in existing[1..];
      }
    }
  }

  predicate CanExtend(index: Index, keys: seq<Key>) {
    && index.typeCode == NONCLUSTERED && keys != [] && keys <= index.keys
    && !index.isPrimaryKey && !index.isUniqueConstraint && index.filter == ""
  }

  predicate CanWiden(index: Index, keys: seq<Key>) {
    && index.typeCode == NONCLUSTERED && index.keys != [] && |index.keys| < |keys| && index.keys <= keys
    && !index.isUnique && !index.isPrimaryKey && !index.isUniqueConstraint && index.filter == ""
  }

  function FirstExtendable(rowstore: seq<Index>, keys: seq<Key>): (target: Option<Index>)
    ensures target.Some? ==> target.value in rowstore && CanExtend(target.value, keys)
  {
    if rowstore == [] then None
    else if CanExtend(rowstore[0], keys) then Some(rowstore[0])
    else FirstExtendable(rowstore[1..], keys)
  }

  function FirstWidenable(rowstore: seq<Index>, keys: seq<Key>): (target: Option<Index>)
    ensures target.Some? ==> target.value in rowstore && CanWiden(target.value, keys)
  {
    if rowstore == [] then None
    else if CanWiden(rowstore[0], keys) then Some(rowstore[0])
    else FirstWidenable(rowstore[1..], keys)
  }

  predicate CoveredByExisting(context: Context, draft: Draft) {
    exists index :: index in context.rowstore && Covers(index, draft.keys, draft.includes, context.clustering)
  }

  /** The position of the group of this action on this index, or the number of groups. */
  function FindGroup(groups: seq<Group>, action: Action, name: string): (at: nat)
    ensures at <= |groups| && (at < |groups| ==> groups[at].action == action && groups[at].target.name == name)
    ensures forall i :: 0 <= i < at ==> !(groups[i].action == action && groups[i].target.name == name)
  {
    if groups == [] then 0
    else if groups[0].action == action && groups[0].target.name == name then 0
    else 1 + FindGroup(groups[1..], action, name)
  }

  function GroupOn(groups: seq<Group>, action: Action, target: Index, draft: Draft): seq<Group> {
    var at := FindGroup(groups, action, target.name);
    if at == |groups| then groups + [Group(action, target, draft)]
    else groups[at := groups[at].(draft := Joined(groups[at].draft, draft))]
  }

  predicate JoinsWiden(groups: seq<Group>, target: Index, keys: seq<Key>) {
    var at := FindGroup(groups, Widen, target.name);
    at == |groups| || Compatible(groups[at].draft.keys, keys)
  }

  /** Where a fitted candidate can go. */
  datatype Spot = Skipping | Covering | Grouping(action: Action, target: Index) | Creating

  predicate Weak(draft: Draft) { draft.lowSelectivity && |draft.supports| < 2 }

  function SpotOf(context: Context, groups: seq<Group>, draft: Draft): Spot {
    if Weak(draft) then Skipping
    else if CoveredByExisting(context, draft) then Covering
    else
      var extend := FirstExtendable(context.rowstore, draft.keys);
      if extend.Some? then Grouping(Extend, extend.value)
      else
        var widen := FirstWidenable(context.rowstore, draft.keys);
        if widen.Some? && JoinsWiden(groups, widen.value, draft.keys) then Grouping(Widen, widen.value)
        else Creating
  }

  function Place(context: Context, book: Book, draft: Draft): Book {
    match SpotOf(context, book.groups, draft)
    case Skipping => book.(skipped := book.skipped + [draft])
    case Covering => book.(covered := book.covered + [draft])
    case Grouping(action, target) => book.(groups := GroupOn(book.groups, action, target, draft))
    case Creating => book.(creates := book.creates + [draft])
  }

  function FittedFor(context: Context, draft: Draft): Draft {
    Fitted(draft, context.settings.catalog, context.lowColumns)
  }

  function PlaceAll(context: Context, candidates: seq<Draft>): Book {
    if candidates == [] then Book([], [], [], [])
    else Place(context, PlaceAll(context, candidates[..|candidates| - 1]),
      FittedFor(context, candidates[|candidates| - 1]))
  }

  /** The definition that the change of a group leaves. */
  function Redefined(context: Context, group: Group): Index {
    var keys := if group.action.Extend? then group.target.keys else group.draft.keys;
    var names := NameSet(keys);
    group.target.(keys := keys,
                  includes := AppendNew(Without(group.target.includes, names),
                                        Without(group.draft.includes, names + ColumnSet(context.clustering))))
  }

  predicate Accepted(context: Context, group: Group) {
    Bounded(context.settings, Redefined(context, group).includes)
  }

  /** The groups that change their target, and the drafts of those that fall back to a new index. */
  function Changes(context: Context, groups: seq<Group>): seq<Group> {
    if groups == [] then []
    else Changes(context, groups[..|groups| - 1])
         + var last := groups[|groups| - 1]; if Accepted(context, last) then [last] else []
  }

  function Fallbacks(context: Context, groups: seq<Group>): seq<Draft> {
    if groups == [] then []
    else Fallbacks(context, groups[..|groups| - 1])
         + var last := groups[|groups| - 1]; if Accepted(context, last) then [] else [last.draft]
  }

  /** A new nonclustered index as a draft describes it. */
  function NewIndex(draft: Draft): Index {
    Index("", NONCLUSTERED, draft.keys, draft.includes, "", false, false, false, false, false, false, {}, None, 0, None)
  }

  /** DDL is withheld from a new index whose key is over the limit. */
  predicate HasDdl(draft: Draft, catalog: Catalog) { KeyWidth(draft.keys, catalog) <= MAX_KEY_BYTES }

  function Creations(context: Context, book: Book): seq<Draft> {
    book.creates + Fallbacks(context, book.groups)
  }

  /** The advice names a definition that provides the keys and columns of the draft: an index as it is,
      a changed one, or a new one. Two changes of one index name two definitions of it. */
  ghost predicate Provided(context: Context, book: Book, draft: Draft) {
    || CoveredByExisting(context, draft)
    || (exists group :: group in Changes(context, book.groups)
          && Covers(Redefined(context, group), draft.keys, draft.includes, context.clustering))
    || (exists other :: other in Creations(context, book)
          && Covers(NewIndex(other), draft.keys, draft.includes, context.clustering))
  }

  // ---------------------------------------------------------------- what grouping keeps

  /** The keys of a group fit its target, and its key width is within the limit. */
  predicate GroupFits(context: Context, group: Group) {
    && group.target in context.rowstore
    && (if group.action.Extend? then CanExtend(group.target, group.draft.keys)
      else CanWiden(group.target, group.draft.keys))
    && KeysFit(context, group.draft.keys)
  }

  predicate KeysFit(context: Context, keys: seq<Key>) {
    |keys| > 1 ==> KeyWidth(keys, context.settings.catalog) <= MAX_KEY_BYTES
  }

  ghost predicate BookFits(context: Context, book: Book) {
    && (forall group :: group in book.groups ==> GroupFits(context, group))
    && (forall draft :: draft in book.creates ==> KeysFit(context, draft.keys))
    && OnePerTarget(book.groups)
  }

  /** The draft is accounted for: left out on purpose, covered, or served by a group or a new index. */
  ghost predicate Booked(context: Context, book: Book, draft: Draft) {
    || draft in book.skipped
    || CoveredByExisting(context, draft)
    || (exists group :: group in book.groups && Serves(group.draft, draft))
    || (exists other :: other in book.creates && Serves(other, draft))
  }

  lemma JoinKeepsFit(context: Context, group: Group, draft: Draft)
    requires GroupFits(context, group) && KeysFit(context, draft.keys)
    requires if group.action.Extend? then CanExtend(group.target, draft.keys)
             else CanWiden(group.target, draft.keys) && Compatible(group.draft.keys, draft.keys)
    ensures var joined := Joined(group.draft, draft);
            GroupFits(context, group.(draft := joined)) && Serves(joined, group.draft) && Serves(joined, draft)
  {
    JoinedServes(group.draft, draft);
  }

  predicate Follows(after: Group, before: Group) {
    Serves(after.draft, before.draft) && after.action == before.action && after.target == before.target
  }

  lemma GroupOnKeeps(context: Context, groups: seq<Group>, action: Action, target: Index, draft: Draft)
    requires forall group :: group in groups ==> GroupFits(context, group)
    requires GroupFits(context, Group(action, target, draft))
             && (action.Widen? ==> JoinsWiden(groups, target, draft.keys))
    requires forall group :: group in groups && group.target.name == target.name ==> group.target == target
    ensures var after := GroupOn(groups, action, target, draft);
            && (forall group :: group in after ==> GroupFits(context, group))
            && (exists group :: group in after && Serves(group.draft, draft))
            && |groups| <= |after|
            && forall i :: 0 <= i < |groups| ==> Follows(after[i], groups[i])
  {
    var at := FindGroup(groups, action, target.name);
    var after := GroupOn(groups, action, target, draft);
    if at == |groups| {
      assert after[at] == Group(action, target, draft) && Serves(after[at].draft, draft);
    } else {
      assert groups[at] in groups;
      JoinKeepsFit(context, groups[at], draft);
      assert after[at] in after;
    }
  }

  lemma GroupOnStaysDistinct(groups: seq<Group>, action: Action, target: Index, draft: Draft)
    requires OnePerTarget(groups)
    ensures OnePerTarget(GroupOn(groups, action, target, draft))
  {
  }

  predicate OnePerTarget(groups: seq<Group>) {
    forall i, j :: 0 <= i < j < |groups| ==>
      (groups[i].action, groups[i].target.name) != (groups[j].action, groups[j].target.name)
  }

  lemma SameTarget(context: Context, a: Index, b: Index)
    requires DistinctNames(context.rowstore) && a in context.rowstore && b in context.rowstore && a.name == b.name
    ensures a == b
  {
    var i :| 0 <= i < |context.rowstore| && context.rowstore[i] == a;
    var j :| 0 <= j < |context.rowstore| && context.rowstore[j] == b;
    assert i == j;
  }

  /** A group that takes a new draft keeps the book in order and serves what it served. */
  lemma GroupingKeeps(context: Context, book: Book, action: Action, target: Index, draft: Draft)
    requires DistinctNames(context.rowstore) && BookFits(context, book)
    requires GroupFits(context, Group(action, target, draft))
             && (action.Widen? ==> JoinsWiden(book.groups, target, draft.keys))
    ensures var after := book.(groups := GroupOn(book.groups, action, target, draft));
            BookFits(context, after) && Booked(context, after, draft)
            && forall other :: Booked(context, book, other) ==> Booked(context, after, other)
  {
    forall group | group in book.groups && group.target.name == target.name ensures group.target == target {
      SameTarget(context, group.target, target);
    }
    GroupOnKeeps(context, book.groups, action, target, draft);
    GroupOnStaysDistinct(book.groups, action, target, draft);
    var after := book.(groups := GroupOn(book.groups, action, target, draft));
    forall other | Booked(context, book, other) ensures Booked(context, after, other) {
      if group :| group in book.groups && Serves(group.draft, other) {
        var i :| 0 <= i < |book.groups| && book.groups[i] == group;
        assert Follows(after.groups[i], group);
        ServesIsTransitive(after.groups[i].draft, group.draft, other);
        assert after.groups[i] in after.groups;
      }
    }
  }

  lemma PlaceKeeps(context: Context, book: Book, draft: Draft)
    requires DistinctNames(context.rowstore) && BookFits(context, book) && KeysFit(context, draft.keys)
    ensures var after := Place(context, book, draft);
            BookFits(context, after) && Booked(context, after, draft)
            && forall other :: Booked(context, book, other) ==> Booked(context, after, other)
  {
    var after := Place(context, book, draft);
    match SpotOf(context, book.groups, draft)
    case Skipping => assert draft in after.skipped;
    case Covering =>
    case Grouping(action, target) => GroupingKeeps(context, book, action, target, draft);
    case Creating => CreatingKeeps(context, book, draft);
  }

  lemma CreatingKeeps(context: Context, book: Book, draft: Draft)
    requires BookFits(context, book) && KeysFit(context, draft.keys)
    ensures var after := book.(creates := book.creates + [draft]);
            BookFits(context, after) && Booked(context, after, draft)
            && forall other :: Booked(context, book, other) ==> Booked(context, after, other)
  {
    var after := book.(creates := book.creates + [draft]);
    assert draft in after.creates && Serves(draft, draft);
    assert forall other :: other in book.creates ==> other in after.creates;
  }

  lemma {:induction false} AllBooked(context: Context, candidates: seq<Draft>)
    requires DistinctNames(context.rowstore)
    ensures var book := PlaceAll(context, candidates);
            BookFits(context, book)
            && forall draft :: draft in candidates ==> Booked(context, book, FittedFor(context, draft))
  {
    if candidates != [] {
      var front, last := candidates[..|candidates| - 1], candidates[|candidates| - 1];
      assert candidates == front + [last];
      AllBooked(context, front);
      FittingKeepsColumns(last, context.settings.catalog, context.lowColumns);
      PlaceKeeps(context, PlaceAll(context, front), FittedFor(context, last));
    }
  }

  lemma {:induction false} OnlyWeakSkipped(context: Context, candidates: seq<Draft>, draft: Draft)
    requires draft in PlaceAll(context, candidates).skipped
    ensures Weak(draft)
  {
    var front := candidates[..|candidates| - 1];
    if draft in PlaceAll(context, front).skipped {
      OnlyWeakSkipped(context, front, draft);
    }
  }

  // ---------------------------------------------------------------- what the advice provides

  /** The changed index covers whatever its group serves. */
  lemma RedefinedCovers(context: Context, group: Group, draft: Draft)
    requires GroupFits(context, group) && Serves(group.draft, draft)
    ensures Covers(Redefined(context, group), draft.keys, draft.includes, context.clustering)
  {
    var changed := Redefined(context, group);
    var names := NameSet(changed.keys);
    var kept, added :=
      Without(group.target.includes, names), Without(group.draft.includes, names + ColumnSet(context.clustering));
    AppendNewHolds(kept, added);
    KeysCarryOver(group.draft.keys, changed.keys);
    forall c | c in ColumnSet(draft.includes) ensures c in Carried(changed, context.clustering) {
      if c !in names && c !in ColumnSet(context.clustering) {
        assert c in ColumnSet(added);
      }
    }
  }

  lemma KeysCarryOver(keys: seq<Key>, longer: seq<Key>)
    requires keys <= longer
    ensures NameSet(keys) <= NameSet(longer)
  {
    forall i | 0 <= i < |keys| ensures keys[i].column in NameSet(longer) {
      assert Names(longer)[i] == keys[i].column;
    }
  }

  /** A changed index keeps every column and covers every request of the original. */
  lemma RedefinedKeepsOriginal(context: Context, group: Group, keys: seq<Key>, includes: seq<Column>)
    requires GroupFits(context, group)
    ensures var changed := Redefined(context, group);
            && group.target.keys <= changed.keys
            && NameSet(group.target.keys) + ColumnSet(group.target.includes)
              <= NameSet(changed.keys) + ColumnSet(changed.includes)
            && (Covers(group.target, keys, includes, context.clustering) ==>
                Covers(changed, keys, includes, context.clustering))
  {
    var changed := Redefined(context, group);
    var names := NameSet(changed.keys);
    AppendNewHolds(Without(group.target.includes, names),
      Without(group.draft.includes, names + ColumnSet(context.clustering)));
    KeysCarryOver(group.target.keys, changed.keys);
    forall c | c in ColumnSet(group.target.includes) ensures c in names + ColumnSet(changed.includes) {
      if c !in names {
        assert c in ColumnSet(Without(group.target.includes, names));
      }
    }
  }

  lemma NewIndexCovers(draft: Draft, other: Draft, clustering: seq<Column>)
    requires Serves(draft, other)
    ensures Covers(NewIndex(draft), other.keys, other.includes, clustering)
  {
  }

  lemma {:induction false} GroupIsDecided(context: Context, groups: seq<Group>, group: Group)
    requires group in groups
    ensures group in Changes(context, groups) || group.draft in Fallbacks(context, groups)
  {
    var front, last := groups[..|groups| - 1], groups[|groups| - 1];
    assert groups == front + [last];
    if group in front {
      GroupIsDecided(context, front, group);
    }
  }

  /** Every fitted candidate is provided by some definition that the advice names, except weak ones
      with fewer than two supports. */
  lemma EveryCandidateIsProvided(context: Context, candidates: seq<Draft>, candidate: Draft)
    requires DistinctNames(context.rowstore) && candidate in candidates
    ensures var fitted := FittedFor(context, candidate);
            Weak(fitted) || Provided(context, PlaceAll(context, candidates), fitted)
  {
    var book, fitted := PlaceAll(context, candidates), FittedFor(context, candidate);
    AllBooked(context, candidates);
    if fitted in book.skipped {
      OnlyWeakSkipped(context, candidates, fitted);
    } else if group :| group in book.groups && Serves(group.draft, fitted) {
      GroupIsDecided(context, book.groups, group);
      if group in Changes(context, book.groups) {
        RedefinedCovers(context, group, fitted);
      } else {
        NewIndexCovers(group.draft, fitted, context.clustering);
        assert group.draft in Creations(context, book);
      }
    } else if other :| other in book.creates && Serves(other, fitted) {
      NewIndexCovers(other, fitted, context.clustering);
      assert other in Creations(context, book);
    }
  }

  lemma {:induction false} DecidedFromGroups(context: Context, groups: seq<Group>)
    ensures forall group :: group in Changes(context, groups) ==> group in groups
    ensures forall draft :: draft in Fallbacks(context, groups) ==>
            exists group :: group in groups && group.draft == draft
  {
    if groups != [] {
      var front, last := groups[..|groups| - 1], groups[|groups| - 1];
      assert groups == front + [last];
      DecidedFromGroups(context, front);
      assert last in groups;
    }
  }

  /** Key width after grouping: a widened index is within the limit, and so is a new index, except
      that a single over-wide key column is advised without DDL. */
  lemma AdvisedKeysFit(context: Context, candidates: seq<Draft>)
    requires DistinctNames(context.rowstore)
    ensures var book := PlaceAll(context, candidates);
            && (forall group :: group in Changes(context, book.groups) && group.action.Widen?
                  ==> KeyWidth(Redefined(context, group).keys, context.settings.catalog) <= 1700)
            && (forall draft ::
                  draft in Creations(context, book) && KeyWidth(draft.keys, context.settings.catalog) > 1700 ==>
                    |draft.keys| == 1 && !HasDdl(draft, context.settings.catalog))
  {
    var book := PlaceAll(context, candidates);
    AllBooked(context, candidates);
    DecidedFromGroups(context, book.groups);
    forall draft | draft in Creations(context, book) && KeyWidth(draft.keys, context.settings.catalog) > 1700
      ensures |draft.keys| == 1 {
      assert KeysFit(context, draft.keys);
      assert draft.keys == [] ==> KeyWidth(draft.keys, context.settings.catalog) == 0;
    }
  }

  /** At most one change per action and target, however many candidates land there. */
  lemma OneChangePerTarget(context: Context, candidates: seq<Draft>)
    requires DistinctNames(context.rowstore)
    ensures OnePerTarget(PlaceAll(context, candidates).groups)
  {
    AllBooked(context, candidates);
  }

  /** No change that is advised loses a column, a key or a covered request of the index it changes. */
  lemma EveryChangeKeepsItsTarget(context: Context, candidates: seq<Draft>, group: Group, keys: seq<Key>,
                                  includes: seq<Column>)
    requires DistinctNames(context.rowstore) && group in Changes(context, PlaceAll(context, candidates).groups)
    ensures var changed := Redefined(context, group);
            && group.target.keys <= changed.keys
            && NameSet(group.target.keys) + ColumnSet(group.target.includes)
              <= NameSet(changed.keys) + ColumnSet(changed.includes)
            && (Covers(group.target, keys, includes, context.clustering) ==>
                Covers(changed, keys, includes, context.clustering))
  {
    AllBooked(context, candidates);
    DecidedFromGroups(context, PlaceAll(context, candidates).groups);
    RedefinedKeepsOriginal(context, group, keys, includes);
  }

  // ---------------------------------------------------------------- supports are counted once

  function GroupCount(groups: seq<Group>, access: int): nat {
    if groups == [] then 0
    else GroupCount(groups[..|groups| - 1], access) + multiset(groups[|groups| - 1].draft.supports)[access]
  }

  function BookCount(book: Book, access: int): nat {
    SupportCount(book.skipped, access) + SupportCount(book.covered, access)
    + GroupCount(book.groups, access) + SupportCount(book.creates, access)
  }

  lemma {:induction false} JoinCounts(groups: seq<Group>, at: nat, draft: Draft, access: int)
    requires at < |groups|
    ensures GroupCount(groups[at := groups[at].(draft := Joined(groups[at].draft, draft))], access)
            == GroupCount(groups, access) + multiset(draft.supports)[access]
  {
    var n, joined := |groups| - 1, groups[at].(draft := Joined(groups[at].draft, draft));
    if at == n {
      assert groups[at := joined][..n] == groups[..n];
    } else {
      JoinCounts(groups[..n], at, draft, access);
      assert groups[at := joined][..n] == groups[..n][at := joined];
    }
  }

  lemma GroupOnCounts(groups: seq<Group>, action: Action, target: Index, draft: Draft, access: int)
    ensures GroupCount(GroupOn(groups, action, target, draft), access)
            == GroupCount(groups, access) + multiset(draft.supports)[access]
  {
    var at := FindGroup(groups, action, target.name);
    if at == |groups| {
      assert (groups + [Group(action, target, draft)])[..at] == groups;
    } else {
      JoinCounts(groups, at, draft, access);
    }
  }

  lemma PlaceCounts(context: Context, book: Book, draft: Draft, access: int)
    ensures BookCount(Place(context, book, draft), access) == BookCount(book, access) + multiset(draft.supports)[access]
  {
    match SpotOf(context, book.groups, draft)
    case Skipping => AppendCounts(book.skipped, draft, access);
    case Covering => AppendCounts(book.covered, draft, access);
    case Grouping(action, target) => GroupOnCounts(book.groups, action, target, draft, access);
    case Creating => AppendCounts(book.creates, draft, access);
  }

  lemma {:induction false} FinishCounts(context: Context, groups: seq<Group>, access: int)
    ensures GroupCount(Changes(context, groups), access) + SupportCount(Fallbacks(context, groups), access)
            == GroupCount(groups, access)
  {
    if groups != [] {
      var front, last := groups[..|groups| - 1], groups[|groups| - 1];
      FinishCounts(context, front, access);
      if Accepted(context, last) {
        ChangeCounts(Changes(context, front), last, access);
        assert Fallbacks(context, groups) == Fallbacks(context, front);
      } else {
        AppendCounts(Fallbacks(context, front), last.draft, access);
        assert Changes(context, groups) == Changes(context, front);
      }
    }
  }

  lemma ChangeCounts(groups: seq<Group>, last: Group, access: int)
    ensures GroupCount(groups + [last], access) == GroupCount(groups, access) + multiset(last.draft.supports)[access]
  {
    assert (groups + [last])[..|groups|] == groups;
  }

  lemma {:induction false} PlacingConserves(context: Context, candidates: seq<Draft>, access: int)
    ensures BookCount(PlaceAll(context, candidates), access) == SupportCount(candidates, access)
  {
    if candidates != [] {
      var front, last := candidates[..|candidates| - 1], candidates[|candidates| - 1];
      PlacingConserves(context, front, access);
      FittingKeepsColumns(last, context.settings.catalog, context.lowColumns);
      PlaceCounts(context, PlaceAll(context, front), FittedFor(context, last), access);
    }
  }

  /** Every access that supports a candidate supports exactly one outcome. */
  lemma AdviceConservesSupports(context: Context, candidates: seq<Draft>, access: int)
    ensures var book := PlaceAll(context, candidates);
            SupportCount(book.skipped, access) + SupportCount(book.covered, access)
            + GroupCount(Changes(context, book.groups), access)
            + SupportCount(Creations(context, book), access) == SupportCount(candidates, access)
  {
    var book := PlaceAll(context, candidates);
    PlacingConserves(context, candidates, access);
    FinishCounts(context, book.groups, access);
    ConcatCounts(book.creates, Fallbacks(context, book.groups), access);
  }
}
