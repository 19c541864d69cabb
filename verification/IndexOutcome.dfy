/** The table after the advice was carried out: every change rebuilds its index from the catalogued
    definition, so that of two changes of one index the later undoes the earlier. */
module IndexOutcome {
  import opened Wrappers
  import opened IndexModel
  import opened IndexCandidates
  import opened IndexReconcile
  import opened IndexBounds

  // ---------------------------------------------------------------- carrying the advice out

  /** The definition of an index after these changes ran in this order. */
  function DefinitionAfter(context: Context, index: Index, order: seq<Group>): Index {
    if order == [] then index
    else
      var last := order[|order| - 1];
      if last.target == index then Redefined(context, last)
      else DefinitionAfter(context, index, order[..|order| - 1])
  }

  function Redefinitions(context: Context, indexes: seq<Index>, order: seq<Group>): (table: seq<Index>)
    ensures |table| == |indexes|
    ensures forall i :: 0 <= i < |indexes| ==> table[i] == DefinitionAfter(context, indexes[i], order)
  {
    seq(|indexes|, i requires 0 <= i < |indexes| => DefinitionAfter(context, indexes[i], order))
  }

  function NewIndexes(drafts: seq<Draft>): (table: seq<Index>)
    ensures |table| == |drafts| && forall i :: 0 <= i < |drafts| ==> table[i] == NewIndex(drafts[i])
  {
    seq(|drafts|, i requires 0 <= i < |drafts| => NewIndex(drafts[i]))
  }

  function TableAfter(context: Context, candidates: seq<Draft>, order: seq<Group>): seq<Index> {
    Redefinitions(context, context.rowstore, order) + NewIndexes(Creations(context, PlaceAll(context, candidates)))
  }

  /** The changes of the advice in some order. */
  predicate Orders(context: Context, candidates: seq<Draft>, order: seq<Group>) {
    var changes := Changes(context, PlaceAll(context, candidates).groups);
    (forall group :: group in order ==> group in changes) && forall group :: group in changes ==> group in order
  }

  /** Some index of the table covers the request. */
  ghost predicate CoveredIn(context: Context, table: seq<Index>, keys: seq<Key>, includes: seq<Column>) {
    exists index :: index in table && Covers(index, keys, includes, context.clustering)
  }

  /** The advice both extends and widens the index that this group changes. */
  ghost predicate HasRival(context: Context, candidates: seq<Draft>, group: Group) {
    exists other :: other in Changes(context, PlaceAll(context, candidates).groups)
                    && other.target == group.target && other.action != group.action
  }

  ghost predicate NoRivals(context: Context, candidates: seq<Draft>) {
    forall group :: group in Changes(context, PlaceAll(context, candidates).groups) ==>
      !HasRival(context, candidates, group)
  }

  // ---------------------------------------------------------------- which change stays

  lemma {:induction false} DefinitionIsSome(context: Context, index: Index, order: seq<Group>)
    ensures var after := DefinitionAfter(context, index, order);
            (after == index && forall group :: group in order ==> group.target != index)
            || exists group :: group in order && group.target == index && after == Redefined(context, group)
  {
    if order != [] {
      var front, last := order[..|order| - 1], order[|order| - 1];
      assert order == front + [last];
      DefinitionIsSome(context, index, front);
      if last.target == index {
        assert last in order;
      } else if DefinitionAfter(context, index, front) != index {
        var group :| group in front && group.target == index
                     && DefinitionAfter(context, index, front) == Redefined(context, group);
        assert group in order;
      }
    }
  }

  lemma OneGroupEach(groups: seq<Group>, a: Group, b: Group)
    requires OnePerTarget(groups) && a in groups && b in groups && a.action == b.action && a.target == b.target
    ensures a == b
  {
    var i :| 0 <= i < |groups| && groups[i] == a;
    var j :| 0 <= j < |groups| && groups[j] == b;
    assert i == j;
  }

  /** Without a rival, the definition that a change gives its target stays, whatever the order. */
  lemma ChangeStays(context: Context, candidates: seq<Draft>, order: seq<Group>, group: Group)
    requires DistinctNames(context.rowstore) && Orders(context, candidates, order)
    requires group in Changes(context, PlaceAll(context, candidates).groups) && !HasRival(context, candidates, group)
    ensures DefinitionAfter(context, group.target, order) == Redefined(context, group)
  {
    var groups := PlaceAll(context, candidates).groups;
    DefinitionIsSome(context, group.target, order);
    DecidedFromGroups(context, groups);
    AllBooked(context, candidates);
    forall other | other in order && other.target == group.target ensures other == group {
      OneGroupEach(groups, other, group);
    }
  }

  /** What an index covers as catalogued it covers after the changes. */
  lemma ExistingStillCovers(context: Context, candidates: seq<Draft>, order: seq<Group>, index: Index,
                            keys: seq<Key>, includes: seq<Column>)
    requires DistinctNames(context.rowstore) && Orders(context, candidates, order)
    requires Covers(index, keys, includes, context.clustering)
    ensures Covers(DefinitionAfter(context, index, order), keys, includes, context.clustering)
  {
    DefinitionIsSome(context, index, order);
    forall group | group in order && group.target == index
      ensures Covers(Redefined(context, group), keys, includes, context.clustering) {
      EveryChangeKeepsItsTarget(context, candidates, group, keys, includes);
    }
  }

  lemma InTable(context: Context, candidates: seq<Draft>, order: seq<Group>, index: Index)
    requires index in context.rowstore
    ensures DefinitionAfter(context, index, order) in TableAfter(context, candidates, order)
  {
    var i :| 0 <= i < |context.rowstore| && context.rowstore[i] == index;
    var table := TableAfter(context, candidates, order);
    assert table[i] == DefinitionAfter(context, index, order);
  }

  lemma NewInTable(context: Context, candidates: seq<Draft>, order: seq<Group>, draft: Draft)
    requires draft in Creations(context, PlaceAll(context, candidates))
    ensures NewIndex(draft) in TableAfter(context, candidates, order)
  {
    var created := Creations(context, PlaceAll(context, candidates));
    var i :| 0 <= i < |created| && created[i] == draft;
    var table := TableAfter(context, candidates, order);
    assert table[|context.rowstore| + i] == NewIndex(created[i]);
  }

  // ---------------------------------------------------------------- what the table covers

  /** A fitted candidate is lost only when a change that serves it has a rival. */
  ghost predicate Endangered(context: Context, candidates: seq<Draft>, fitted: Draft) {
    exists group :: group in Changes(context, PlaceAll(context, candidates).groups)
                    && Serves(group.draft, fitted) && HasRival(context, candidates, group)
  }

  lemma GroupCovers(context: Context, candidates: seq<Draft>, order: seq<Group>, group: Group, fitted: Draft)
    requires DistinctNames(context.rowstore) && Orders(context, candidates, order)
    requires group in PlaceAll(context, candidates).groups && GroupFits(context, group) && Serves(group.draft, fitted)
    ensures CoveredIn(context, TableAfter(context, candidates, order), fitted.keys, fitted.includes)
            || Endangered(context, candidates, fitted)
  {
    var groups := PlaceAll(context, candidates).groups;
    GroupIsDecided(context, groups, group);
    if group in Changes(context, groups) {
      if !HasRival(context, candidates, group) {
        ChangeStays(context, candidates, order, group);
        RedefinedCovers(context, group, fitted);
        InTable(context, candidates, order, group.target);
      }
    } else {
      assert group.draft in Creations(context, PlaceAll(context, candidates));
      NewIndexCovers(group.draft, fitted, context.clustering);
      NewInTable(context, candidates, order, group.draft);
    }
  }

  /** Carrying the advice out, in any order: every fitted candidate is weak, or covered by the table
      afterwards, or served by a change of an index that another change rebuilds too. */
  lemma AdviceCovers(context: Context, candidates: seq<Draft>, order: seq<Group>, candidate: Draft)
    requires DistinctNames(context.rowstore) && Orders(context, candidates, order) && candidate in candidates
    ensures var fitted := FittedFor(context, candidate);
            || Weak(fitted)
            || CoveredIn(context, TableAfter(context, candidates, order), fitted.keys, fitted.includes)
            || Endangered(context, candidates, fitted)
  {
    var book, fitted := PlaceAll(context, candidates), FittedFor(context, candidate);
    AllBooked(context, candidates);
    assert Booked(context, book, fitted);
    if fitted in book.skipped {
      OnlyWeakSkipped(context, candidates, fitted);
    } else if index :| index in context.rowstore && Covers(index, fitted.keys, fitted.includes, context.clustering) {
      ExistingStillCovers(context, candidates, order, index, fitted.keys, fitted.includes);
      InTable(context, candidates, order, index);
    } else if group :| group in book.groups && Serves(group.draft, fitted) {
      GroupCovers(context, candidates, order, group, fitted);
    } else if other :| other in book.creates && Serves(other, fitted) {
      assert other in Creations(context, book);
      NewIndexCovers(other, fitted, context.clustering);
      NewInTable(context, candidates, order, other);
    }
  }

  /** When no index is both extended and widened, the table covers every fitted candidate that is
      not weak, in whatever order the advice is carried out. */
  lemma AdviceCoversEveryCandidate(context: Context, candidates: seq<Draft>, order: seq<Group>, candidate: Draft)
    requires DistinctNames(context.rowstore) && Orders(context, candidates, order) && candidate in candidates
    requires NoRivals(context, candidates)
    ensures var fitted := FittedFor(context, candidate);
            Weak(fitted) || CoveredIn(context, TableAfter(context, candidates, order), fitted.keys, fitted.includes)
  {
    AdviceCovers(context, candidates, order, candidate);
  }

  // ---------------------------------------------------------------- in every order, in some order

  /** The table covers the request in whatever order the changes ran. */
  ghost predicate AlwaysCovered(context: Context, candidates: seq<Draft>, keys: seq<Key>, includes: seq<Column>) {
    forall order :: Orders(context, candidates, order) ==>
      CoveredIn(context, TableAfter(context, candidates, order), keys, includes)
  }

  ghost predicate SometimesCovered(context: Context, candidates: seq<Draft>, keys: seq<Key>, includes: seq<Column>) {
    exists order :: Orders(context, candidates, order)
                    && CoveredIn(context, TableAfter(context, candidates, order), keys, includes)
  }

  predicate Targets(changes: seq<Group>, index: Index) { exists group :: group in changes && group.target == index }

  /** Every definition the advice has for the index covers the request: those of its changes, or the
      catalogued one when no change targets it. */
  predicate CoversFirmly(context: Context, changes: seq<Group>, index: Index, keys: seq<Key>, includes: seq<Column>) {
    && (!Targets(changes, index) ==> Covers(index, keys, includes, context.clustering))
    && forall group :: group in changes && group.target == index ==>
         Covers(Redefined(context, group), keys, includes, context.clustering)
  }

  ghost predicate CoveredByNew(context: Context, candidates: seq<Draft>, keys: seq<Key>, includes: seq<Column>) {
    exists draft :: draft in Creations(context, PlaceAll(context, candidates))
                    && Covers(NewIndex(draft), keys, includes, context.clustering)
  }

  /** A new index covers the request, or some index does whichever of its changes runs last. */
  ghost predicate FirmlyCovered(context: Context, candidates: seq<Draft>, keys: seq<Key>, includes: seq<Column>) {
    || CoveredByNew(context, candidates, keys, includes)
    || exists index :: index in context.rowstore
         && CoversFirmly(context, Changes(context, PlaceAll(context, candidates).groups), index, keys, includes)
  }

  /** The changes whose definition covers the request, or those whose definition does not. */
  function Split(context: Context, changes: seq<Group>, keys: seq<Key>, includes: seq<Column>, covering: bool)
      : (part: seq<Group>)
    ensures forall group :: group in part <==>
              group in changes && Covers(Redefined(context, group), keys, includes, context.clustering) == covering
  {
    if changes == [] then []
    else
      var front, last := changes[..|changes| - 1], changes[|changes| - 1];
      assert changes == front + [last];
      Split(context, front, keys, includes, covering)
      + if Covers(Redefined(context, last), keys, includes, context.clustering) == covering then [last] else []
  }

  /** What runs later decides. */
  lemma {:induction false} LaterDecides(context: Context, index: Index, earlier: seq<Group>, later: seq<Group>)
    ensures DefinitionAfter(context, index, earlier + later)
            == if Targets(later, index) then DefinitionAfter(context, index, later)
               else DefinitionAfter(context, index, earlier)
  {
    if later == [] {
      assert earlier + later == earlier;
    } else {
      var front, last := later[..|later| - 1], later[|later| - 1];
      assert later == front + [last];
      assert (earlier + later)[..|earlier + later| - 1] == earlier + front;
      LaterDecides(context, index, earlier, front);
      if last.target == index {
        assert last in later;
      } else {
        assert Targets(later, index) <==> Targets(front, index);
      }
    }
  }

  /** Running one part of the changes last gives every index it targets one of its definitions. */
  lemma PartRunsLast(context: Context, candidates: seq<Draft>, index: Index, keys: seq<Key>, includes: seq<Column>,
                     covering: bool)
    ensures var changes := Changes(context, PlaceAll(context, candidates).groups);
            var order := Split(context, changes, keys, includes, !covering)
                         + Split(context, changes, keys, includes, covering);
            && Orders(context, candidates, order)
            && (Targets(Split(context, changes, keys, includes, covering), index) ==>
                  Covers(DefinitionAfter(context, index, order), keys, includes, context.clustering) == covering)
  {
    var changes := Changes(context, PlaceAll(context, candidates).groups);
    var earlier, later :=
      Split(context, changes, keys, includes, !covering), Split(context, changes, keys, includes, covering);
    LaterDecides(context, index, earlier, later);
    DefinitionIsSome(context, index, later);
    forall group ensures group in earlier + later <==> group in changes {}
  }

  lemma InTableIsSome(context: Context, candidates: seq<Draft>, order: seq<Group>, index: Index)
    requires index in TableAfter(context, candidates, order)
    ensures (exists catalogued ::
            catalogued in context.rowstore && index == DefinitionAfter(context, catalogued, order))
            || (exists draft :: draft in Creations(context, PlaceAll(context, candidates)) && index == NewIndex(draft))
  {
    var table, created := TableAfter(context, candidates, order), Creations(context, PlaceAll(context, candidates));
    var i :| 0 <= i < |table| && table[i] == index;
    if i < |context.rowstore| {
      assert context.rowstore[i] in context.rowstore;
    } else {
      assert created[i - |context.rowstore|] in created;
    }
  }

  lemma FirmlyCoveredStays(context: Context, candidates: seq<Draft>, order: seq<Group>, keys: seq<Key>,
                           includes: seq<Column>)
    requires Orders(context, candidates, order) && FirmlyCovered(context, candidates, keys, includes)
    ensures CoveredIn(context, TableAfter(context, candidates, order), keys, includes)
  {
    if CoveredByNew(context, candidates, keys, includes) {
      var draft :| draft in Creations(context, PlaceAll(context, candidates))
                   && Covers(NewIndex(draft), keys, includes, context.clustering);
      NewInTable(context, candidates, order, draft);
    } else {
      var changes := Changes(context, PlaceAll(context, candidates).groups);
      var index :| index in context.rowstore && CoversFirmly(context, changes, index, keys, includes);
      DefinitionIsSome(context, index, order);
      InTable(context, candidates, order, index);
    }
  }

  /** Not firmly covered: it is lost when the changes that cover it run before the others. */
  lemma LooselyCoveredIsLost(context: Context, candidates: seq<Draft>, keys: seq<Key>, includes: seq<Column>)
      returns (order: seq<Group>)
    requires !FirmlyCovered(context, candidates, keys, includes)
    ensures Orders(context, candidates, order)
    ensures !CoveredIn(context, TableAfter(context, candidates, order), keys, includes)
  {
    var changes := Changes(context, PlaceAll(context, candidates).groups);
    order := Split(context, changes, keys, includes, true) + Split(context, changes, keys, includes, false);
    PartRunsLast(context, candidates, NewIndex(Draft([], [], [], 0.0, false)), keys, includes, false);
    forall index | index in TableAfter(context, candidates, order)
      ensures !Covers(index, keys, includes, context.clustering) {
      InTableIsSome(context, candidates, order, index);
      if catalogued :| catalogued in context.rowstore && index == DefinitionAfter(context, catalogued, order) {
        PartRunsLast(context, candidates, catalogued, keys, includes, false);
        LooseDefinition(context, candidates, catalogued, keys, includes);
      }
    }
  }

  lemma LooseDefinition(context: Context, candidates: seq<Draft>, index: Index, keys: seq<Key>, includes: seq<Column>)
    requires !CoversFirmly(context, Changes(context, PlaceAll(context, candidates).groups), index, keys, includes)
    ensures var changes := Changes(context, PlaceAll(context, candidates).groups);
            var order := Split(context, changes, keys, includes, true) + Split(context, changes, keys, includes, false);
            !Covers(DefinitionAfter(context, index, order), keys, includes, context.clustering)
  {
    var changes := Changes(context, PlaceAll(context, candidates).groups);
    var order := Split(context, changes, keys, includes, true) + Split(context, changes, keys, includes, false);
    PartRunsLast(context, candidates, index, keys, includes, false);
    if Targets(changes, index) {
      var group :| group in changes && group.target == index
                   && !Covers(Redefined(context, group), keys, includes, context.clustering);
      assert group in Split(context, changes, keys, includes, false);
    } else {
      DefinitionIsSome(context, index, order);
    }
  }

  /** A request is covered in every order if and only if it is firmly covered. */
  lemma AlwaysCoveredExactly(context: Context, candidates: seq<Draft>, keys: seq<Key>, includes: seq<Column>)
    ensures AlwaysCovered(context, candidates, keys, includes) <==> FirmlyCovered(context, candidates, keys, includes)
  {
    if FirmlyCovered(context, candidates, keys, includes) {
      forall order | Orders(context, candidates, order)
        ensures CoveredIn(context, TableAfter(context, candidates, order), keys, includes) {
        FirmlyCoveredStays(context, candidates, order, keys, includes);
      }
    } else {
      var order := LooselyCoveredIsLost(context, candidates, keys, includes);
      assert Orders(context, candidates, order);
    }
  }

  /** What every candidate that is not weak asks for. */
  ghost predicate AllAlwaysCovered(context: Context, candidates: seq<Draft>) {
    forall candidate :: candidate in candidates ==>
      var fitted := FittedFor(context, candidate);
      Weak(fitted) || AlwaysCovered(context, candidates, fitted.keys, fitted.includes)
  }

  ghost predicate EndangeredAreFirm(context: Context, candidates: seq<Draft>) {
    forall candidate :: candidate in candidates ==>
      var fitted := FittedFor(context, candidate);
      Weak(fitted) || !Endangered(context, candidates, fitted)
      || FirmlyCovered(context, candidates, fitted.keys, fitted.includes)
  }

  /** All candidates are covered in every order if and only if those are firmly covered that are served
      by a change with a rival; without rivals they always are. */
  lemma AdviceCoversExactly(context: Context, candidates: seq<Draft>)
    requires DistinctNames(context.rowstore)
    ensures AllAlwaysCovered(context, candidates) <==> EndangeredAreFirm(context, candidates)
    ensures NoRivals(context, candidates) ==> AllAlwaysCovered(context, candidates)
  {
    forall candidate | candidate in candidates
      ensures var fitted := FittedFor(context, candidate);
              && (AlwaysCovered(context, candidates, fitted.keys, fitted.includes)
                  <==> FirmlyCovered(context, candidates, fitted.keys, fitted.includes))
              && (Weak(fitted) || Endangered(context, candidates, fitted)
                  || AlwaysCovered(context, candidates, fitted.keys, fitted.includes)) {
      var fitted := FittedFor(context, candidate);
      AlwaysCoveredExactly(context, candidates, fitted.keys, fitted.includes);
      if !Weak(fitted) && !Endangered(context, candidates, fitted) {
        forall order | Orders(context, candidates, order)
          ensures CoveredIn(context, TableAfter(context, candidates, order), fitted.keys, fitted.includes) {
          AdviceCovers(context, candidates, order, candidate);
        }
      }
    }
  }

  /** In some order a request is covered if and only if some definition that the advice names covers it. */
  lemma SometimesCoveredExactly(context: Context, candidates: seq<Draft>, draft: Draft)
    requires DistinctNames(context.rowstore)
    ensures SometimesCovered(context, candidates, draft.keys, draft.includes)
            <==> Provided(context, PlaceAll(context, candidates), draft)
  {
    if SometimesCovered(context, candidates, draft.keys, draft.includes) {
      var order :| Orders(context, candidates, order)
                   && CoveredIn(context, TableAfter(context, candidates, order), draft.keys, draft.includes);
      CoveredIsProvided(context, candidates, order, draft);
    }
    if Provided(context, PlaceAll(context, candidates), draft) {
      ProvidedIsCovered(context, candidates, draft);
    }
  }

  lemma CoveredIsProvided(context: Context, candidates: seq<Draft>, order: seq<Group>, draft: Draft)
    requires Orders(context, candidates, order)
    requires CoveredIn(context, TableAfter(context, candidates, order), draft.keys, draft.includes)
    ensures Provided(context, PlaceAll(context, candidates), draft)
  {
    var index :| index in TableAfter(context, candidates, order)
                 && Covers(index, draft.keys, draft.includes, context.clustering);
    InTableIsSome(context, candidates, order, index);
    if catalogued :| catalogued in context.rowstore && index == DefinitionAfter(context, catalogued, order) {
      DefinitionIsSome(context, catalogued, order);
    }
  }

  lemma ProvidedIsCovered(context: Context, candidates: seq<Draft>, draft: Draft)
    requires DistinctNames(context.rowstore) && Provided(context, PlaceAll(context, candidates), draft)
    ensures SometimesCovered(context, candidates, draft.keys, draft.includes)
  {
    var changes := Changes(context, PlaceAll(context, candidates).groups);
    var covering := Split(context, changes, draft.keys, draft.includes, true);
    var order := Split(context, changes, draft.keys, draft.includes, false) + covering;
    PartRunsLast(context, candidates, NewIndex(draft), draft.keys, draft.includes, true);
    if index :| index in context.rowstore && Covers(index, draft.keys, draft.includes, context.clustering) {
      ExistingStillCovers(context, candidates, order, index, draft.keys, draft.includes);
      InTable(context, candidates, order, index);
    } else if group :| group in changes
                       && Covers(Redefined(context, group), draft.keys, draft.includes, context.clustering) {
      assert group in covering;
      PartRunsLast(context, candidates, group.target, draft.keys, draft.includes, true);
      AllBooked(context, candidates);
      DecidedFromGroups(context, PlaceAll(context, candidates).groups);
      InTable(context, candidates, order, group.target);
    } else {
      var other :| other in Creations(context, PlaceAll(context, candidates))
                   && Covers(NewIndex(other), draft.keys, draft.includes, context.clustering);
      NewInTable(context, candidates, order, other);
    }
  }

  /** So every candidate that is not weak has an order in which it is covered. */
  lemma EveryCandidateHasAnOrder(context: Context, candidates: seq<Draft>, candidate: Draft)
    requires DistinctNames(context.rowstore) && candidate in candidates
    ensures var fitted := FittedFor(context, candidate);
            Weak(fitted) || SometimesCovered(context, candidates, fitted.keys, fitted.includes)
  {
    EveryCandidateIsProvided(context, candidates, candidate);
    SometimesCoveredExactly(context, candidates, FittedFor(context, candidate));
  }

  /** A new index covers the request, or another index does whichever of its changes runs last. */
  ghost predicate FirmlyCoveredBeside(context: Context, candidates: seq<Draft>, target: Index,
                                      keys: seq<Key>, includes: seq<Column>) {
    || CoveredByNew(context, candidates, keys, includes)
    || exists index :: index in context.rowstore && index != target
         && CoversFirmly(context, Changes(context, PlaceAll(context, candidates).groups), index, keys, includes)
  }

  /** An index is extended and widened: what was to widen it is lost in some order, unless something
      besides that index covers it firmly. */
  lemma RivalsLoseTheWidened(context: Context, candidates: seq<Draft>, extend: Group, widen: Group, fitted: Draft)
    requires extend in Changes(context, PlaceAll(context, candidates).groups) && extend.action.Extend?
    requires widen in Changes(context, PlaceAll(context, candidates).groups) && widen.action.Widen?
    requires extend.target == widen.target && CanWiden(widen.target, fitted.keys)
    ensures AlwaysCovered(context, candidates, fitted.keys, fitted.includes)
            <==> FirmlyCoveredBeside(context, candidates, widen.target, fitted.keys, fitted.includes)
  {
    AlwaysCoveredExactly(context, candidates, fitted.keys, fitted.includes);
    assert !Covers(Redefined(context, extend), fitted.keys, fitted.includes, context.clustering);
  }

  // ---------------------------------------------------------------- from the designed candidate to the table

  /** How many of the request's keys the fitted candidate keeps. */
  function KeptKeys(fitted: Draft, request: Draft): nat {
    if |fitted.keys| < |request.keys| then |fitted.keys| else |request.keys|
  }

  /** What a request asks of an index when only its first k keys have to be keys. */
  ghost predicate CoveredUpTo(context: Context, table: seq<Index>, request: Draft, k: nat)
    requires k <= |request.keys|
  {
    CoveredIn(context, table, request.keys[..k], request.includes + Names(request.keys[k..]))
  }

  lemma FittedStillServes(context: Context, merged: Draft, request: Draft)
    requires Serves(merged, request)
    ensures var fitted := FittedFor(context, merged);
            var k := KeptKeys(fitted, request);
            request.keys[..k] <= fitted.keys
            && ColumnSet(request.includes + Names(request.keys[k..]))
              <= NameSet(fitted.keys) + ColumnSet(fitted.includes)
  {
    var fitted := FittedFor(context, merged);
    var k := KeptKeys(fitted, request);
    FittingKeepsColumns(merged, context.settings.catalog, context.lowColumns);
    KeysCarryOver(request.keys, merged.keys);
    CutNames(request.keys, k);
    assert ColumnSet(request.includes + Names(request.keys[k..]))
        == ColumnSet(request.includes) + ColumnSet(Names(request.keys[k..]));
  }

  lemma CoveringServes(context: Context, index: Index, wider: Draft, keys: seq<Key>, includes: seq<Column>)
    requires Covers(index, wider.keys, wider.includes, context.clustering)
    requires keys <= wider.keys && ColumnSet(includes) <= NameSet(wider.keys) + ColumnSet(wider.includes)
    ensures Covers(index, keys, includes, context.clustering)
  {
    KeysCarryOver(wider.keys, index.keys);
  }

  lemma CoveredAlike(context: Context, table: seq<Index>, wider: Draft, keys: seq<Key>, includes: seq<Column>)
    requires CoveredIn(context, table, wider.keys, wider.includes)
    requires keys <= wider.keys && ColumnSet(includes) <= NameSet(wider.keys) + ColumnSet(wider.includes)
    ensures CoveredIn(context, table, keys, includes)
  {
    var index :| index in table && Covers(index, wider.keys, wider.includes, context.clustering);
    CoveringServes(context, index, wider, keys, includes);
  }

  /** End to end, over merging, fitting, reconciling and carrying out: let a merged candidate that is
      not weak serve a designed one. An index of the resulting table starts with as many keys of the
      designed candidate as fitting kept and carries its other columns; so it covers the designed
      candidate when none of its keys was moved. It is covered as well when the merged one is. */
  lemma DesignedCandidateIsCovered(settings: Settings, existing: seq<Index>, lowColumns: set<Column>,
                                   designed: seq<Draft>, request: Draft, merged: Draft, order: seq<Group>)
    requires DistinctNames(existing) && request in designed
    requires merged in Merged(settings, designed) && Serves(merged, request)
    requires var context := ContextOf(settings, existing, lowColumns);
             && Orders(context, Merged(settings, designed), order) && NoRivals(context, Merged(settings, designed))
             && !Weak(FittedFor(context, merged))
    ensures var context := ContextOf(settings, existing, lowColumns);
            var table := TableAfter(context, Merged(settings, designed), order);
            var k := KeptKeys(FittedFor(context, merged), request);
            && CoveredUpTo(context, table, request, k)
            && (k == |request.keys| || CoveredIn(context, table, merged.keys, merged.includes)
                ==> CoveredIn(context, table, request.keys, request.includes))
  {
    var context := ContextOf(settings, existing, lowColumns);
    var candidates := Merged(settings, designed);
    var table, fitted := TableAfter(context, candidates, order), FittedFor(context, merged);
    var k := KeptKeys(fitted, request);
    RowstoreStaysDistinct(existing);
    AdviceCoversEveryCandidate(context, candidates, order, merged);
    FittedStillServes(context, merged, request);
    CoveredAlike(context, table, fitted, request.keys[..k], request.includes + Names(request.keys[k..]));
    if k == |request.keys| {
      assert request.keys[..k] == request.keys && Names(request.keys[k..]) == [];
      assert request.includes + [] == request.includes;
    } else if CoveredIn(context, table, merged.keys, merged.includes) {
      CoveredAlike(context, table, merged, request.keys, request.includes);
    }
  }

  /** And some merged candidate serves it. */
  lemma DesignedCandidateIsServed(settings: Settings, designed: seq<Draft>, request: Draft) returns (merged: Draft)
    requires request in designed
    ensures merged in Merged(settings, designed) && Serves(merged, request)
  {
    MergedServesEveryCandidate(settings, designed, request);
    var candidates := Merged(settings, designed);
    var i :| 0 <= i < |candidates| && Serves(candidates[i], request);
    merged := candidates[i];
  }

  /** Every access that supports a designed candidate supports exactly one outcome. */
  lemma EverySupportHasOneOutcome(context: Context, designed: seq<Draft>, access: int)
    ensures var book := PlaceAll(context, Merged(context.settings, designed));
            SupportCount(book.skipped, access) + SupportCount(book.covered, access)
            + GroupCount(Changes(context, book.groups), access)
            + SupportCount(Creations(context, book), access) == SupportCount(designed, access)
  {
    MergedConserves(context.settings, designed, access);
    AdviceConservesSupports(context, Merged(context.settings, designed), access);
  }

  // ---------------------------------------------------------------- an index extended and widened

  /** A candidate of two keys. */
  function TwoKeys(first: Column, second: Column, included: seq<Column>): Draft {
    Draft([Key(first, Ascending), Key(second, Ascending)], included, [], 1.0, false)
  }

  lemma TwoKeysFit(context: Context, draft: Draft)
    requires |draft.keys| == 2 && KeyWidth(draft.keys, context.settings.catalog) <= MAX_KEY_BYTES
    ensures FittedFor(context, draft) == draft && KeepsAllKeys(context, draft)
  {
    assert Names(draft.keys[2..]) == [];
  }

  lemma TwoKeyNames(a: Column, b: Column, ys: seq<Column>)
    ensures Names(TwoKeys(a, b, ys).keys) == [a, b] && NameSet(TwoKeys(a, b, ys).keys) == {a, b}
  {
    assert Names(TwoKeys(a, b, ys).keys) == [a, b];
  }

  lemma TwoKeysAreNotCovered(context: Context, a: Column, b: Column, ys: seq<Column>)
    requires context == OneIndexTable(context.settings, a)
    ensures !CoveredByExisting(context, TwoKeys(a, b, ys))
    ensures !CanExtend(context.rowstore[0], TwoKeys(a, b, ys).keys)
  {
    assert |context.rowstore[0].keys| < |TwoKeys(a, b, ys).keys|;
  }

  lemma OneRowFinds(ix: Index, keys: seq<Key>)
    ensures FirstExtendable([ix], keys) == if CanExtend(ix, keys) then Some(ix) else None
    ensures FirstWidenable([ix], keys) == if CanWiden(ix, keys) then Some(ix) else None
  {
    assert [ix][1..] == [];
  }

  lemma TwoKeysWiden(context: Context, groups: seq<Group>, a: Column, b: Column, ys: seq<Column>)
    requires context == OneIndexTable(context.settings, a)
    requires FindGroup(groups, Widen, context.rowstore[0].name) == |groups|
    ensures SpotOf(context, groups, TwoKeys(a, b, ys)) == Grouping(Widen, context.rowstore[0])
  {
    var draft, ix := TwoKeys(a, b, ys), context.rowstore[0];
    TwoKeysAreNotCovered(context, a, b, ys);
    assert CanWiden(ix, draft.keys) by {
      assert ix.keys == draft.keys[..1];
    }
    OneRowFinds(ix, draft.keys);
  }

  /** The change of one group that adds the columns of its draft. */
  lemma IncludesAreAccepted(context: Context, action: Action, draft: Draft)
    requires |context.rowstore| == 1 && context.rowstore[0].includes == [] && context.clustering == []
    requires action.Extend? ==> context.rowstore[0].keys == draft.keys
    requires Shaped(context.settings, draft)
    ensures var group := Group(action, context.rowstore[0], draft);
            Accepted(context, group)
            && Redefined(context, group) == context.rowstore[0].(keys := draft.keys, includes := draft.includes)
  {
    PlainRedefinition(context, Group(action, context.rowstore[0], draft));
  }

  lemma TwoChanges(context: Context, e: Group, w: Group)
    requires Accepted(context, e) && Accepted(context, w)
    ensures Changes(context, [e, w]) == [e, w] && Fallbacks(context, [e, w]) == []
  {
    OneMoreChange(context, [], e);
    assert [] + [e] == [e];
    OneMoreChange(context, [e], w);
    assert [e] + [w] == [e, w];
  }

  /** An accepted group behind others. */
  lemma OneMoreChange(context: Context, groups: seq<Group>, last: Group)
    requires Accepted(context, last)
    ensures Changes(context, groups + [last]) == Changes(context, groups) + [last]
    ensures Fallbacks(context, groups + [last]) == Fallbacks(context, groups)
  {
    assert (groups + [last])[..|groups|] == groups;
  }

  lemma ExtendThenWiden(context: Context, a: Column, b: Column, xs: seq<Column>, ys: seq<Column>)
    requires context == OneIndexTable(context.settings, a) && xs != [] && xs[0] != a
    requires KeyWidth(TwoKeys(a, b, ys).keys, context.settings.catalog) <= MAX_KEY_BYTES
    ensures var ix, first, second := context.rowstore[0], Including(a, xs, 2.0), TwoKeys(a, b, ys);
            PlaceAll(context, [first, second]) == Book([], [], [Group(Extend, ix, first), Group(Widen, ix, second)], [])
  {
    var ix, first, second := context.rowstore[0], Including(a, xs, 2.0), TwoKeys(a, b, ys);
    PlacePair(context, first, second);
    OneKeyFits(context, first);
    TwoKeysFit(context, second);
    IncludingExtends(context, [], a, xs, 2.0);
    assert GroupOn([], Extend, ix, first) == [Group(Extend, ix, first)];
    assert [Group(Extend, ix, first)][1..] == [];
    TwoKeysWiden(context, [Group(Extend, ix, first)], a, b, ys);
  }

  /** Two lists of included columns that share none with each other and with two keys. */
  predicate Rivals(settings: Settings, a: Column, b: Column, xs: seq<Column>, ys: seq<Column>) {
    && a != b && a !in xs && a !in ys && b !in xs && b !in ys && OverTogether(settings, xs, ys)
    && KeyWidth(TwoKeys(a, b, ys).keys, settings.catalog) <= MAX_KEY_BYTES
  }

  lemma RivalsAreShaped(settings: Settings, a: Column, b: Column, xs: seq<Column>, ys: seq<Column>)
    requires Rivals(settings, a, b, xs, ys)
    ensures Shaped(settings, Including(a, xs, 2.0)) && Shaped(settings, TwoKeys(a, b, ys))
  {
    DistinctSplits(xs, ys);
    IncludingIsShaped(settings, a, xs, 2.0);
    TwoKeyNames(a, b, ys);
  }

  lemma RivalsOverflow(settings: Settings, a: Column, b: Column, xs: seq<Column>, ys: seq<Column>)
    requires Rivals(settings, a, b, xs, ys)
    ensures Absorb(Including(a, xs, 2.0), TwoKeys(a, b, ys)).includes == xs + ys
  {
    var keys := TwoKeys(a, b, ys).keys;
    TwoKeyNames(a, b, ys);
    BothAreKept(xs, ys, {a, b});
    assert Longer(keys, OneKey(a)) == keys;
  }

  lemma RivalsAreAccepted(context: Context, a: Column, b: Column, xs: seq<Column>, ys: seq<Column>)
    requires context == OneIndexTable(context.settings, a) && Rivals(context.settings, a, b, xs, ys)
    ensures var ix, first, second := context.rowstore[0], Including(a, xs, 2.0), TwoKeys(a, b, ys);
            var book, extend, widen :=
              PlaceAll(context, [first, second]), Group(Extend, ix, first), Group(Widen, ix, second);
            && Changes(context, book.groups) == [extend, widen] && Creations(context, book) == []
            && Redefined(context, extend) == ix.(includes := xs)
            && Redefined(context, widen) == ix.(keys := second.keys, includes := ys)
  {
    var ix, first, second := context.rowstore[0], Including(a, xs, 2.0), TwoKeys(a, b, ys);
    RivalsAreShaped(context.settings, a, b, xs, ys);
    ExtendThenWiden(context, a, b, xs, ys);
    IncludesAreAccepted(context, Extend, first);
    IncludesAreAccepted(context, Widen, second);
    TwoChanges(context, Group(Extend, ix, first), Group(Widen, ix, second));
  }

  lemma OnlyRow(context: Context, candidates: seq<Draft>, earlier: Group, last: Group)
    requires |context.rowstore| == 1 && Creations(context, PlaceAll(context, candidates)) == []
    requires last.target == context.rowstore[0]
    ensures TableAfter(context, candidates, [earlier, last]) == [Redefined(context, last)]
  {
    assert DefinitionAfter(context, context.rowstore[0], [earlier, last]) == Redefined(context, last);
  }

  lemma NeitherCoversBoth(ix: Index, a: Column, b: Column, xs: seq<Column>, ys: seq<Column>)
    requires ix.keys == OneKey(a) && ix.typeCode == NONCLUSTERED
    requires xs != [] && xs[0] != a && xs[0] != b && xs[0] !in ys
    ensures !Covers(ix.(keys := TwoKeys(a, b, ys).keys, includes := ys), OneKey(a), xs, [])
    ensures !Covers(ix.(includes := xs), TwoKeys(a, b, ys).keys, ys, [])
  {
    var widened := ix.(keys := TwoKeys(a, b, ys).keys, includes := ys);
    TwoKeyNames(a, b, ys);
    assert xs[0] in ColumnSet(xs) && xs[0] !in Carried(widened, []);
  }

  lemma OneRowCovers(context: Context, candidates: seq<Draft>, earlier: Group, last: Group,
                     keys: seq<Key>, includes: seq<Column>)
    requires |context.rowstore| == 1 && Creations(context, PlaceAll(context, candidates)) == []
    requires last.target == context.rowstore[0]
    ensures CoveredIn(context, TableAfter(context, candidates, [earlier, last]), keys, includes)
            <==> Covers(Redefined(context, last), keys, includes, context.clustering)
  {
    OnlyRow(context, candidates, earlier, last);
    assert Redefined(context, last) in [Redefined(context, last)];
  }

  function Extending(context: Context, a: Column, xs: seq<Column>): Group
    requires context.rowstore != []
  {
    Group(Extend, context.rowstore[0], Including(a, xs, 2.0))
  }

  function Widening(context: Context, a: Column, b: Column, ys: seq<Column>): Group
    requires context.rowstore != []
  {
    Group(Widen, context.rowstore[0], TwoKeys(a, b, ys))
  }

  lemma RivalsInEitherOrder(context: Context, a: Column, b: Column, xs: seq<Column>, ys: seq<Column>)
    requires context == OneIndexTable(context.settings, a) && Rivals(context.settings, a, b, xs, ys)
    ensures var candidates := [Including(a, xs, 2.0), TwoKeys(a, b, ys)];
            var extend, widen := Extending(context, a, xs), Widening(context, a, b, ys);
            Orders(context, candidates, [extend, widen]) && Orders(context, candidates, [widen, extend])
  {
    RivalsAreAccepted(context, a, b, xs, ys);
  }

  lemma RivalsUndoEachOther(context: Context, a: Column, b: Column, xs: seq<Column>, ys: seq<Column>)
    requires context == OneIndexTable(context.settings, a) && Rivals(context.settings, a, b, xs, ys)
    ensures var candidates := [Including(a, xs, 2.0), TwoKeys(a, b, ys)];
            var extend, widen := Extending(context, a, xs), Widening(context, a, b, ys);
            && !CoveredIn(context, TableAfter(context, candidates, [extend, widen]), OneKey(a), xs)
            && !CoveredIn(context, TableAfter(context, candidates, [widen, extend]), TwoKeys(a, b, ys).keys, ys)
  {
    var candidates := [Including(a, xs, 2.0), TwoKeys(a, b, ys)];
    var extend, widen := Extending(context, a, xs), Widening(context, a, b, ys);
    RivalsAreAccepted(context, a, b, xs, ys);
    OneRowCovers(context, candidates, extend, widen, OneKey(a), xs);
    OneRowCovers(context, candidates, widen, extend, TwoKeys(a, b, ys).keys, ys);
    DistinctSplits(xs, ys);
    assert xs[0] in ColumnSet(xs);
    NeitherCoversBoth(context.rowstore[0], a, b, xs, ys);
  }

  lemma RivalsStayApart(context: Context, a: Column, b: Column, xs: seq<Column>, ys: seq<Column>)
    requires context == OneIndexTable(context.settings, a) && Rivals(context.settings, a, b, xs, ys)
    ensures FittedFor(context, Including(a, xs, 2.0)) == Including(a, xs, 2.0)
    ensures FittedFor(context, TwoKeys(a, b, ys)) == TwoKeys(a, b, ys)
    ensures Merged(context.settings, [Including(a, xs, 2.0), TwoKeys(a, b, ys)])
            == [Including(a, xs, 2.0), TwoKeys(a, b, ys)]
  {
    OneKeyFits(context, Including(a, xs, 2.0));
    TwoKeysFit(context, TwoKeys(a, b, ys));
    RivalsOverflow(context.settings, a, b, xs, ys);
    TwoStayApart(context.settings, Including(a, xs, 2.0), TwoKeys(a, b, ys));
  }

  lemma ColumnsAreRivals(settings: Settings, n: nat)
    requires settings.maxIncludes == n >= 1
    requires KeyWidth(TwoKeys(['a'], ['b'], []).keys, settings.catalog) <= MAX_KEY_BYTES
    requires !TooWide(Columns('x', n), settings.catalog) && !TooWide(Columns('y', n), settings.catalog)
    ensures Rivals(settings, ['a'], ['b'], Columns('x', n), Columns('y', n))
  {
    ColumnsOverTogether(settings, n);
  }

  /** Two candidates that merging keeps apart extend and widen the same index, whatever the bound is.
      Both changes are accepted and nothing is created, and whichever runs last undoes the other. */
  lemma RivalsLoseACandidate(settings: Settings, n: nat)
      returns (context: Context, first: Draft, second: Draft, extend: Group, widen: Group)
    requires settings.maxIncludes == n >= 1
    requires KeyWidth(TwoKeys(['a'], ['b'], []).keys, settings.catalog) <= MAX_KEY_BYTES
    requires !TooWide(Columns('x', n), settings.catalog) && !TooWide(Columns('y', n), settings.catalog)
    ensures context.settings == settings && DistinctNames(context.rowstore)
    ensures Shaped(settings, first) && FittedFor(context, first) == first && !Weak(first) && |first.includes| == n
    ensures Shaped(settings, second) && FittedFor(context, second) == second && !Weak(second) && |second.includes| == n
    ensures Merged(settings, [first, second]) == [first, second]
    ensures Orders(context, [first, second], [extend, widen]) && Orders(context, [first, second], [widen, extend])
    ensures !CoveredIn(context, TableAfter(context, [first, second], [extend, widen]), first.keys, first.includes)
    ensures !CoveredIn(context, TableAfter(context, [first, second], [widen, extend]), second.keys, second.includes)
  {
    var a, b, xs, ys := ['a'], ['b'], Columns('x', n), Columns('y', n);
    context, first, second := OneIndexTable(settings, a), Including(a, xs, 2.0), TwoKeys(a, b, ys);
    extend, widen := Extending(context, a, xs), Widening(context, a, b, ys);
    ColumnsAreRivals(settings, n);
    RivalsAreShaped(settings, a, b, xs, ys);
    RivalsStayApart(context, a, b, xs, ys);
    RivalsInEitherOrder(context, a, b, xs, ys);
    RivalsUndoEachOther(context, a, b, xs, ys);
  }
}
