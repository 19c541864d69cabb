/** What a justified list of findings guarantees as a whole: foreign-key support and coverage are
    conserved, protected indexes stay, survivors are never removed and rebuilt at most once. */
module FindingsSafety {
  import opened Wrappers
  import opened IndexModel
  import opened IndexFindings

  // ---------------------------------------------------------------- what a list of findings does

  function Removed(findings: seq<Finding>): set<string> {
    if findings == [] then {}
    else Removed(findings[..|findings| - 1])
         + match findings[|findings| - 1]
           case Consolidated(redundant, _, _) => {redundant.name}
           case Dropped(index) => {index.name}
           case Reviewed(_, _) => {}
  }

  function Survivors(findings: seq<Finding>): set<string> {
    if findings == [] then {}
    else Survivors(findings[..|findings| - 1])
         + var last := findings[|findings| - 1]; if last.Consolidated? then {last.survivor.name} else {}
  }

  function Rebuilt(findings: seq<Finding>): set<string> {
    if findings == [] then {}
    else Rebuilt(findings[..|findings| - 1])
         + var last := findings[|findings| - 1];
           if last.Consolidated? && last.needed != [] then {last.survivor.name} else {}
  }

  /** The definition of an index after the rebuild statements ran in order: each one replaces the
      definition by the catalogued one plus the columns of its own finding. */
  function FinalDefinition(index: Index, findings: seq<Finding>): Index {
    if findings == [] then index
    else
      var last := findings[|findings| - 1];
      if last.Consolidated? && last.needed != [] && last.survivor == index then Widened(index, last.needed)
      else FinalDefinition(index, findings[..|findings| - 1])
  }

  ghost predicate JustifiedConsolidation(context: Context, existing: seq<Index>, before: seq<Finding>,
                                         redundant: Index, survivor: Index, needed: seq<Column>) {
    && redundant in existing && survivor in existing && redundant.name != survivor.name
    && redundant.typeCode == NONCLUSTERED && survivor.typeCode == NONCLUSTERED
    && !redundant.isDisabled && !survivor.isDisabled
    && redundant.name !in Survivors(before) && survivor.name !in Removed(before)
    && RemovableInto(redundant, survivor) && redundant.filter == survivor.filter && redundant.keys <= survivor.keys
    && needed == Absorbed(redundant, survivor, context.clustering)
    && (needed != [] ==> survivor.name !in Rebuilt(before) && Refusal(context, survivor, needed) == None)
  }

  ghost predicate JustifiedDrop(existing: seq<Index>, before: seq<Finding>, index: Index) {
    && index in existing && !Protected(index) && index.filter == "" && index.name !in Survivors(before)
    && ForeignKeys(index) <= Support(existing, Removed(before), Some(index))
  }

  ghost predicate JustifiedNext(context: Context, existing: seq<Index>, before: seq<Finding>, finding: Finding) {
    match finding
    case Consolidated(redundant, survivor, needed) =>
      JustifiedConsolidation(context, existing, before, redundant, survivor, needed)
    case Dropped(index) => JustifiedDrop(existing, before, index)
    case Reviewed(_, _) => true
  }

  /** Every finding is safe when it is made, given the findings before it. */
  ghost predicate Justified(context: Context, existing: seq<Index>, findings: seq<Finding>) {
    findings == [] ||
    var before := findings[..|findings| - 1];
    Justified(context, existing, before) && JustifiedNext(context, existing, before, findings[|findings| - 1])
  }

  // ---------------------------------------------------------------- consequences for the whole list

  lemma {:induction false} InSupport(existing: seq<Index>, removed: set<string>, except: Option<Index>, fk: int)
    ensures fk in Support(existing, removed, except) <==>
            exists index ::
              index in existing && Live(index, removed) && except != Some(index) && fk in ForeignKeys(index)
  {
    if existing != [] {
      InSupport(existing[1..], removed, except, fk);
      assert forall index :: index in existing <==> index == existing[0] || index in existing[1..];
    }
  }

  lemma SameName(existing: seq<Index>, a: Index, b: Index)
    requires DistinctNames(existing) && a in existing && b in existing && a.name == b.name
    ensures a == b
  {
    var i :| 0 <= i < |existing| && existing[i] == a;
    var j :| 0 <= j < |existing| && existing[j] == b;
    assert i == j;
  }

  /** Removing an index keeps the support when another live index supports its foreign keys. */
  lemma RemovalKeepsSupport(existing: seq<Index>, removed: set<string>, gone: Index)
    requires DistinctNames(existing) && gone in existing
    requires ForeignKeys(gone) <= Support(existing, removed, Some(gone))
    ensures Support(existing, removed + {gone.name}, None) == Support(existing, removed, None)
  {
    var after := removed + {gone.name};
    forall fk ensures fk in Support(existing, after, None) <==> fk in Support(existing, removed, None) {
      InSupport(existing, removed, None, fk);
      InSupport(existing, after, None, fk);
      InSupport(existing, removed, Some(gone), fk);
      if fk in Support(existing, removed, None) {
        var index :| index in existing && Live(index, removed) && fk in ForeignKeys(index);
        var other :| other in existing && Live(other, removed) && fk in ForeignKeys(other)
                     && (index.name == gone.name ==> other != gone) && (index.name != gone.name ==> other == index) by {
          if index.name == gone.name { SameName(existing, index, gone); }
        }
        if other.name == gone.name { SameName(existing, other, gone); }
        assert Live(other, after);
      }
    }
  }

  /** A removed index absorbs nothing and an absorbing index is never removed. */
  lemma {:induction false} SurvivorsAreKept(context: Context, existing: seq<Index>, findings: seq<Finding>)
    requires Justified(context, existing, findings)
    ensures Removed(findings) !! Survivors(findings)
  {
    if findings != [] {
      SurvivorsAreKept(context, existing, findings[..|findings| - 1]);
    }
  }

  /** No index with a protection of its own is removed. */
  lemma {:induction false} ProtectedAreKept(context: Context, existing: seq<Index>, findings: seq<Finding>,
                                            index: Index)
    requires Justified(context, existing, findings) && DistinctNames(existing) && index in existing && Protected(index)
    ensures index.name !in Removed(findings)
  {
    if findings != [] {
      ProtectedAreKept(context, existing, findings[..|findings| - 1], index);
      match findings[|findings| - 1] {
        case Consolidated(redundant, _, _) => if redundant.name == index.name { SameName(existing, redundant, index); }
        case Dropped(other) => if other.name == index.name { SameName(existing, other, index); }
        case Reviewed(_, _) =>
      }
    }
  }

  /** The foreign keys that live indexes support are the same after all removals. */
  lemma {:induction false} SupportIsConserved(context: Context, existing: seq<Index>, findings: seq<Finding>)
    requires Justified(context, existing, findings) && DistinctNames(existing)
    ensures Support(existing, Removed(findings), None) == Support(existing, {}, None)
  {
    if findings != [] {
      var before := findings[..|findings| - 1];
      SupportIsConserved(context, existing, before);
      match findings[|findings| - 1] {
        case Consolidated(redundant, survivor, _) =>
          forall fk | fk in ForeignKeys(redundant) ensures fk in Support(existing, Removed(before), Some(redundant)) {
            assert Live(survivor, Removed(before));
            InSupport(existing, Removed(before), Some(redundant), fk);
          }
          RemovalKeepsSupport(existing, Removed(before), redundant);
        case Dropped(index) => RemovalKeepsSupport(existing, Removed(before), index);
        case Reviewed(_, _) => assert Removed(findings) == Removed(before);
      }
    }
  }

  /** A rebuild changes nothing but the included columns, and only adds to them. */
  lemma {:induction false} FinalShape(index: Index, findings: seq<Finding>)
    ensures exists includes :: FinalDefinition(index, findings) == index.(includes := includes)
                               && ColumnSet(index.includes) <= ColumnSet(includes)
  {
    if findings != [] {
      FinalShape(index, findings[..|findings| - 1]);
      var last := findings[|findings| - 1];
      if last.Consolidated? {
        var includes := index.includes + last.needed;
        assert ColumnSet(index.includes) <= ColumnSet(includes);
        assert Widened(index, last.needed) == index.(includes := includes);
      }
    } else {
      assert index == index.(includes := index.includes);
    }
  }

  lemma {:induction false} MissingCompletes(columns: seq<Column>, present: set<Column>)
    ensures ColumnSet(columns) <= present + ColumnSet(Missing(columns, present))
  {
    if columns != [] {
      var next := if columns[0] in present then present else present + {columns[0]};
      MissingCompletes(columns[1..], next);
      var needed := Missing(columns, present);
      if columns[0] !in present {
        assert needed[0] == columns[0] && needed[1..] == Missing(columns[1..], next);
      }
      forall c | c in columns ensures c in present || c in needed {
        assert c == columns[0] || c in ColumnSet(columns[1..]);
      }
    }
  }

  /** The survivor with the absorbed columns carries every column of the redundant index. */
  lemma AbsorbedCompletes(redundant: Index, survivor: Index, clustering: seq<Column>)
    ensures NameSet(redundant.keys) + ColumnSet(redundant.includes)
            <= Carried(Widened(survivor, Absorbed(redundant, survivor, clustering)), clustering)
  {
    var columns := redundant.includes + Names(redundant.keys);
    var needed := Absorbed(redundant, survivor, clustering);
    MissingCompletes(columns, Carried(survivor, clustering));
    assert NameSet(redundant.keys) + ColumnSet(redundant.includes) <= ColumnSet(columns);
    assert ColumnSet(survivor.includes + needed) == ColumnSet(survivor.includes) + ColumnSet(needed);
  }

  /** What a justified list says of one consolidation in it. */
  lemma {:induction false} ConsolidationFacts(context: Context, existing: seq<Index>, findings: seq<Finding>,
                                              f: Finding)
    requires Justified(context, existing, findings) && f in findings && f.Consolidated?
    ensures f.redundant in existing && f.survivor in existing && f.redundant.typeCode == NONCLUSTERED
    ensures !f.survivor.isDisabled && f.survivor.typeCode == NONCLUSTERED
    ensures f.redundant.keys <= f.survivor.keys && f.redundant.filter == f.survivor.filter
    ensures f.needed == Absorbed(f.redundant, f.survivor, context.clustering)
    ensures f.survivor.name in Survivors(findings) && f.redundant.name in Removed(findings)
  {
    var before, last := findings[..|findings| - 1], findings[|findings| - 1];
    assert findings == before + [last];
    if f != last {
      ConsolidationFacts(context, existing, before, f);
    }
  }

  lemma {:induction false} DroppedIsExisting(context: Context, existing: seq<Index>, findings: seq<Finding>,
                                             index: Index)
    requires Justified(context, existing, findings) && Dropped(index) in findings
    ensures index in existing && index.name in Removed(findings)
  {
    var before, last := findings[..|findings| - 1], findings[|findings| - 1];
    assert findings == before + [last];
    if last != Dropped(index) {
      DroppedIsExisting(context, existing, before, index);
    }
  }

  /** No survivor is rebuilt by two findings. */
  lemma {:induction false} RebuiltOnce(context: Context, existing: seq<Index>, findings: seq<Finding>, i: nat, j: nat)
    requires Justified(context, existing, findings) && i < j < |findings|
    requires findings[i].Consolidated? && findings[i].needed != [] && findings[j].Consolidated?
             && findings[j].needed != []
    ensures findings[i].survivor.name != findings[j].survivor.name
  {
    var before := findings[..|findings| - 1];
    if j == |findings| - 1 {
      RebuiltBy(before, i);
    } else {
      RebuiltOnce(context, existing, before, i, j);
    }
  }

  lemma {:induction false} RebuiltBy(findings: seq<Finding>, i: nat)
    requires i < |findings| && findings[i].Consolidated? && findings[i].needed != []
    ensures findings[i].survivor.name in Rebuilt(findings)
  {
    if i < |findings| - 1 {
      RebuiltBy(findings[..|findings| - 1], i);
    }
  }

  /** The table's indexes after the plan: removed ones gone, survivors as rebuilt. */
  function After(existing: seq<Index>, findings: seq<Finding>): (after: seq<Index>)
    ensures forall index :: index in existing && index.name !in Removed(findings) ==>
              FinalDefinition(index, findings) in after
  {
    if existing == [] then []
    else (if existing[0].name in Removed(findings) then [] else [FinalDefinition(existing[0], findings)])
         + After(existing[1..], findings)
  }

  lemma {:induction false} AfterSupport(existing: seq<Index>, findings: seq<Finding>)
    ensures Support(After(existing, findings), {}, None) == Support(existing, Removed(findings), None)
  {
    if existing != [] {
      var rest := After(existing[1..], findings);
      AfterSupport(existing[1..], findings);
      if existing[0].name in Removed(findings) {
        assert After(existing, findings) == rest;
        assert Support(existing, Removed(findings), None) == Support(existing[1..], Removed(findings), None);
      } else {
        var final := FinalDefinition(existing[0], findings);
        FinalShape(existing[0], findings);
        assert After(existing, findings) == [final] + rest;
        assert ([final] + rest)[1..] == rest;
        assert Live(final, {}) == Live(existing[0], Removed(findings))
               && ForeignKeys(final) == ForeignKeys(existing[0]);
      }
    }
  }

  predicate Removes(f: Finding, name: string) {
    (f.Consolidated? && f.redundant.name == name) || (f.Dropped? && f.index.name == name)
  }

  lemma {:induction false} RemovedBySome(findings: seq<Finding>, name: string)
    requires name in Removed(findings)
    ensures exists f :: f in findings && Removes(f, name)
  {
    var before, last := findings[..|findings| - 1], findings[|findings| - 1];
    assert last in findings;
    if name in Removed(before) {
      RemovedBySome(before, name);
    }
  }

  // ---------------------------------------------------------------- any selection, in any order

  /** Some of the findings, in any order. */
  predicate Selection(selected: seq<Finding>, findings: seq<Finding>) { forall f :: f in selected ==> f in findings }

  lemma SelectionRemovesNoMore(context: Context, existing: seq<Index>, findings: seq<Finding>, selected: seq<Finding>)
    requires Justified(context, existing, findings) && Selection(selected, findings)
    ensures Removed(selected) <= Removed(findings)
  {
    forall name | name in Removed(selected) ensures name in Removed(findings) {
      RemovedBySome(selected, name);
      var f :| f in selected && Removes(f, name);
      match f {
        case Consolidated(_, _, _) => ConsolidationFacts(context, existing, findings, f);
        case Dropped(index) => DroppedIsExisting(context, existing, findings, index);
      }
    }
  }

  /** Whichever findings are carried out, in whatever order: no foreign key loses its support. */
  lemma SelectionKeepsSupport(context: Context, existing: seq<Index>, findings: seq<Finding>, selected: seq<Finding>)
    requires Justified(context, existing, findings) && DistinctNames(existing) && Selection(selected, findings)
    ensures Support(After(existing, selected), {}, None) == Support(existing, {}, None)
  {
    AfterSupport(existing, selected);
    SupportIsConserved(context, existing, findings);
    SelectionRemovesNoMore(context, existing, findings, selected);
    SupportShrinks(existing, Removed(selected), Removed(findings), None);
    SupportShrinks(existing, {}, Removed(selected), None);
  }

  lemma OneRebuildEach(context: Context, existing: seq<Index>, findings: seq<Finding>, f: Finding, g: Finding)
    requires Justified(context, existing, findings) && f in findings && g in findings
    requires f.Consolidated? && f.needed != [] && g.Consolidated? && g.needed != [] && f.survivor == g.survivor
    ensures f == g
  {
    var i :| 0 <= i < |findings| && findings[i] == f;
    var j :| 0 <= j < |findings| && findings[j] == g;
    if i < j {
      RebuiltOnce(context, existing, findings, i, j);
    } else if j < i {
      RebuiltOnce(context, existing, findings, j, i);
    }
  }

  /** A rebuild that is carried out stays: no other finding rebuilds the same survivor. */
  lemma {:induction false} RebuildStays(context: Context, existing: seq<Index>, findings: seq<Finding>,
                                        selected: seq<Finding>, f: Finding)
    requires Justified(context, existing, findings) && Selection(selected, findings)
    requires f in selected && f.Consolidated? && f.needed != []
    ensures FinalDefinition(f.survivor, selected) == Widened(f.survivor, f.needed)
  {
    var front, last := selected[..|selected| - 1], selected[|selected| - 1];
    assert selected == front + [last];
    if last.Consolidated? && last.needed != [] && last.survivor == f.survivor {
      OneRebuildEach(context, existing, findings, last, f);
    } else {
      RebuildStays(context, existing, findings, front, f);
    }
  }

  /** Each consolidated index is carried by its survivor as the carried out findings leave it. */
  lemma SurvivorCarries(context: Context, existing: seq<Index>, findings: seq<Finding>, selected: seq<Finding>,
                        redundant: Index, survivor: Index, needed: seq<Column>)
    requires Justified(context, existing, findings) && Selection(selected, findings)
    requires Consolidated(redundant, survivor, needed) in selected
    ensures NameSet(redundant.keys) + ColumnSet(redundant.includes)
            <= Carried(FinalDefinition(survivor, selected), context.clustering)
    ensures redundant.keys <= survivor.keys && redundant.filter == survivor.filter
    ensures redundant in existing && survivor in existing && !survivor.isDisabled && survivor.typeCode == NONCLUSTERED
    ensures survivor.name !in Removed(selected)
  {
    ConsolidationFacts(context, existing, findings, Consolidated(redundant, survivor, needed));
    AbsorbedCompletes(redundant, survivor, context.clustering);
    SurvivorsAreKept(context, existing, findings);
    SelectionRemovesNoMore(context, existing, findings, selected);
    if needed == [] {
      assert Widened(survivor, needed) == survivor;
      FinalShape(survivor, selected);
    } else {
      RebuildStays(context, existing, findings, selected, Consolidated(redundant, survivor, needed));
    }
  }

  /** Whichever findings are carried out, in whatever order: every request that an enabled nonclustered
      index covered is covered afterwards by an enabled index, unless that index is dropped as unused. */
  lemma SelectionKeepsCoverage(context: Context, existing: seq<Index>, findings: seq<Finding>, selected: seq<Finding>,
                               index: Index, keys: seq<Key>, includes: seq<Column>)
    requires Justified(context, existing, findings) && DistinctNames(existing) && Selection(selected, findings)
    requires index in existing && index.typeCode == NONCLUSTERED && !index.isDisabled && Dropped(index) !in selected
    requires Covers(index, keys, includes, context.clustering)
    ensures exists kept :: kept in After(existing, selected) && !kept.isDisabled
                           && Covers(kept, keys, includes, context.clustering)
  {
    if index.name !in Removed(selected) {
      FinalShape(index, selected);
      assert Covers(FinalDefinition(index, selected), keys, includes, context.clustering);
    } else {
      RemovedBySome(selected, index.name);
      var f :| f in selected && Removes(f, index.name);
      match f {
        case Dropped(other) =>
          DroppedIsExisting(context, existing, findings, other);
          SameName(existing, other, index);
          assert false;
        case Consolidated(redundant, survivor, needed) =>
          ConsolidationFacts(context, existing, findings, f);
          SameName(existing, redundant, index);
          ConsolidationKeepsCoverage(context, existing, findings, selected, index, survivor, needed, keys, includes);
      }
    }
  }

  lemma ConsolidationKeepsCoverage(context: Context, existing: seq<Index>, findings: seq<Finding>,
                                   selected: seq<Finding>, redundant: Index, survivor: Index, needed: seq<Column>,
                                   keys: seq<Key>, includes: seq<Column>)
    requires Justified(context, existing, findings) && Selection(selected, findings)
    requires Consolidated(redundant, survivor, needed) in selected
    requires redundant.typeCode == NONCLUSTERED && Covers(redundant, keys, includes, context.clustering)
    ensures var kept := FinalDefinition(survivor, selected);
            kept in After(existing, selected) && !kept.isDisabled && Covers(kept, keys, includes, context.clustering)
  {
    SurvivorCarries(context, existing, findings, selected, redundant, survivor, needed);
    FinalShape(survivor, selected);
  }

  /** The whole plan, in the order of the findings. */
  lemma PlanKeepsSupport(context: Context, existing: seq<Index>, findings: seq<Finding>)
    requires Justified(context, existing, findings) && DistinctNames(existing)
    ensures Support(After(existing, findings), {}, None) == Support(existing, {}, None)
  {
    SelectionKeepsSupport(context, existing, findings, findings);
  }

  lemma PlanKeepsCoverage(context: Context, existing: seq<Index>, findings: seq<Finding>, index: Index,
                          keys: seq<Key>, includes: seq<Column>)
    requires Justified(context, existing, findings) && DistinctNames(existing)
    requires index in existing && index.typeCode == NONCLUSTERED && !index.isDisabled && Dropped(index) !in findings
    requires Covers(index, keys, includes, context.clustering)
    ensures exists kept :: kept in After(existing, findings) && !kept.isDisabled
                           && Covers(kept, keys, includes, context.clustering)
  {
    SelectionKeepsCoverage(context, existing, findings, findings, index, keys, includes);
  }

  // ---------------------------------------------------------------- the kept twin

  /** The kept twin has the highest rank of its group, constraint protection first. */
  lemma {:induction false} KeeperOutranks(context: Context, group: seq<Index>, twin: Index)
    requires twin in group
    ensures !Less(Rank(context, Keeper(context, group)), Rank(context, twin))
    ensures Protected(twin) ==> Protected(Keeper(context, group))
  {
    LessIsIrreflexive(Rank(context, twin));
    if |group| > 1 {
      var front, last := group[..|group| - 1], group[|group| - 1];
      assert group == front + [last];
      if twin in front {
        KeeperOutranks(context, front, twin);
        LaterOutranks(context, Keeper(context, front), twin, last);
      }
    }
    OutrankedIsProtected(context, Keeper(context, group), twin);
  }

  lemma LaterOutranks(context: Context, best: Index, other: Index, last: Index)
    requires !Less(Rank(context, best), Rank(context, other))
    ensures Less(Rank(context, best), Rank(context, last)) ==> !Less(Rank(context, last), Rank(context, other))
  {
    if Less(Rank(context, best), Rank(context, last)) {
      LessIsRanking(Rank(context, best), Rank(context, other), Rank(context, last));
    }
  }

  lemma OutrankedIsProtected(context: Context, keeper: Index, twin: Index)
    ensures !Less(Rank(context, keeper), Rank(context, twin)) && Protected(twin) ==> Protected(keeper)
  {
  }

  lemma {:induction false} LessIsIrreflexive(a: seq<nat>)
    ensures !Less(a, a)
  {
    if a != [] {
      LessIsIrreflexive(a[1..]);
    }
  }

  lemma {:induction false} LessIsRanking(best: seq<nat>, other: seq<nat>, better: seq<nat>)
    requires |best| == |other| == |better| && !Less(best, other) && Less(best, better)
    ensures !Less(better, other)
  {
    if best != [] && best[0] == other[0] == better[0] {
      LessIsRanking(best[1..], other[1..], better[1..]);
    }
  }
}
