/** The rules of the index review, spelled out in the fields of the indexes and in numbers: which index
    may replace which, which twin is kept, what a survivor may take, and what each finding says. */
module FindingsRules {
  import opened Wrappers
  import opened IndexModel
  import opened IndexFindings
  import opened FindingsSafety
  import C = IndexCandidates
  import B = IndexBounds

  // ---------------------------------------------------------------- one index for another

  /** A constraint, or something else that no other index can take over. */
  predicate Guarded(index: Index) {
    index.isPrimaryKey || index.isUniqueConstraint || index.isUnique || index.otherProtection
  }

  predicate IsReviewed(index: Index) { index.typeCode == 2 && !index.isHypothetical }

  /** Both enabled; the one that goes guards nothing, and its foreign keys keep their support. */
  predicate Replaces(existing: seq<Index>, r: Index, s: Index) {
    && r in existing && s in existing && r != s && IsReviewed(r) && IsReviewed(s) && !r.isDisabled && !s.isDisabled
    && !Guarded(r) && r.filter == s.filter && (r.filter == "" ==> r.childForeignKeys <= s.childForeignKeys)
  }

  predicate IsPrefix(r: Index, s: Index) { r.filter == "" && |r.keys| < |s.keys| && Begins(s.keys, r.keys) }

  predicate HasColumn(index: Index, column: Column) { column in index.includes || NamesColumn(index.keys, column) }

  /** The columns of the one index that the rows of the other do not carry, each once. */
  ghost predicate IsNeeded(context: Context, r: Index, s: Index, needed: seq<Column>) {
    && C.Distinct(needed)
    && forall c :: c in needed <==> HasColumn(r, c) && !HasColumn(s, c) && c !in context.clustering
  }

  /** The survivor enforces no constraint, stays within the bounds with these columns, and its change
      and the way back can be rendered. */
  predicate Takes(context: Context, s: Index, needed: seq<Column>) {
    && !s.isPrimaryKey && !s.isUniqueConstraint
    && |s.includes| + |needed| <= context.maxIncludes
    && (|s.includes| + |needed| > 4 && context.catalog.columns != map[] && context.catalog.rowWidth > 0 ==>
          10 * (Width(s.includes, context.catalog) + Width(needed, context.catalog)) <= 6 * context.catalog.rowWidth)
    && context.canRender(s) && context.canRender(s.(includes := s.includes + needed))
  }

  /** Both are named by hints or forced plans. */
  predicate BothPinned(context: Context, r: Index, s: Index) { r.name in context.pins && s.name in context.pins }

  // ---------------------------------------------------------------- which twin is kept

  predicate IsTwin(r: Index, s: Index) { r.keys == s.keys && r.filter == s.filter }

  function SupportedKeys(index: Index): nat { if index.filter == "" then |index.childForeignKeys| else 0 }

  function Reads(index: Index): nat { if index.readCount.Some? then index.readCount.value else 0 }

  /** Guarded indexes come first, then pinned ones, those that support more foreign keys, unique ones,
      those with more included columns, and those that are read more. */
  predicate Precedes(context: Context, s: Index, t: Index) {
    if Guarded(s) != Guarded(t) then Guarded(s)
    else if (s.name in context.pins) != (t.name in context.pins) then s.name in context.pins
    else if SupportedKeys(s) != SupportedKeys(t) then SupportedKeys(s) > SupportedKeys(t)
    else if s.isUnique != t.isUnique then s.isUnique
    else if |s.includes| != |t.includes| then |s.includes| > |t.includes|
    else Reads(s) > Reads(t)
  }

  /** The position in the catalog. */
  function At(existing: seq<Index>, index: Index): nat {
    if existing == [] || existing[0] == index then 0 else 1 + At(existing[1..], index)
  }

  /** In the order of the catalog. */
  predicate Before(existing: seq<Index>, a: Index, b: Index) { At(existing, a) < At(existing, b) }

  predicate Beats(context: Context, existing: seq<Index>, s: Index, t: Index) {
    Precedes(context, s, t) || (!Precedes(context, t, s) && Before(existing, s, t))
  }

  /** The twin that all others go into. */
  predicate IsKept(context: Context, existing: seq<Index>, s: Index) {
    forall t :: t in existing && t != s && IsTwin(s, t) && IsReviewed(t) && !t.isDisabled ==>
      Beats(context, existing, s, t)
  }

  // ---------------------------------------------------------------- what a finding says

  /** Findings that settle what becomes of an index beside another one. */
  predicate Settles(finding: Finding, index: Index) {
    match finding
    case Consolidated(r, _, _) => r == index
    case Reviewed(r, reason) => r == index && SettlingReason(reason)
    case Dropped(_) => false
  }

  predicate SettlingReason(reason: Reason) {
    reason == PinnedDuplicate || reason == RebuildAlreadyRecommended || reason == CoveringTwinOfConstraint
      || reason == SurvivorCannotAbsorb
  }

  function Settled(findings: seq<Finding>): set<string> {
    if findings == [] then {}
    else Settled(findings[..|findings| - 1])
         + match findings[|findings| - 1]
           case Consolidated(r, _, _) => {r.name}
           case Reviewed(r, reason) => if SettlingReason(reason) then {r.name} else {}
           case Dropped(_) => {}
  }

  predicate Extension(existing: seq<Index>, before: seq<Finding>, r: Index, t: Index) {
    Replaces(existing, r, t) && IsPrefix(r, t) && t.name !in Removed(before)
  }

  predicate HasKeptTwin(context: Context, existing: seq<Index>, r: Index) {
    exists k :: k in existing && GoesInto(context, existing, r, k)
  }

  predicate GoesInto(context: Context, existing: seq<Index>, r: Index, k: Index) {
    Replaces(existing, r, k) && r.keys == k.keys && IsKept(context, existing, k)
  }

  /** The widest index that stays and extends it; of equally wide ones the first. */
  predicate IsWidest(existing: seq<Index>, before: seq<Finding>, r: Index, s: Index) {
    && Extension(existing, before, r, s)
    && forall t :: t in existing && t != s && Extension(existing, before, r, t) ==>
         Outdoes(existing, s, t)
  }

  /** The index goes into its kept twin, or else into the widest index that extends it. */
  predicate Merges(context: Context, existing: seq<Index>, before: seq<Finding>, r: Index, s: Index) {
    && r.name !in Survivors(before) && s.name !in Removed(before)
    && (GoesInto(context, existing, r, s)
        || (!HasKeptTwin(context, existing, r) && r.name !in Settled(before) && IsWidest(existing, before, r, s)))
  }

  predicate PinnedTwins(context: Context, r: Index, s: Index) { r.keys == s.keys && BothPinned(context, r, s) }

  /** What the review says of an index that goes into this one. */
  ghost predicate Outcome(context: Context, before: seq<Finding>, r: Index, s: Index, needed: seq<Column>,
                          finding: Finding) {
    if PinnedTwins(context, r, s) then finding == Reviewed(r, PinnedDuplicate)
    else if needed == [] then finding == Consolidated(r, s, [])
    else if s.name in Rebuilt(before) then finding == Reviewed(r, RebuildAlreadyRecommended)
    else if s.isPrimaryKey || s.isUniqueConstraint then finding == Reviewed(r, CoveringTwinOfConstraint)
    else if !Takes(context, s, needed) then finding == Reviewed(r, SurvivorCannotAbsorb)
    else finding == Consolidated(r, s, needed)
  }

  ghost predicate SettledByRule(context: Context, existing: seq<Index>, before: seq<Finding>, r: Index,
                                finding: Finding) {
    exists s, needed ::
      Merges(context, existing, before, r, s) && IsNeeded(context, r, s, needed)
      && Outcome(context, before, r, s, needed, finding)
  }

  // ---------------------------------------------------------------- indexes that stay by themselves

  predicate IsRead(context: Context, x: Index) { x.readCount != Some(0) || x.name in context.used }

  /** More than a hundred thousand writes, and more than a hundred for each read. */
  predicate MostlyWritten(x: Index) {
    x.readCount.Some? && x.readCount.value > 0 && x.updates > 100_000 && 100 * x.readCount.value < x.updates
  }

  predicate StaysRowstore(before: seq<Finding>, y: Index) {
    !y.isDisabled && (y.typeCode == 1 || y.typeCode == 2) && y.name !in Removed(before)
  }

  /** No other index that stays supports the foreign key. */
  predicate OnlySupport(existing: seq<Index>, before: seq<Finding>, x: Index, fk: int) {
    fk in x.childForeignKeys
      && forall y :: y in existing && y != x && StaysRowstore(before, y) && y.filter == "" ==> fk !in y.childForeignKeys
  }

  predicate IsSoleSupport(existing: seq<Index>, before: seq<Finding>, x: Index) {
    exists fk :: fk in x.childForeignKeys && OnlySupport(existing, before, x, fk)
  }

  predicate InPlans(context: Context, x: Index) {
    x.name in context.planReferences && context.planReferences[x.name] > 0
  }

  predicate YoungCounters(context: Context) { context.uptimeDays.Some? && context.uptimeDays.value < 7.0 }

  predicate IsYoung(x: Index) { x.ageDays.Some? && x.ageDays.value < 7.0 }

  /** What the review says of an index that is settled with no other, if anything. */
  ghost predicate Verdict(context: Context, existing: seq<Index>, before: seq<Finding>, x: Index,
                          said: Option<Finding>) {
    if x.isDisabled then said == Some(Reviewed(x, DisabledIndex))
    else if IsRead(context, x) then said == if MostlyWritten(x) then Some(Reviewed(x, WriteHeavy)) else None
    else if x.filter != "" then said == Some(Reviewed(x, UnusedFiltered))
    else if Guarded(x) then said == None
    else if IsSoleSupport(existing, before, x) then said == Some(Reviewed(x, SoleForeignKeySupport))
    else if InPlans(context, x) then said == Some(Reviewed(x, InQueryStorePlans))
    else if YoungCounters(context) then said == Some(Reviewed(x, CountersRecent))
    else if IsYoung(x) then said == Some(Reviewed(x, YoungIndex))
    else said == Some(Dropped(x))
  }

  predicate Alone(before: seq<Finding>, x: Index) {
    x.name !in Settled(before) && x.name !in Survivors(before)
  }

  function Subject(finding: Finding): Index {
    match finding case Consolidated(r, _, _) => r case Dropped(x) => x case Reviewed(x, _) => x
  }

  /** A finding follows from the catalog and the findings before it. */
  ghost predicate Ruled(context: Context, existing: seq<Index>, before: seq<Finding>, finding: Finding) {
    var x := Subject(finding);
    if Settles(finding, x) then SettledByRule(context, existing, before, x, finding)
    else x in existing && IsReviewed(x) && Alone(before, x) && Verdict(context, existing, before, x, Some(finding))
  }

  ghost predicate AllRuled(context: Context, existing: seq<Index>, findings: seq<Finding>) {
    findings == [] ||
    var before := findings[..|findings| - 1];
    AllRuled(context, existing, before) && Ruled(context, existing, before, findings[|findings| - 1])
  }

  // ---------------------------------------------------------------- the rules are the review's own

  lemma LessStep(a: nat, x: seq<nat>, b: nat, y: seq<nat>)
    ensures Less([a] + x, [b] + y) <==> a < b || (a == b && Less(x, y))
  {
    assert ([a] + x)[1..] == x && ([b] + y)[1..] == y;
  }

  function RankTail(index: Index): seq<nat> { [Bit(index.isUnique), |index.includes|, Reads(index)] }

  lemma LessTail(s: Index, t: Index)
    ensures Less(RankTail(t), RankTail(s))
            <==> if s.isUnique != t.isUnique then s.isUnique
                 else if |s.includes| != |t.includes| then |s.includes| > |t.includes| else Reads(s) > Reads(t)
  {
    LessStep(Bit(t.isUnique), [|t.includes|, Reads(t)], Bit(s.isUnique), [|s.includes|, Reads(s)]);
    LessStep(|t.includes|, [Reads(t)], |s.includes|, [Reads(s)]);
    LessStep(Reads(t), [], Reads(s), []);
    assert [Bit(t.isUnique)] + [|t.includes|, Reads(t)] == RankTail(t);
    assert [Bit(s.isUnique)] + [|s.includes|, Reads(s)] == RankTail(s);
    assert [|t.includes|] + [Reads(t)] == [|t.includes|, Reads(t)];
    assert [|s.includes|] + [Reads(s)] == [|s.includes|, Reads(s)];
    assert [Reads(t)] + [] == [Reads(t)] && [Reads(s)] + [] == [Reads(s)];
  }

  lemma RankSplits(context: Context, index: Index)
    ensures Rank(context, index)
            == [Bit(Guarded(index))] + ([Bit(index.name in context.pins)] + ([SupportedKeys(index)] + RankTail(index)))
  {
  }

  /** The rank that the review compares is this order of precedence. */
  lemma RankIsPrecedence(context: Context, s: Index, t: Index)
    ensures Less(Rank(context, t), Rank(context, s)) <==> Precedes(context, s, t)
  {
    RankSplits(context, s);
    RankSplits(context, t);
    var s2, t2 := [SupportedKeys(s)] + RankTail(s), [SupportedKeys(t)] + RankTail(t);
    var s1, t1 := [Bit(s.name in context.pins)] + s2, [Bit(t.name in context.pins)] + t2;
    LessStep(Bit(Guarded(t)), t1, Bit(Guarded(s)), s1);
    LessStep(Bit(t.name in context.pins), t2, Bit(s.name in context.pins), s2);
    LessStep(SupportedKeys(t), RankTail(t), SupportedKeys(s), RankTail(s));
    LessTail(s, t);
  }

  lemma HasColumnIsNamed(index: Index, column: Column)
    ensures HasColumn(index, column) <==> column in index.includes + Names(index.keys)
    ensures HasColumn(index, column) <==> column in NameSet(index.keys) + ColumnSet(index.includes)
  {
    NamesColumnIsInNames(index.keys, column);
  }

  lemma {:induction false} MissingExactly(columns: seq<Column>, present: set<Column>)
    ensures C.Distinct(Missing(columns, present))
    ensures forall c :: c in Missing(columns, present) <==> c in columns && c !in present
    decreases |columns|
  {
    if columns != [] {
      assert columns == [columns[0]] + columns[1..];
      MissingExactly(columns[1..], if columns[0] in present then present else present + {columns[0]});
    }
  }

  lemma AbsorbedIsNeeded(context: Context, r: Index, s: Index)
    ensures IsNeeded(context, r, s, Absorbed(r, s, context.clustering))
  {
    var columns, present := r.includes + Names(r.keys), Carried(s, context.clustering);
    MissingExactly(columns, present);
    forall c ensures c in Missing(columns, present) <==>
        HasColumn(r, c) && !HasColumn(s, c) && c !in context.clustering {
      HasColumnIsNamed(r, c);
      HasColumnIsNamed(s, c);
      assert c in ColumnSet(context.clustering) <==> c in context.clustering;
    }
  }

  lemma RefusalIsByRule(context: Context, s: Index, needed: seq<Column>)
    requires needed != [] && s.typeCode == 2
    ensures (s.isPrimaryKey || s.isUniqueConstraint) ==> Refusal(context, s, needed) == Some(CoveringTwinOfConstraint)
    ensures !(s.isPrimaryKey || s.isUniqueConstraint) && !Takes(context, s, needed) ==>
              Refusal(context, s, needed) == Some(SurvivorCannotAbsorb)
    ensures Takes(context, s, needed) ==> Refusal(context, s, needed) == None
  {
    B.WidthAdds(s.includes, needed, context.catalog);
    assert Widened(s, needed) == s.(includes := s.includes + needed);
  }

  // ---------------------------------------------------------------- catalog order

  lemma {:induction false} PositionIsUnique(existing: seq<Index>, i: nat)
    requires DistinctNames(existing) && i < |existing|
    ensures At(existing, existing[i]) == i
  {
    if i > 0 {
      assert existing[0].name != existing[i].name;
      PositionIsUnique(existing[1..], i - 1);
    }
  }

  predicate InOrder(existing: seq<Index>, xs: seq<Index>) {
    forall p, q :: 0 <= p < q < |xs| ==> Before(existing, xs[p], xs[q])
  }

  predicate AllBefore(existing: seq<Index>, xs: seq<Index>, y: Index) { forall x :: x in xs ==> Before(existing, x, y) }

  lemma OneMoreInOrder(existing: seq<Index>, xs: seq<Index>, y: Index)
    requires InOrder(existing, xs) && AllBefore(existing, xs, y)
    ensures InOrder(existing, xs + [y])
  {
    forall p, q | 0 <= p < q < |xs| + 1 ensures Before(existing, (xs + [y])[p], (xs + [y])[q]) {
      if q == |xs| {
        assert xs[p] in xs;
      }
    }
  }

  lemma PrecedingAll(existing: seq<Index>, indexes: seq<Index>, n: nat)
    requires InOrder(existing, indexes) && n < |indexes|
    ensures AllBefore(existing, indexes[..n], indexes[n])
  {
  }

  lemma LastInOrder(existing: seq<Index>, xs: seq<Index>)
    requires InOrder(existing, xs) && xs != []
    ensures InOrder(existing, xs[..|xs| - 1])
    ensures AllBefore(existing, xs[..|xs| - 1], xs[|xs| - 1])
  {
    PrecedingAll(existing, xs, |xs| - 1);
  }

  lemma AllInOrder(existing: seq<Index>)
    requires DistinctNames(existing)
    ensures InOrder(existing, existing)
  {
    forall p, q | 0 <= p < q < |existing| ensures Before(existing, existing[p], existing[q]) {
      PositionIsUnique(existing, p);
      PositionIsUnique(existing, q);
    }
  }

  lemma {:induction false} NonclusteredInOrder(existing: seq<Index>, n: nat)
    requires DistinctNames(existing) && n <= |existing|
    ensures InOrder(existing, Nonclustered(existing[..n]))
  {
    if n > 0 {
      NonclusteredInOrder(existing, n - 1);
      assert existing[..n][..n - 1] == existing[..n - 1];
      AllInOrder(existing);
      PrecedingAll(existing, existing, n - 1);
      OneMoreInOrder(existing, Nonclustered(existing[..n - 1]), existing[n - 1]);
    }
  }

  lemma {:induction false} GroupInOrder(existing: seq<Index>, indexes: seq<Index>, signature: Signature, n: nat)
    requires InOrder(existing, indexes) && n <= |indexes|
    ensures InOrder(existing, WithSignature(indexes[..n], signature))
  {
    if n > 0 {
      GroupInOrder(existing, indexes, signature, n - 1);
      assert indexes[..n][..n - 1] == indexes[..n - 1];
      PrecedingAll(existing, indexes, n - 1);
      OneMoreInOrder(existing, WithSignature(indexes[..n - 1], signature), indexes[n - 1]);
    }
  }

  lemma {:induction false} ExtensionsInOrder(existing: seq<Index>, indexes: seq<Index>, narrow: Index,
                                             removed: set<string>, n: nat)
    requires InOrder(existing, indexes) && n <= |indexes|
    ensures InOrder(existing, Extensions(narrow, indexes[..n], removed))
  {
    if n > 0 {
      ExtensionsInOrder(existing, indexes, narrow, removed, n - 1);
      assert indexes[..n][..n - 1] == indexes[..n - 1];
      PrecedingAll(existing, indexes, n - 1);
      OneMoreInOrder(existing, Extensions(narrow, indexes[..n - 1], removed), indexes[n - 1]);
    }
  }

  // ---------------------------------------------------------------- the keeper and the widest

  lemma PrecedenceIsOneWay(context: Context, a: Index, b: Index)
    requires Precedes(context, a, b)
    ensures !Precedes(context, b, a)
  {
  }

  lemma PrecedenceGoesOn(context: Context, best: Index, other: Index, better: Index)
    requires Precedes(context, better, best) && !Precedes(context, other, best)
    ensures Precedes(context, better, other)
  {
  }

  lemma BeatenDoesNotPrecede(context: Context, existing: seq<Index>, s: Index, t: Index)
    requires Beats(context, existing, s, t)
    ensures !Precedes(context, t, s)
  {
    if Precedes(context, s, t) {
      PrecedenceIsOneWay(context, s, t);
    }
  }

  /** The keeper beats every other index of its group. */
  lemma {:induction false} KeeperBeats(context: Context, existing: seq<Index>, group: seq<Index>, twin: Index)
    requires InOrder(existing, group) && twin in group && twin != Keeper(context, group)
    ensures Beats(context, existing, Keeper(context, group), twin)
  {
    var front, last := group[..|group| - 1], group[|group| - 1];
    assert group == front + [last];
    if |group| > 1 {
      var best := Keeper(context, front);
      LastInOrder(existing, group);
      RankIsPrecedence(context, last, best);
      if twin in front && twin != best {
        KeeperBeats(context, existing, front, twin);
        BeatenDoesNotPrecede(context, existing, best, twin);
      }
      if Precedes(context, last, best) && twin != best {
        PrecedenceGoesOn(context, best, twin, last);
      }
    }
  }

  /** Two kept twins are one index. */
  lemma KeptIsOne(context: Context, existing: seq<Index>, s: Index, t: Index)
    requires DistinctNames(existing) && s in existing && t in existing && IsTwin(s, t)
    requires IsReviewed(s) && IsReviewed(t) && !s.isDisabled && !t.isDisabled
    requires IsKept(context, existing, s) && IsKept(context, existing, t)
    ensures s == t
  {
    if s != t {
      assert Beats(context, existing, s, t) && Beats(context, existing, t, s);
      BeatenDoesNotPrecede(context, existing, s, t);
      BeatenDoesNotPrecede(context, existing, t, s);
    }
  }

  lemma KeeperIsKept(context: Context, existing: seq<Index>, signature: Signature)
    requires DistinctNames(existing) && WithSignature(Nonclustered(existing), signature) != []
    ensures IsKept(context, existing, Keeper(context, WithSignature(Nonclustered(existing), signature)))
  {
    var indexes := Nonclustered(existing);
    var group := WithSignature(indexes, signature);
    var keeper := Keeper(context, group);
    assert existing[..|existing|] == existing && indexes[..|indexes|] == indexes;
    NonclusteredInOrder(existing, |existing|);
    GroupInOrder(existing, indexes, signature, |indexes|);
    forall t | t in existing && t != keeper && IsTwin(keeper, t) && IsReviewed(t) && !t.isDisabled
      ensures Beats(context, existing, keeper, t) {
      assert SignatureOf(t) == signature;
      KeeperBeats(context, existing, group, t);
    }
  }

  lemma KeptIsKeeper(context: Context, existing: seq<Index>, s: Index)
    requires DistinctNames(existing) && s in existing && IsReviewed(s) && !s.isDisabled && IsKept(context, existing, s)
    ensures s in WithSignature(Nonclustered(existing), SignatureOf(s))
    ensures s == Keeper(context, WithSignature(Nonclustered(existing), SignatureOf(s)))
  {
    KeeperIsKept(context, existing, SignatureOf(s));
    KeptIsOne(context, existing, s, Keeper(context, WithSignature(Nonclustered(existing), SignatureOf(s))));
  }

  /** Of two indexes the wider one, or the first of equally wide ones. */
  predicate Outdoes(existing: seq<Index>, s: Index, t: Index) {
    |t.keys| < |s.keys| || (|t.keys| == |s.keys| && Before(existing, s, t))
  }

  lemma {:induction false} WidestIsFirst(existing: seq<Index>, extensions: seq<Index>, other: Index)
    requires InOrder(existing, extensions) && other in extensions && other != Widest(extensions)
    ensures Outdoes(existing, Widest(extensions), other)
  {
    if |extensions| > 1 {
      var front, last := extensions[..|extensions| - 1], extensions[|extensions| - 1];
      assert extensions == front + [last];
      LastInOrder(existing, extensions);
      var best := Widest(front);
      WidestOfTwo(extensions);
      if |best.keys| < |last.keys| {
        assert |other.keys| <= |best.keys|;
      } else if other in front {
        WidestIsFirst(existing, front, other);
      } else {
        assert Before(existing, best, other);
      }
    }
  }

  lemma WidestOfTwo(extensions: seq<Index>)
    requires |extensions| > 1
    ensures var best, last := Widest(extensions[..|extensions| - 1]), extensions[|extensions| - 1];
            Widest(extensions) == if |best.keys| < |last.keys| then last else best
  {
  }
}
