/** The three passes of the index review only ever produce justified findings. */
module FindingsJustified {
  import opened Wrappers
  import opened IndexModel
  import opened IndexFindings
  import opened FindingsSafety

  /** The ledger's sets say what its findings say, and the findings are justified. */
  ghost predicate Faithful(context: Context, existing: seq<Index>, ledger: Ledger) {
    && ledger.removed == Removed(ledger.findings)
    && ledger.survivors == Survivors(ledger.findings)
    && ledger.rebuilt == Rebuilt(ledger.findings)
    && Justified(context, existing, ledger.findings)
  }

  lemma AppendKeeps(context: Context, existing: seq<Index>, ledger: Ledger, finding: Finding, after: Ledger)
    requires Faithful(context, existing, ledger)
    requires JustifiedNext(context, existing, ledger.findings, finding)
    requires after.findings == ledger.findings + [finding]
    requires after.removed == ledger.removed + match finding
                              case Consolidated(redundant, _, _) => {redundant.name}
                              case Dropped(index) => {index.name}
                              case Reviewed(_, _) => {}
    requires after.survivors == ledger.survivors + if finding.Consolidated? then {finding.survivor.name} else {}
    requires after.rebuilt == ledger.rebuilt + if finding.Consolidated? && finding.needed != []
             then {finding.survivor.name} else {}
    ensures Faithful(context, existing, after)
  {
    assert after.findings[..|after.findings| - 1] == ledger.findings;
  }

  lemma ConsolidateKeeps(context: Context, existing: seq<Index>, ledger: Ledger, redundant: Index, survivor: Index)
    requires Faithful(context, existing, ledger) && DistinctNames(existing)
    requires redundant in existing && survivor in existing && redundant.name != survivor.name
    requires redundant.typeCode == NONCLUSTERED && survivor.typeCode == NONCLUSTERED
    requires !redundant.isDisabled && !survivor.isDisabled
    requires redundant.name !in ledger.survivors && survivor.name !in ledger.removed
    requires RemovableInto(redundant, survivor) && redundant.filter == survivor.filter
             && redundant.keys <= survivor.keys
    ensures Faithful(context, existing, Consolidate(context, ledger, redundant, survivor))
  {
    var after := Consolidate(context, ledger, redundant, survivor);
    AppendKeeps(context, existing, ledger, after.findings[|ledger.findings|], after);
  }

  // ---------------------------------------------------------------- exact duplicates

  /** Every name the ledger knows belongs to an enabled index with one of the signatures. */
  ghost predicate TouchedOnly(ledger: Ledger, indexes: seq<Index>, signatures: set<Signature>) {
    && ledger.removed <= ledger.consumed
    && forall name :: name in ledger.consumed + ledger.survivors ==> Named(name, indexes, signatures)
  }

  ghost predicate Named(name: string, indexes: seq<Index>, signatures: set<Signature>) {
    exists index :: index in indexes && index.name == name && !index.isDisabled && SignatureOf(index) in signatures
  }

  /** While one group of duplicates is reviewed: the keeper stays and no other member absorbs. */
  ghost predicate KeeperStands(ledger: Ledger, group: seq<Index>, keeper: Index) {
    keeper.name !in ledger.removed
      && forall other :: other in group && other != keeper ==> other.name !in ledger.survivors
  }

  lemma FreshGroup(existing: seq<Index>, indexes: seq<Index>, ledger: Ledger, signatures: set<Signature>,
                   signature: Signature, keeper: Index)
    requires DistinctNames(existing) && indexes == Nonclustered(existing)
    requires TouchedOnly(ledger, indexes, signatures) && signature !in signatures
    requires keeper in WithSignature(indexes, signature)
    ensures KeeperStands(ledger, WithSignature(indexes, signature), keeper)
  {
    forall other | other in WithSignature(indexes, signature)
      ensures other.name !in ledger.consumed + ledger.survivors
    {
      forall index | index in indexes && index.name == other.name ensures index == other {
        SameName(existing, index, other);
      }
    }
  }

  /** What one duplicate may change in the ledger's sets. */
  lemma DuplicateEffect(context: Context, ledger: Ledger, duplicate: Index, keeper: Index)
    ensures var after := ReviewDuplicate(context, ledger, duplicate, keeper);
            && ledger.consumed <= after.consumed <= ledger.consumed + {duplicate.name}
            && after.survivors <= ledger.survivors + {keeper.name}
            && (after.removed == ledger.removed
                || (after.removed == ledger.removed + {duplicate.name} && duplicate.name in after.consumed
                  && duplicate != keeper))
  {
  }

  lemma SetsAfterDuplicate(indexes: seq<Index>, group: seq<Index>, ledger: Ledger, after: Ledger,
                           signatures: set<Signature>, duplicate: Index, keeper: Index)
    requires duplicate in group && keeper in group
    requires forall index :: index in group ==>
               index in indexes && !index.isDisabled && SignatureOf(index) in signatures
    requires forall other :: other in group && other != keeper ==> other.name != keeper.name
    requires TouchedOnly(ledger, indexes, signatures) && KeeperStands(ledger, group, keeper)
    requires ledger.consumed <= after.consumed <= ledger.consumed + {duplicate.name}
    requires after.survivors <= ledger.survivors + {keeper.name}
    requires after.removed == ledger.removed
             || (after.removed == ledger.removed + {duplicate.name} && duplicate.name in after.consumed
               && duplicate != keeper)
    ensures TouchedOnly(after, indexes, signatures) && KeeperStands(after, group, keeper)
  {
    assert Named(duplicate.name, indexes, signatures) && Named(keeper.name, indexes, signatures);
    forall name | name in after.consumed + after.survivors ensures Named(name, indexes, signatures) {
      assert name == duplicate.name || name == keeper.name || name in ledger.consumed + ledger.survivors;
    }
  }

  lemma DuplicateKeeps(context: Context, existing: seq<Index>, ledger: Ledger, signatures: set<Signature>,
                       signature: Signature, duplicate: Index, keeper: Index)
    requires DistinctNames(existing) && Faithful(context, existing, ledger)
    requires var indexes := Nonclustered(existing); var group := WithSignature(indexes, signature);
             && duplicate in group && keeper in group && signature in signatures
             && TouchedOnly(ledger, indexes, signatures) && KeeperStands(ledger, group, keeper)
    ensures var after := ReviewDuplicate(context, ledger, duplicate, keeper); var indexes := Nonclustered(existing);
            && Faithful(context, existing, after) && TouchedOnly(after, indexes, signatures)
            && KeeperStands(after, WithSignature(indexes, signature), keeper)
  {
    var after := ReviewDuplicate(context, ledger, duplicate, keeper);
    OthersApart(existing, signature, keeper);
    DuplicateEffect(context, ledger, duplicate, keeper);
    SetsAfterDuplicate(Nonclustered(existing), WithSignature(Nonclustered(existing), signature), ledger, after,
                       signatures, duplicate, keeper);
    if duplicate != keeper && RemovableInto(duplicate, keeper) {
      if duplicate.name in context.pins && keeper.name in context.pins {
        AppendKeeps(context, existing, ledger, Reviewed(duplicate, PinnedDuplicate), after);
      } else {
        ConsolidateKeeps(context, existing, ledger, duplicate, keeper);
      }
    }
  }

  lemma OthersApart(existing: seq<Index>, signature: Signature, keeper: Index)
    requires DistinctNames(existing)
    requires keeper in WithSignature(Nonclustered(existing), signature)
    ensures forall other :: other in WithSignature(Nonclustered(existing), signature) && other != keeper ==>
              other.name != keeper.name
  {
    forall other | other in WithSignature(Nonclustered(existing), signature) && other != keeper
      ensures other.name != keeper.name {
      if other.name == keeper.name { SameName(existing, other, keeper); }
    }
  }

  lemma {:induction false} GroupKeeps(context: Context, existing: seq<Index>, ledger: Ledger,
                                      signatures: set<Signature>, signature: Signature, part: seq<Index>, keeper: Index)
    requires DistinctNames(existing) && Faithful(context, existing, ledger)
    requires var indexes := Nonclustered(existing); var group := WithSignature(indexes, signature);
             && (forall index :: index in part ==> index in group) && keeper in group && signature in signatures
             && TouchedOnly(ledger, indexes, signatures) && KeeperStands(ledger, group, keeper)
    ensures var after := ReviewGroup(context, ledger, part, keeper); var indexes := Nonclustered(existing);
            && Faithful(context, existing, after) && TouchedOnly(after, indexes, signatures)
            && KeeperStands(after, WithSignature(indexes, signature), keeper)
  {
    if part != [] {
      var front := part[..|part| - 1];
      GroupKeeps(context, existing, ledger, signatures, signature, front, keeper);
      DuplicateKeeps(context, existing, ReviewGroup(context, ledger, front, keeper), signatures, signature,
                     part[|part| - 1], keeper);
    }
  }

  lemma NamedAmongMore(indexes: seq<Index>, seen: set<Signature>, all: set<Signature>)
    requires seen <= all
    ensures forall name :: Named(name, indexes, seen) ==> Named(name, indexes, all)
  {
  }

  lemma {:induction false} DuplicatesKeep(context: Context, existing: seq<Index>, signatures: seq<Signature>)
    requires DistinctNames(existing)
    requires forall i, j :: 0 <= i < j < |signatures| ==> signatures[i] != signatures[j]
    ensures var after := DuplicatePass(context, EMPTY, Nonclustered(existing), signatures);
            Faithful(context, existing, after) && TouchedOnly(after, Nonclustered(existing), set s | s in signatures)
  {
    var indexes := Nonclustered(existing);
    if signatures != [] {
      var front, last := signatures[..|signatures| - 1], signatures[|signatures| - 1];
      DuplicatesKeep(context, existing, front);
      var before, group := DuplicatePass(context, EMPTY, indexes, front), WithSignature(indexes, last);
      var seen, all := set s | s in front, set s | s in signatures;
      assert signatures == front + [last];
      NamedAmongMore(indexes, seen, all);
      if |group| >= 2 {
        var keeper := Keeper(context, group);
        FreshGroup(existing, indexes, before, seen, last, keeper);
        GroupKeeps(context, existing, before, all, last, group, keeper);
      }
    }
  }

  // ---------------------------------------------------------------- left prefixes and unused indexes

  lemma {:induction false} PrefixesKeep(context: Context, existing: seq<Index>, ledger: Ledger, todo: seq<Index>)
    requires DistinctNames(existing) && Faithful(context, existing, ledger)
    requires forall index :: index in todo ==> index in Nonclustered(existing)
    ensures Faithful(context, existing, PrefixPass(context, ledger, todo, Nonclustered(existing)))
  {
    if todo != [] {
      var front, narrow, indexes := todo[..|todo| - 1], todo[|todo| - 1], Nonclustered(existing);
      PrefixesKeep(context, existing, ledger, front);
      var before := PrefixPass(context, ledger, front, indexes);
      var extensions := Extensions(narrow, indexes, before.removed);
      if NarrowCandidate(before, narrow) && extensions != [] {
        var wider := Widest(extensions);
        if narrow.name == wider.name { SameName(existing, narrow, wider); }
        ConsolidateKeeps(context, existing, before, narrow, wider);
      }
    }
  }

  lemma UnusedStepKeeps(context: Context, existing: seq<Index>, ledger: Ledger, index: Index)
    requires Faithful(context, existing, ledger) && index in existing
    ensures Faithful(context, existing, ReviewUnused(context, ledger, index, existing))
  {
    var after := ReviewUnused(context, ledger, index, existing);
    if after.findings != ledger.findings {
      var finding := after.findings[|ledger.findings|];
      assert finding.Dropped? ==> JustifiedDrop(existing, ledger.findings, index);
      AppendKeeps(context, existing, ledger, finding, after);
    }
  }

  lemma {:induction false} UnusedKeeps(context: Context, existing: seq<Index>, ledger: Ledger, todo: seq<Index>)
    requires Faithful(context, existing, ledger)
    requires forall index :: index in todo ==> index in existing
    ensures Faithful(context, existing, UnusedPass(context, ledger, todo, existing))
  {
    if todo != [] {
      var front := todo[..|todo| - 1];
      UnusedKeeps(context, existing, ledger, front);
      UnusedStepKeeps(context, existing, UnusedPass(context, ledger, front, existing), todo[|todo| - 1]);
    }
  }

  /** The whole review is justified, so every guarantee of a justified list holds for it. */
  lemma ReviewIsJustified(context: Context, existing: seq<Index>)
    requires DistinctNames(existing)
    ensures Faithful(context, existing, Reviewing(context, existing))
  {
    var indexes := Nonclustered(existing);
    DuplicatesKeep(context, existing, Signatures(indexes));
    var duplicates := DuplicatePass(context, EMPTY, indexes, Signatures(indexes));
    PrefixesKeep(context, existing, duplicates, indexes);
    UnusedKeeps(context, existing, PrefixPass(context, duplicates, indexes, indexes), indexes);
  }

  /** In every review the foreign-key support, the protected indexes and the survivors stay. */
  lemma ReviewIsSafe(context: Context, existing: seq<Index>)
    requires DistinctNames(existing)
    ensures var ledger := Reviewing(context, existing);
            && Support(existing, ledger.removed, None) == Support(existing, {}, None)
            && Support(After(existing, ledger.findings), {}, None) == Support(existing, {}, None)
            && ledger.removed !! ledger.survivors
            && forall index :: index in existing && Protected(index) ==> index.name !in ledger.removed
  {
    var ledger := Reviewing(context, existing);
    ReviewIsJustified(context, existing);
    SupportIsConserved(context, existing, ledger.findings);
    PlanKeepsSupport(context, existing, ledger.findings);
    SurvivorsAreKept(context, existing, ledger.findings);
    forall index | index in existing && Protected(index) ensures index.name !in ledger.removed {
      ProtectedAreKept(context, existing, ledger.findings, index);
    }
  }

  /** In every review, what an index covered is still covered when the plan is carried out, unless
      the review drops that index as unused. */
  lemma ReviewKeepsCoverage(context: Context, existing: seq<Index>, index: Index, keys: seq<Key>, includes: seq<Column>)
    requires DistinctNames(existing) && index in existing && index.typeCode == NONCLUSTERED && !index.isDisabled
    requires Dropped(index) !in Reviewing(context, existing).findings
             && Covers(index, keys, includes, context.clustering)
    ensures exists kept :: kept in After(existing, Reviewing(context, existing).findings) && !kept.isDisabled
                           && Covers(kept, keys, includes, context.clustering)
  {
    ReviewIsJustified(context, existing);
    PlanKeepsCoverage(context, existing, Reviewing(context, existing).findings, index, keys, includes);
  }

  /** And no survivor is rebuilt twice. */
  lemma ReviewRebuildsOnce(context: Context, existing: seq<Index>, i: nat, j: nat)
    requires DistinctNames(existing) && i < j < |Reviewing(context, existing).findings|
    requires Reviewing(context, existing).findings[i].Consolidated?
             && Reviewing(context, existing).findings[i].needed != []
    requires Reviewing(context, existing).findings[j].Consolidated?
             && Reviewing(context, existing).findings[j].needed != []
    ensures Reviewing(context, existing).findings[i].survivor.name
            != Reviewing(context, existing).findings[j].survivor.name
  {
    ReviewIsJustified(context, existing);
    RebuiltOnce(context, existing, Reviewing(context, existing).findings, i, j);
  }

  /** Whichever findings of the review are carried out, in whatever order, support and coverage are kept. */
  lemma ReviewSelectionIsSafe(context: Context, existing: seq<Index>, selected: seq<Finding>)
    requires DistinctNames(existing) && Selection(selected, Reviewing(context, existing).findings)
    ensures Support(After(existing, selected), {}, None) == Support(existing, {}, None)
  {
    ReviewIsJustified(context, existing);
    SelectionKeepsSupport(context, existing, Reviewing(context, existing).findings, selected);
  }

  lemma ReviewSelectionKeepsCoverage(context: Context, existing: seq<Index>, selected: seq<Finding>, index: Index,
                                     keys: seq<Key>, includes: seq<Column>)
    requires DistinctNames(existing) && Selection(selected, Reviewing(context, existing).findings)
    requires index in existing && index.typeCode == NONCLUSTERED && !index.isDisabled && Dropped(index) !in selected
    requires Covers(index, keys, includes, context.clustering)
    ensures exists kept :: kept in After(existing, selected) && !kept.isDisabled
                           && Covers(kept, keys, includes, context.clustering)
  {
    ReviewIsJustified(context, existing);
    SelectionKeepsCoverage(context, existing, Reviewing(context, existing).findings, selected, index, keys, includes);
  }
}
