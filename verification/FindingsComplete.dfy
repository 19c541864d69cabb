/** The index review overlooks nothing: each redundant or unused index ends up with a finding,
    as a survivor, or protected. */
module FindingsComplete {
  import opened Wrappers
  import opened IndexModel
  import opened IndexFindings

  /** `after` keeps what `before` recorded. */
  predicate Grows(before: Ledger, after: Ledger) {
    before.consumed <= after.consumed && before.removed <= after.removed && before.survivors <= after.survivors
  }

  lemma {:induction false} GroupGrows(context: Context, ledger: Ledger, group: seq<Index>, keeper: Index)
    ensures Grows(ledger, ReviewGroup(context, ledger, group, keeper))
    ensures forall duplicate :: duplicate in group && duplicate != keeper && RemovableInto(duplicate, keeper)
              ==> duplicate.name in ReviewGroup(context, ledger, group, keeper).consumed
  {
    if group != [] {
      var front, last := group[..|group| - 1], group[|group| - 1];
      assert group == front + [last];
      GroupGrows(context, ledger, front, keeper);
    }
  }

  /** The group that was reviewed last: nothing is forgotten and every removable twin is consumed. */
  lemma LastGroupReviewed(context: Context, indexes: seq<Index>, signatures: seq<Signature>)
    requires signatures != []
    ensures var front, last := signatures[..|signatures| - 1], signatures[|signatures| - 1];
            var group, after := WithSignature(indexes, last), DuplicatePass(context, EMPTY, indexes, signatures);
            && Grows(DuplicatePass(context, EMPTY, indexes, front), after)
            && (group != [] ==>
                  forall twin :: twin in group && twin != Keeper(context, group)
                    && RemovableInto(twin, Keeper(context, group))
                    ==> twin.name in after.consumed)
  {
    var group := WithSignature(indexes, signatures[|signatures| - 1]);
    if group != [] {
      GroupGrows(context, DuplicatePass(context, EMPTY, indexes, signatures[..|signatures| - 1]), group,
        Keeper(context, group));
    }
  }

  lemma PassGrows(context: Context, indexes: seq<Index>, signatures: seq<Signature>)
    requires signatures != []
    ensures Grows(DuplicatePass(context, EMPTY, indexes, signatures[..|signatures| - 1]),
            DuplicatePass(context, EMPTY, indexes, signatures))
  {
    LastGroupReviewed(context, indexes, signatures);
  }

  /** The index is a twin of its group's keeper that may go into it. */
  predicate Redundant(context: Context, indexes: seq<Index>, signature: Signature, duplicate: Index) {
    var group := WithSignature(indexes, signature);
    duplicate in group && duplicate != Keeper(context, group) && RemovableInto(duplicate, Keeper(context, group))
  }

  lemma LastTwinConsumed(context: Context, indexes: seq<Index>, signatures: seq<Signature>, duplicate: Index)
    requires signatures != [] && Redundant(context, indexes, signatures[|signatures| - 1], duplicate)
    ensures duplicate.name in DuplicatePass(context, EMPTY, indexes, signatures).consumed
  {
    LastGroupReviewed(context, indexes, signatures);
  }

  lemma {:induction false} DuplicatesReviewed(context: Context, indexes: seq<Index>, signatures: seq<Signature>,
                                              signature: Signature, duplicate: Index)
    requires signature in signatures && Redundant(context, indexes, signature, duplicate)
    ensures duplicate.name in DuplicatePass(context, EMPTY, indexes, signatures).consumed
  {
    var front, last := signatures[..|signatures| - 1], signatures[|signatures| - 1];
    assert signatures == front + [last];
    if last == signature {
      LastTwinConsumed(context, indexes, signatures, duplicate);
    } else {
      DuplicatesReviewed(context, indexes, front, signature, duplicate);
      PassGrows(context, indexes, signatures);
    }
  }

  lemma {:induction false} PrefixesGrow(context: Context, ledger: Ledger, todo: seq<Index>, indexes: seq<Index>)
    ensures Grows(ledger, PrefixPass(context, ledger, todo, indexes))
  {
    if todo != [] {
      PrefixesGrow(context, ledger, todo[..|todo| - 1], indexes);
    }
  }

  /** A narrow index that a live index extends is reviewed in the second pass, unless it absorbs one itself. */
  lemma {:induction false} PrefixesReviewed(context: Context, ledger: Ledger, todo: seq<Index>, indexes: seq<Index>,
                                            narrow: Index, wider: Index)
    requires narrow in todo && wider in indexes && !narrow.isDisabled && !Protected(narrow) && narrow.filter == ""
    requires Extends(narrow, wider, PrefixPass(context, ledger, todo, indexes).removed)
    ensures var after := PrefixPass(context, ledger, todo, indexes);
            narrow.name in after.consumed || narrow.name in after.survivors
  {
    var front, last := todo[..|todo| - 1], todo[|todo| - 1];
    assert todo == front + [last];
    var before := PrefixPass(context, ledger, front, indexes);
    assert Extends(narrow, wider, before.removed);
    if narrow in front {
      PrefixesReviewed(context, ledger, front, indexes, narrow, wider);
    } else {
      assert wider in Extensions(narrow, indexes, before.removed);
    }
  }

  lemma {:induction false} UnusedGrows(context: Context, ledger: Ledger, todo: seq<Index>, existing: seq<Index>)
    ensures Grows(ledger, UnusedPass(context, ledger, todo, existing))
  {
    if todo != [] {
      UnusedGrows(context, ledger, todo[..|todo| - 1], existing);
    }
  }

  /** Nothing holds the index back: no counter, plan or foreign key speaks for it. */
  predicate Unneeded(context: Context, index: Index, existing: seq<Index>, removed: set<string>) {
    && !index.isDisabled && !HasReads(context, index)
    && UnusedVerdict(context, index, existing, removed) == Some(Dropped(index))
  }

  /** An index that is unneeded even after all other removals is removed, if nothing was said of it before. */
  lemma {:induction false} UnusedReviewed(context: Context, ledger: Ledger, todo: seq<Index>, existing: seq<Index>,
                                          index: Index)
    requires index in todo && Unneeded(context, index, existing, UnusedPass(context, ledger, todo, existing).removed)
    ensures var after := UnusedPass(context, ledger, todo, existing);
            index.name in after.removed + after.consumed + after.survivors
  {
    var front, last := todo[..|todo| - 1], todo[|todo| - 1];
    assert todo == front + [last];
    var before, after := UnusedPass(context, ledger, front, existing), UnusedPass(context, ledger, todo, existing);
    SupportShrinks(existing, before.removed, after.removed, Some(index));
    assert Unneeded(context, index, existing, before.removed);
    if index in front {
      UnusedReviewed(context, ledger, front, existing, index);
    }
  }

  /** Completeness of the whole review, stated on its final ledger. */
  lemma ReviewIsComplete(context: Context, existing: seq<Index>, index: Index)
    requires index in Nonclustered(existing) && !index.isDisabled
    ensures var ledger := Reviewing(context, existing); var indexes := Nonclustered(existing);
            var group := WithSignature(indexes, SignatureOf(index));
            && (index != Keeper(context, group) && RemovableInto(index, Keeper(context, group)) ==>
                index.name in ledger.consumed)
            && (!Protected(index) && index.filter == ""
                && (exists wider :: wider in indexes && Extends(index, wider, ledger.removed)) ==>
                index.name in ledger.consumed + ledger.survivors)
            && (Unneeded(context, index, existing, ledger.removed)
                ==> index.name in ledger.removed + ledger.consumed + ledger.survivors)
  {
    var indexes := Nonclustered(existing);
    var duplicates := DuplicatePass(context, EMPTY, indexes, Signatures(indexes));
    var prefixes := PrefixPass(context, duplicates, indexes, indexes);
    var ledger := Reviewing(context, existing);
    PrefixesGrow(context, duplicates, indexes, indexes);
    UnusedGrows(context, prefixes, indexes, existing);
    var keeper := Keeper(context, WithSignature(indexes, SignatureOf(index)));
    if index != keeper && RemovableInto(index, keeper) {
      DuplicatesReviewed(context, indexes, Signatures(indexes), SignatureOf(index), index);
    }
    if wider :| wider in indexes && Extends(index, wider, ledger.removed) && !Protected(index) && index.filter == "" {
      assert Extends(index, wider, prefixes.removed);
      PrefixesReviewed(context, duplicates, indexes, indexes, index, wider);
    }
    if Unneeded(context, index, existing, ledger.removed) {
      UnusedReviewed(context, prefixes, indexes, existing, index);
    }
  }
}
