/** The review as it runs: one object whose sets and findings the passes update in place. */
module IndexReview {
  import opened Wrappers
  import opened IndexModel
  import F = IndexFindings
  import FindingsSafety
  import FindingsJustified

  class Review {
    const context: F.Context
    const existing: seq<Index>
    var consumed: set<string>
    var removed: set<string>
    var survivors: set<string>
    var rebuilt: set<string>
    var findings: seq<F.Finding>

    /** The clustering keys of the context are those of the table. */
    constructor (lookups: F.Context, existing: seq<Index>)
      ensures context == lookups.(clustering := ClusteringKeys(existing))
      ensures this.existing == existing && State() == F.EMPTY
    {
      var clustering := FindClusteringKeys(existing);
      this.context, this.existing := lookups.(clustering := clustering), existing;
      consumed, removed, survivors, rebuilt, findings := {}, {}, {}, {}, [];
    }

    function State(): F.Ledger
      reads this
    {
      F.Ledger(consumed, removed, survivors, rebuilt, findings)
    }

    /** Columns of the redundant index that the survivor does not already carry. */
    method AbsorbedColumns(redundant: Index, survivor: Index) returns (needed: seq<Column>)
      ensures needed == F.Absorbed(redundant, survivor, context.clustering)
    {
      var present := Carried(survivor, context.clustering);
      var columns := redundant.includes + Names(redundant.keys);
      needed := [];
      for i := 0 to |columns|
        invariant needed + F.Missing(columns[i..], present) == F.Absorbed(redundant, survivor, context.clustering)
      {
        assert columns[i..][1..] == columns[i + 1..];
        if columns[i] !in present {
          assert needed + ([columns[i]] + F.Missing(columns[i + 1..], present + {columns[i]}))
              == (needed + [columns[i]]) + F.Missing(columns[i + 1..], present + {columns[i]});
          present := present + {columns[i]};
          needed := needed + [columns[i]];
        }
      }
    }

    method Consolidate(redundant: Index, survivor: Index)
      modifies this
      ensures State() == F.Consolidate(context, old(State()), redundant, survivor)
    {
      consumed := consumed + {redundant.name};
      var needed := AbsorbedColumns(redundant, survivor);
      if needed != [] && survivor.name in rebuilt {
        findings := findings + [F.Reviewed(redundant, F.RebuildAlreadyRecommended)];
        return;
      }
      var refusal := F.Refusal(context, survivor, needed);
      if refusal.Some? {
        findings := findings + [F.Reviewed(redundant, refusal.value)];
        return;
      }
      findings := findings + [F.Consolidated(redundant, survivor, needed)];
      removed := removed + {redundant.name};
      survivors := survivors + {survivor.name};
      if needed != [] {
        rebuilt := rebuilt + {survivor.name};
      }
    }

    static function Members(groups: map<F.Signature, seq<Index>>, s: F.Signature): seq<Index> {
      if s in groups then groups[s] else []
    }

    static ghost predicate Grouped(order: seq<F.Signature>, groups: map<F.Signature, seq<Index>>, indexes: seq<Index>) {
      && order == F.Signatures(indexes)
      && (forall s :: s in groups <==> s in order)
      && forall s :: Members(groups, s) == F.WithSignature(indexes, s)
    }

    /** Groups the enabled indexes by keys and filter, in order of first appearance. */
    method GroupBySignature(indexes: seq<Index>) returns (order: seq<F.Signature>, groups: map<F.Signature, seq<Index>>)
      ensures Grouped(order, groups, indexes)
    {
      order, groups := [], map[];
      for i := 0 to |indexes|
        invariant Grouped(order, groups, indexes[..i])
      {
        var index, signature := indexes[i], F.SignatureOf(indexes[i]);
        assert indexes[..i + 1] == indexes[..i] + [index];
        GroupStep(order, groups, indexes[..i], index);
        if !index.isDisabled {
          order := if signature in groups then order else order + [signature];
          groups := groups[signature := Members(groups, signature) + [index]];
        }
      }
      assert indexes[..|indexes|] == indexes;
    }

    static lemma GroupStep(order: seq<F.Signature>, groups: map<F.Signature, seq<Index>>, indexes: seq<Index>,
                           index: Index)
      requires Grouped(order, groups, indexes)
      ensures var signature := F.SignatureOf(index);
              if index.isDisabled then Grouped(order, groups, indexes + [index])
              else Grouped(if signature in groups then order else order + [signature],
                           groups[signature := Members(groups, signature) + [index]], indexes + [index])
    {
      JoinedSignatures(indexes, index);
      var signature := F.SignatureOf(index);
      var more := groups[signature := Members(groups, signature) + [index]];
      forall s ensures F.WithSignature(indexes + [index], s) == Members(if index.isDisabled then groups else more, s) {
        JoinedGroup(indexes, index, s);
      }
    }

    static lemma JoinedSignatures(indexes: seq<Index>, index: Index)
      ensures var signature, before := F.SignatureOf(index), F.Signatures(indexes);
              F.Signatures(indexes + [index]) == if index.isDisabled || signature in before then before
                else before + [signature]
    {
      assert (indexes + [index])[..|indexes|] == indexes;
    }

    static lemma JoinedGroup(indexes: seq<Index>, index: Index, s: F.Signature)
      ensures F.WithSignature(indexes + [index], s)
              == F.WithSignature(indexes, s) + if !index.isDisabled && s == F.SignatureOf(index) then [index] else []
    {
      assert (indexes + [index])[..|indexes|] == indexes;
    }

    method KeeperOf(group: seq<Index>) returns (keeper: Index)
      requires group != []
      ensures keeper == F.Keeper(context, group)
    {
      keeper := group[0];
      assert group[..1] == [group[0]];
      for i := 1 to |group|
        invariant keeper == F.Keeper(context, group[..i])
      {
        assert group[..i + 1][..i] == group[..i];
        if F.Less(F.Rank(context, keeper), F.Rank(context, group[i])) {
          keeper := group[i];
        }
      }
      assert group[..|group|] == group;
    }

    method ReviewDuplicates(indexes: seq<Index>)
      modifies this
      ensures State() == F.DuplicatePass(context, old(State()), indexes, F.Signatures(indexes))
    {
      var order, groups := GroupBySignature(indexes);
      ghost var start := State();
      for i := 0 to |order|
        invariant State() == F.DuplicatePass(context, start, indexes, order[..i])
      {
        DuplicateStep(context, start, indexes, order, i);
        var group := Members(groups, order[i]);
        if |group| >= 2 {
          ReviewGroup(group);
        }
      }
      assert order[..|order|] == order;
    }

    static lemma DuplicateStep(context: F.Context, ledger: F.Ledger, indexes: seq<Index>, order: seq<F.Signature>,
                               i: nat)
      requires i < |order|
      ensures var before, group :=
              F.DuplicatePass(context, ledger, indexes, order[..i]), F.WithSignature(indexes, order[i]);
              F.DuplicatePass(context, ledger, indexes, order[..i + 1])
              == if |group| < 2 then before else F.ReviewGroup(context, before, group, F.Keeper(context, group))
    {
      assert order[..i + 1][..i] == order[..i];
    }

    method ReviewGroup(group: seq<Index>)
      requires group != []
      modifies this
      ensures State() == F.ReviewGroup(context, old(State()), group, F.Keeper(context, group))
    {
      var keeper := KeeperOf(group);
      for i := 0 to |group|
        invariant State() == F.ReviewGroup(context, old(State()), group[..i], keeper)
      {
        var duplicate := group[i];
        assert group[..i + 1][..i] == group[..i];
        if duplicate == keeper || !F.RemovableInto(duplicate, keeper) { continue; }
        if duplicate.name in context.pins && keeper.name in context.pins {
          consumed := consumed + {duplicate.name};
          findings := findings + [F.Reviewed(duplicate, F.PinnedDuplicate)];
          continue;
        }
        Consolidate(duplicate, keeper);
      }
      assert group[..|group|] == group;
    }

    static function Best(extensions: seq<Index>): Option<Index> {
      if extensions == [] then None else Some(F.Widest(extensions))
    }

    method WidestExtension(narrow: Index, indexes: seq<Index>) returns (wider: Option<Index>)
      ensures wider == Best(F.Extensions(narrow, indexes, removed))
    {
      wider := None;
      for i := 0 to |indexes|
        invariant wider == Best(F.Extensions(narrow, indexes[..i], removed))
      {
        BestStep(narrow, indexes, removed, i);
        if F.Extends(narrow, indexes[i], removed) && (wider.None? || |wider.value.keys| < |indexes[i].keys|) {
          wider := Some(indexes[i]);
        }
      }
      assert indexes[..|indexes|] == indexes;
    }

    static lemma BestStep(narrow: Index, indexes: seq<Index>, removed: set<string>, i: nat)
      requires i < |indexes|
      ensures var best := Best(F.Extensions(narrow, indexes[..i], removed));
              Best(F.Extensions(narrow, indexes[..i + 1], removed))
              == if F.Extends(narrow, indexes[i], removed) && (best.None? || |best.value.keys| < |indexes[i].keys|)
                 then Some(indexes[i]) else best
    {
      var before := F.Extensions(narrow, indexes[..i], removed);
      assert indexes[..i + 1][..i] == indexes[..i] && indexes[..i + 1][i] == indexes[i];
      if F.Extends(narrow, indexes[i], removed) {
        assert (before + [indexes[i]])[..|before|] == before;
      } else {
        assert before + [] == before;
      }
    }

    method ReviewPrefixes(indexes: seq<Index>)
      modifies this
      ensures State() == F.PrefixPass(context, old(State()), indexes, indexes)
    {
      for i := 0 to |indexes|
        invariant State() == F.PrefixPass(context, old(State()), indexes[..i], indexes)
      {
        var narrow := indexes[i];
        assert indexes[..i + 1][..i] == indexes[..i];
        if narrow.name in consumed || narrow.name in survivors || narrow.isDisabled || F.Protected(narrow) { continue; }
        if narrow.filter != "" { continue; }
        var wider := WidestExtension(narrow, indexes);
        if wider.Some? {
          Consolidate(narrow, wider.value);
        }
      }
      assert indexes[..|indexes|] == indexes;
    }

    method OtherSupport(index: Index) returns (support: set<int>)
      ensures support == F.Support(existing, removed, Some(index))
    {
      support := {};
      for i := |existing| downto 0
        invariant support == F.Support(existing[i..], removed, Some(index))
      {
        assert existing[i..][1..] == existing[i + 1..];
        if F.Live(existing[i], removed) && existing[i] != index {
          support := F.ForeignKeys(existing[i]) + support;
        }
      }
    }

    method ReviewUnusedIndexes(indexes: seq<Index>)
      modifies this
      ensures State() == F.UnusedPass(context, old(State()), indexes, existing)
    {
      for i := 0 to |indexes|
        invariant State() == F.UnusedPass(context, old(State()), indexes[..i], existing)
      {
        assert indexes[..i + 1][..i] == indexes[..i];
        ReviewUnused(indexes[i]);
      }
      assert indexes[..|indexes|] == indexes;
    }

    method ReviewUnused(index: Index)
      modifies this
      ensures State() == F.ReviewUnused(context, old(State()), index, existing)
    {
      if index.name in consumed || index.name in survivors { return; }
      if index.isDisabled {
        findings := findings + [F.Reviewed(index, F.DisabledIndex)];
        return;
      }
      if F.HasReads(context, index) {
        if F.WritesOutweighReads(index) {
          findings := findings + [F.Reviewed(index, F.WriteHeavy)];
        }
        return;
      }
      if index.filter != "" {
        findings := findings + [F.Reviewed(index, F.UnusedFiltered)];
        return;
      }
      if F.Protected(index) { return; }
      var support := OtherSupport(index);
      if !(F.ForeignKeys(index) <= support) {
        findings := findings + [F.Reviewed(index, F.SoleForeignKeySupport)];
      } else if index.name in context.planReferences && context.planReferences[index.name] > 0 {
        findings := findings + [F.Reviewed(index, F.InQueryStorePlans)];
      } else if context.uptimeDays.Some? && context.uptimeDays.value < F.UNUSED_MIN_UPTIME_DAYS {
        findings := findings + [F.Reviewed(index, F.CountersRecent)];
      } else if index.ageDays.Some? && index.ageDays.value < F.UNUSED_MIN_UPTIME_DAYS {
        findings := findings + [F.Reviewed(index, F.YoungIndex)];
      } else {
        findings := findings + [F.Dropped(index)];
        removed := removed + {index.name};
      }
    }

    /** The three passes in order; the result is justified and conserves foreign-key support. */
    method Run()
      requires DistinctNames(existing) && State() == F.EMPTY
      modifies this
      ensures State() == F.Reviewing(context, existing)
      ensures FindingsSafety.Justified(context, existing, findings)
      ensures F.Support(existing, removed, None) == F.Support(existing, {}, None)
    {
      var indexes := F.Nonclustered(existing);
      ReviewDuplicates(indexes);
      ReviewPrefixes(indexes);
      ReviewUnusedIndexes(indexes);
      FindingsJustified.ReviewIsJustified(context, existing);
      FindingsJustified.ReviewIsSafe(context, existing);
    }
  }
}
