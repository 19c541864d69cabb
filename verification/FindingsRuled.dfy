/** Every review follows the rules finding by finding, and every index is considered by them. */
module FindingsRuled {
  import opened Wrappers
  import opened IndexModel
  import opened IndexFindings
  import opened FindingsSafety
  import opened FindingsJustified
  import opened FindingsRules
  import FC = FindingsComplete

  ghost predicate ByRule(context: Context, existing: seq<Index>, ledger: Ledger) {
    && Faithful(context, existing, ledger) && ledger.consumed == Settled(ledger.findings)
    && AllRuled(context, existing, ledger.findings)
  }

  lemma AppendIsByRule(context: Context, existing: seq<Index>, ledger: Ledger, finding: Finding, after: Ledger)
    requires ByRule(context, existing, ledger) && Ruled(context, existing, ledger.findings, finding)
    requires Faithful(context, existing, after) && after.findings == ledger.findings + [finding]
    requires after.consumed == ledger.consumed
             + if Settles(finding, Subject(finding)) then {Subject(finding).name} else {}
    ensures ByRule(context, existing, after)
  {
    assert after.findings[..|after.findings| - 1] == ledger.findings;
  }

  // ---------------------------------------------------------------- one index into another

  lemma ReplacesIsRemovable(existing: seq<Index>, r: Index, s: Index)
    requires r in existing && s in existing && r != s && IsReviewed(r) && IsReviewed(s)
    requires !r.isDisabled && !s.isDisabled && r.filter == s.filter
    ensures Replaces(existing, r, s) <==> RemovableInto(r, s)
  {
  }

  /** What Consolidate records is the outcome that the rules call for. */
  lemma ConsolidateHasOutcome(context: Context, existing: seq<Index>, ledger: Ledger, r: Index, s: Index)
    requires ledger.rebuilt == Rebuilt(ledger.findings) && s.typeCode == 2 && !PinnedTwins(context, r, s)
    ensures var after := Consolidate(context, ledger, r, s);
            && |after.findings| == |ledger.findings| + 1
            && after.findings == ledger.findings + [after.findings[|ledger.findings|]]
            && Outcome(context, ledger.findings, r, s, Absorbed(r, s, context.clustering),
                       after.findings[|ledger.findings|])
            && after.consumed == ledger.consumed + {r.name}
            && Settles(after.findings[|ledger.findings|], r) && Subject(after.findings[|ledger.findings|]) == r
  {
    var needed := Absorbed(r, s, context.clustering);
    if needed != [] {
      RefusalIsByRule(context, s, needed);
    }
  }

  lemma ConsolidateIsByRule(context: Context, existing: seq<Index>, ledger: Ledger, r: Index, s: Index)
    requires ByRule(context, existing, ledger) && Merges(context, existing, ledger.findings, r, s)
    requires !PinnedTwins(context, r, s) && Faithful(context, existing, Consolidate(context, ledger, r, s))
    ensures ByRule(context, existing, Consolidate(context, ledger, r, s))
  {
    var after, needed := Consolidate(context, ledger, r, s), Absorbed(r, s, context.clustering);
    ConsolidateHasOutcome(context, existing, ledger, r, s);
    AbsorbedIsNeeded(context, r, s);
    var finding := after.findings[|ledger.findings|];
    assert SettledByRule(context, existing, ledger.findings, r, finding);
    AppendIsByRule(context, existing, ledger, finding, after);
  }

  // ---------------------------------------------------------------- exact duplicates

  lemma TwinMerges(context: Context, existing: seq<Index>, ledger: Ledger, signature: Signature, duplicate: Index,
                   keeper: Index)
    requires DistinctNames(existing) && Faithful(context, existing, ledger)
    requires var group := WithSignature(Nonclustered(existing), signature);
             && duplicate in group && keeper == Keeper(context, group) && KeeperStands(ledger, group, keeper)
    requires duplicate != keeper && RemovableInto(duplicate, keeper)
    ensures Merges(context, existing, ledger.findings, duplicate, keeper)
  {
    KeeperIsKept(context, existing, signature);
    ReplacesIsRemovable(existing, duplicate, keeper);
    assert GoesInto(context, existing, duplicate, keeper);
  }

  lemma DuplicateIsByRule(context: Context, existing: seq<Index>, ledger: Ledger, signatures: set<Signature>,
                          signature: Signature, duplicate: Index, keeper: Index)
    requires DistinctNames(existing) && ByRule(context, existing, ledger)
    requires var indexes := Nonclustered(existing); var group := WithSignature(indexes, signature);
             && duplicate in group && keeper == Keeper(context, group) && signature in signatures
             && TouchedOnly(ledger, indexes, signatures) && KeeperStands(ledger, group, keeper)
    ensures ByRule(context, existing, ReviewDuplicate(context, ledger, duplicate, keeper))
  {
    var after := ReviewDuplicate(context, ledger, duplicate, keeper);
    DuplicateKeeps(context, existing, ledger, signatures, signature, duplicate, keeper);
    if duplicate != keeper && RemovableInto(duplicate, keeper) {
      TwinMerges(context, existing, ledger, signature, duplicate, keeper);
      if PinnedTwins(context, duplicate, keeper) {
        AbsorbedIsNeeded(context, duplicate, keeper);
        assert Outcome(context, ledger.findings, duplicate, keeper, Absorbed(duplicate, keeper, context.clustering),
                       Reviewed(duplicate, PinnedDuplicate));
        AppendIsByRule(context, existing, ledger, Reviewed(duplicate, PinnedDuplicate), after);
      } else {
        ConsolidateIsByRule(context, existing, ledger, duplicate, keeper);
      }
    }
  }

  lemma {:induction false} GroupIsByRule(context: Context, existing: seq<Index>, ledger: Ledger,
                                         signatures: set<Signature>, signature: Signature, part: seq<Index>,
                                         keeper: Index)
    requires DistinctNames(existing) && ByRule(context, existing, ledger)
    requires var indexes := Nonclustered(existing); var group := WithSignature(indexes, signature);
             && (forall index :: index in part ==> index in group) && group != [] && keeper == Keeper(context, group)
             && signature in signatures
             && TouchedOnly(ledger, indexes, signatures) && KeeperStands(ledger, group, keeper)
    ensures ByRule(context, existing, ReviewGroup(context, ledger, part, keeper))
  {
    if part != [] {
      var front := part[..|part| - 1];
      GroupIsByRule(context, existing, ledger, signatures, signature, front, keeper);
      GroupKeeps(context, existing, ledger, signatures, signature, front, keeper);
      DuplicateIsByRule(context, existing, ReviewGroup(context, ledger, front, keeper), signatures, signature,
                        part[|part| - 1], keeper);
    }
  }

  lemma {:induction false} DuplicatesAreByRule(context: Context, existing: seq<Index>, signatures: seq<Signature>)
    requires DistinctNames(existing)
    requires forall i, j :: 0 <= i < j < |signatures| ==> signatures[i] != signatures[j]
    ensures ByRule(context, existing, DuplicatePass(context, EMPTY, Nonclustered(existing), signatures))
  {
    var indexes := Nonclustered(existing);
    DuplicatesKeep(context, existing, signatures);
    if signatures != [] {
      var front, last := signatures[..|signatures| - 1], signatures[|signatures| - 1];
      DuplicatesAreByRule(context, existing, front);
      DuplicatesKeep(context, existing, front);
      var seen := set s | s in front;
      assert last !in seen;
      if |WithSignature(indexes, last)| >= 2 {
        NextGroupIsByRule(context, existing, DuplicatePass(context, EMPTY, indexes, front), seen, last);
      }
    }
  }

  /** A group of a signature that was not reviewed yet. */
  lemma NextGroupIsByRule(context: Context, existing: seq<Index>, ledger: Ledger, seen: set<Signature>,
                          signature: Signature)
    requires DistinctNames(existing) && ByRule(context, existing, ledger)
    requires TouchedOnly(ledger, Nonclustered(existing), seen) && signature !in seen
    requires WithSignature(Nonclustered(existing), signature) != []
    ensures var group := WithSignature(Nonclustered(existing), signature);
            ByRule(context, existing, ReviewGroup(context, ledger, group, Keeper(context, group)))
  {
    var indexes := Nonclustered(existing);
    var group := WithSignature(indexes, signature);
    NamedAmongMore(indexes, seen, seen + {signature});
    FreshGroup(existing, indexes, ledger, seen, signature, Keeper(context, group));
    GroupIsByRule(context, existing, ledger, seen + {signature}, signature, group, Keeper(context, group));
  }

  /** Every index that goes into its kept twin is settled by the first pass. */
  lemma TwinsAreSettled(context: Context, existing: seq<Index>, r: Index)
    requires DistinctNames(existing) && HasKeptTwin(context, existing, r)
    ensures r.name in DuplicatePass(context, EMPTY, Nonclustered(existing), Signatures(Nonclustered(existing))).consumed
  {
    var indexes := Nonclustered(existing);
    var k :| k in existing && GoesInto(context, existing, r, k);
    KeptIsKeeper(context, existing, k);
    ReplacesIsRemovable(existing, r, k);
    assert SignatureOf(r) == SignatureOf(k) && FC.Redundant(context, indexes, SignatureOf(k), r);
    FC.DuplicatesReviewed(context, indexes, Signatures(indexes), SignatureOf(k), r);
  }

  // ---------------------------------------------------------------- left prefixes

  lemma ExtensionIsExtends(existing: seq<Index>, findings: seq<Finding>, r: Index, t: Index)
    requires r in Nonclustered(existing) && !r.isDisabled && !Protected(r) && r.filter == ""
    ensures t in existing && Extension(existing, findings, r, t)
            <==> t in Nonclustered(existing) && Extends(r, t, Removed(findings))
  {
    BeginsIsPrefix(t.keys, r.keys);
    if t in Nonclustered(existing) && t != r && !t.isDisabled && t.filter == "" {
      ReplacesIsRemovable(existing, r, t);
    }
  }

  lemma NarrowMerges(context: Context, existing: seq<Index>, ledger: Ledger, narrow: Index)
    requires DistinctNames(existing) && ByRule(context, existing, ledger) && narrow in Nonclustered(existing)
    requires NarrowCandidate(ledger, narrow) && !HasKeptTwin(context, existing, narrow)
    requires Extensions(narrow, Nonclustered(existing), ledger.removed) != []
    ensures var wider := Widest(Extensions(narrow, Nonclustered(existing), ledger.removed));
            Merges(context, existing, ledger.findings, narrow, wider) && |narrow.keys| < |wider.keys|
  {
    var indexes := Nonclustered(existing);
    var extensions := Extensions(narrow, indexes, ledger.removed);
    var wider := Widest(extensions);
    assert existing[..|existing|] == existing && indexes[..|indexes|] == indexes;
    NonclusteredInOrder(existing, |existing|);
    ExtensionsInOrder(existing, indexes, narrow, ledger.removed, |indexes|);
    ExtensionIsExtends(existing, ledger.findings, narrow, wider);
    forall t | t in existing && t != wider && Extension(existing, ledger.findings, narrow, t)
      ensures Outdoes(existing, wider, t) {
      ExtensionIsExtends(existing, ledger.findings, narrow, t);
      WidestIsFirst(existing, extensions, t);
    }
  }

  /** The first pass left nothing to the second one that has a kept twin. */
  ghost predicate TwinsDone(context: Context, existing: seq<Index>, ledger: Ledger) {
    forall r :: r in Nonclustered(existing) && HasKeptTwin(context, existing, r) ==> r.name in ledger.consumed
  }

  lemma {:induction false} PrefixesAreByRule(context: Context, existing: seq<Index>, ledger: Ledger, todo: seq<Index>)
    requires DistinctNames(existing) && ByRule(context, existing, ledger) && TwinsDone(context, existing, ledger)
    requires forall index :: index in todo ==> index in Nonclustered(existing)
    ensures ByRule(context, existing, PrefixPass(context, ledger, todo, Nonclustered(existing)))
  {
    PrefixesKeep(context, existing, ledger, todo);
    if todo != [] {
      var front, narrow, indexes := todo[..|todo| - 1], todo[|todo| - 1], Nonclustered(existing);
      PrefixesAreByRule(context, existing, ledger, front);
      FC.PrefixesGrow(context, ledger, front, indexes);
      var before := PrefixPass(context, ledger, front, indexes);
      var extensions := Extensions(narrow, indexes, before.removed);
      if NarrowCandidate(before, narrow) && extensions != [] {
        NarrowMerges(context, existing, before, narrow);
        ConsolidateIsByRule(context, existing, before, narrow, Widest(extensions));
      }
    }
  }

  // ---------------------------------------------------------------- indexes by themselves

  lemma SoleSupportIsByRule(existing: seq<Index>, findings: seq<Finding>, x: Index)
    requires x.filter == ""
    ensures IsSoleSupport(existing, findings, x) <==>
            !(ForeignKeys(x) <= Support(existing, Removed(findings), Some(x)))
  {
    forall fk | fk in x.childForeignKeys
      ensures OnlySupport(existing, findings, x, fk) <==> fk !in Support(existing, Removed(findings), Some(x)) {
      InSupport(existing, Removed(findings), Some(x), fk);
      assert forall y :: StaysRowstore(findings, y) <==> Live(y, Removed(findings));
    }
    var supported := Support(existing, Removed(findings), Some(x));
    assert ForeignKeys(x) == x.childForeignKeys;
    if !IsSoleSupport(existing, findings, x) {
      assert x.childForeignKeys <= supported by {
        forall fk | fk in x.childForeignKeys ensures fk in supported {
          assert !OnlySupport(existing, findings, x, fk);
        }
      }
    }
  }

  /** What ReviewUnused adds is the verdict that the rules call for. */
  lemma UnusedIsByRule(context: Context, existing: seq<Index>, ledger: Ledger, x: Index)
    requires ledger.removed == Removed(ledger.findings) && x.name !in ledger.consumed && x.name !in ledger.survivors
    ensures var after := ReviewUnused(context, ledger, x, existing);
            && (after.findings == ledger.findings || (|after.findings| == |ledger.findings| + 1
                && after.findings == ledger.findings + [after.findings[|ledger.findings|]]
                && Subject(after.findings[|ledger.findings|]) == x
                && !Settles(after.findings[|ledger.findings|], x)))
            && Verdict(context, existing, ledger.findings, x,
                       if after.findings == ledger.findings then None else Some(after.findings[|ledger.findings|]))
            && after.consumed == ledger.consumed
  {
    var after := ReviewUnused(context, ledger, x, existing);
    if x.filter == "" {
      SoleSupportIsByRule(existing, ledger.findings, x);
    }
  }

  lemma UnusedStepIsByRule(context: Context, existing: seq<Index>, ledger: Ledger, x: Index)
    requires ByRule(context, existing, ledger) && x in Nonclustered(existing)
    ensures ByRule(context, existing, ReviewUnused(context, ledger, x, existing))
  {
    var after := ReviewUnused(context, ledger, x, existing);
    UnusedStepKeeps(context, existing, ledger, x);
    if x.name !in ledger.consumed && x.name !in ledger.survivors {
      UnusedIsByRule(context, existing, ledger, x);
      if after.findings != ledger.findings {
        AppendIsByRule(context, existing, ledger, after.findings[|ledger.findings|], after);
      }
    }
  }

  lemma {:induction false} UnusedAreByRule(context: Context, existing: seq<Index>, ledger: Ledger, todo: seq<Index>)
    requires ByRule(context, existing, ledger)
    requires forall index :: index in todo ==> index in Nonclustered(existing)
    ensures ByRule(context, existing, UnusedPass(context, ledger, todo, existing))
  {
    if todo != [] {
      var front := todo[..|todo| - 1];
      UnusedAreByRule(context, existing, ledger, front);
      UnusedStepIsByRule(context, existing, UnusedPass(context, ledger, front, existing), todo[|todo| - 1]);
    }
  }

  // ---------------------------------------------------------------- the whole review

  lemma PassesAreByRule(context: Context, existing: seq<Index>)
    requires DistinctNames(existing)
    ensures var indexes := Nonclustered(existing);
            var duplicates := DuplicatePass(context, EMPTY, indexes, Signatures(indexes));
            && ByRule(context, existing, duplicates) && TwinsDone(context, existing, duplicates)
            && ByRule(context, existing, PrefixPass(context, duplicates, indexes, indexes))
            && ByRule(context, existing, Reviewing(context, existing))
  {
    var indexes := Nonclustered(existing);
    var duplicates := DuplicatePass(context, EMPTY, indexes, Signatures(indexes));
    DuplicatesAreByRule(context, existing, Signatures(indexes));
    forall r | r in indexes && HasKeptTwin(context, existing, r) ensures r.name in duplicates.consumed {
      TwinsAreSettled(context, existing, r);
    }
    PrefixesAreByRule(context, existing, duplicates, indexes);
    UnusedAreByRule(context, existing, PrefixPass(context, duplicates, indexes, indexes), indexes);
  }

  lemma {:induction false} RuledAt(context: Context, existing: seq<Index>, findings: seq<Finding>, n: nat)
    requires AllRuled(context, existing, findings) && n < |findings|
    ensures Ruled(context, existing, findings[..n], findings[n])
  {
    if n < |findings| - 1 {
      var front := findings[..|findings| - 1];
      RuledAt(context, existing, front, n);
      assert front[..n] == findings[..n];
    }
  }

  /** Each finding of a review is the one that the rules call for, given the findings before it. */
  lemma ReviewFollowsTheRules(context: Context, existing: seq<Index>, n: nat)
    requires DistinctNames(existing) && n < |Reviewing(context, existing).findings|
    ensures var findings := Reviewing(context, existing).findings;
            Ruled(context, existing, findings[..n], findings[n])
  {
    PassesAreByRule(context, existing);
    RuledAt(context, existing, Reviewing(context, existing).findings, n);
  }

  /** An index goes into one index only. */
  lemma MergesIntoOne(context: Context, existing: seq<Index>, before: seq<Finding>, r: Index, s: Index, t: Index)
    requires DistinctNames(existing) && Merges(context, existing, before, r, s)
             && Merges(context, existing, before, r, t)
    ensures s == t
  {
    if GoesInto(context, existing, r, s) || GoesInto(context, existing, r, t) {
      assert HasKeptTwin(context, existing, r);
      KeptIsOne(context, existing, s, t);
    }
  }

  /** What becomes of an index that is settled beside another one: it is consolidated if and only if the
      two are no pinned twins and the other one carries its columns, or may take them and is not rebuilt
      by an earlier finding; else it is reviewed, with the reason for it. */
  lemma SettledExactly(context: Context, existing: seq<Index>, n: nat, r: Index, s: Index)
    requires DistinctNames(existing) && n < |Reviewing(context, existing).findings|
    requires var findings := Reviewing(context, existing).findings;
             Settles(findings[n], r) && Merges(context, existing, findings[..n], r, s)
    ensures var findings := Reviewing(context, existing).findings;
            exists needed ::
              && IsNeeded(context, r, s, needed) && Outcome(context, findings[..n], r, s, needed, findings[n])
              && (findings[n].Consolidated? <==>
                    !PinnedTwins(context, r, s)
                    && (needed == [] || (s.name !in Rebuilt(findings[..n]) && Takes(context, s, needed))))
  {
    var findings := Reviewing(context, existing).findings;
    ReviewFollowsTheRules(context, existing, n);
    var other, needed :|
      Merges(context, existing, findings[..n], r, other) && IsNeeded(context, r, other, needed)
      && Outcome(context, findings[..n], r, other, needed, findings[n]);
    MergesIntoOne(context, existing, findings[..n], r, s, other);
  }

  lemma {:induction false} SettledBySome(context: Context, existing: seq<Index>, findings: seq<Finding>, x: Index)
    requires DistinctNames(existing) && AllRuled(context, existing, findings) && x in existing
    requires x.name in Settled(findings)
    ensures exists n :: 0 <= n < |findings| && Settles(findings[n], x)
  {
    var front, last := findings[..|findings| - 1], findings[|findings| - 1];
    if x.name in Settled(front) {
      SettledBySome(context, existing, front, x);
      var n :| 0 <= n < |front| && Settles(front[n], x);
      assert Settles(findings[n], x);
    } else {
      var r := Subject(last);
      assert SettledByRule(context, existing, front, r, last);
      SameName(existing, r, x);
      assert Settles(findings[|findings| - 1], x);
    }
  }

  /** No twin and no left prefix is overlooked: an index that goes into its kept twin is settled by some
      finding, and so is one that an index extends which stays, unless it absorbs another one itself. */
  lemma RedundantIndexesAreSettled(context: Context, existing: seq<Index>, x: Index)
    requires DistinctNames(existing) && x in existing
    ensures var findings := Reviewing(context, existing).findings;
            HasKeptTwin(context, existing, x)
            || ((exists t :: t in existing && Extension(existing, findings, x, t)) && x.name !in Survivors(findings))
            ==> exists n :: 0 <= n < |findings| && Settles(findings[n], x)
  {
    var indexes, findings := Nonclustered(existing), Reviewing(context, existing).findings;
    var duplicates := DuplicatePass(context, EMPTY, indexes, Signatures(indexes));
    var prefixes := PrefixPass(context, duplicates, indexes, indexes);
    PassesAreByRule(context, existing);
    FC.PrefixesGrow(context, duplicates, indexes, indexes);
    FC.UnusedGrows(context, prefixes, indexes, existing);
    if HasKeptTwin(context, existing, x) {
      assert x in indexes;
      SettledBySome(context, existing, findings, x);
    } else if t :| t in existing && Extension(existing, findings, x, t) && x.name !in Survivors(findings) {
      ExtensionIsExtends(existing, findings, x, t);
      FC.PrefixesReviewed(context, duplicates, indexes, indexes, x, t);
      SettledBySome(context, existing, findings, x);
    }
  }

  /** At its turn the rules called for this finding, or for none. */
  ghost predicate ConsideredAt(context: Context, existing: seq<Index>, findings: seq<Finding>, x: Index, n: nat)
    requires n <= |findings|
  {
    || Verdict(context, existing, findings[..n], x, None)
    || (n < |findings| && Verdict(context, existing, findings[..n], x, Some(findings[n])))
  }

  ghost predicate Considered(context: Context, existing: seq<Index>, findings: seq<Finding>, x: Index) {
    exists n: nat :: n <= |findings| && ConsideredAt(context, existing, findings, x, n)
  }

  lemma StaysConsidered(context: Context, existing: seq<Index>, findings: seq<Finding>, more: seq<Finding>, x: Index)
    requires Considered(context, existing, findings, x) && findings <= more
    ensures Considered(context, existing, more, x)
  {
    var n: nat :| n <= |findings| && ConsideredAt(context, existing, findings, x, n);
    assert more[..n] == findings[..n];
    assert ConsideredAt(context, existing, more, x, n);
  }

  lemma {:induction false} UnusedAreConsidered(context: Context, existing: seq<Index>, ledger: Ledger,
                                               todo: seq<Index>, x: Index)
    requires ByRule(context, existing, ledger) && x in todo
    requires forall index :: index in todo ==> index in Nonclustered(existing)
    requires x.name !in ledger.consumed && x.name !in ledger.survivors
    ensures Considered(context, existing, UnusedPass(context, ledger, todo, existing).findings, x)
  {
    var front, last := todo[..|todo| - 1], todo[|todo| - 1];
    assert todo == front + [last];
    UnusedAreByRule(context, existing, ledger, front);
    UnusedKeepsSettled(context, existing, ledger, front);
    var before := UnusedPass(context, ledger, front, existing);
    if x in front {
      UnusedAreConsidered(context, existing, ledger, front, x);
      ReviewUnusedAppends(context, before, last, existing);
      StaysConsidered(context, existing, before.findings, ReviewUnused(context, before, last, existing).findings, x);
    } else {
      NowConsidered(context, existing, before, x);
    }
  }

  lemma ReviewUnusedAppends(context: Context, ledger: Ledger, x: Index, existing: seq<Index>)
    ensures ledger.findings <= ReviewUnused(context, ledger, x, existing).findings
  {
  }

  lemma NowConsidered(context: Context, existing: seq<Index>, ledger: Ledger, x: Index)
    requires ledger.removed == Removed(ledger.findings) && x.name !in ledger.consumed && x.name !in ledger.survivors
    ensures Considered(context, existing, ReviewUnused(context, ledger, x, existing).findings, x)
  {
    var after, n := ReviewUnused(context, ledger, x, existing), |ledger.findings|;
    UnusedIsByRule(context, existing, ledger, x);
    assert after.findings[..n] == ledger.findings;
    assert ConsideredAt(context, existing, after.findings, x, n);
  }

  lemma {:induction false} UnusedKeepsSettled(context: Context, existing: seq<Index>, ledger: Ledger, todo: seq<Index>)
    ensures UnusedPass(context, ledger, todo, existing).consumed == ledger.consumed
    ensures UnusedPass(context, ledger, todo, existing).survivors == ledger.survivors
  {
    if todo != [] {
      UnusedKeepsSettled(context, existing, ledger, todo[..|todo| - 1]);
    }
  }

  /** Every other index is considered: disabled, rarely read, filtered, sole support of a foreign key,
      in a stored plan, too young to tell, or unused, in this order; what none of it fits stays as it is. */
  lemma OtherIndexesAreConsidered(context: Context, existing: seq<Index>, x: Index)
    requires DistinctNames(existing) && x in existing && IsReviewed(x)
    requires Alone(Reviewing(context, existing).findings, x)
    ensures Considered(context, existing, Reviewing(context, existing).findings, x)
  {
    var indexes := Nonclustered(existing);
    var duplicates := DuplicatePass(context, EMPTY, indexes, Signatures(indexes));
    var prefixes := PrefixPass(context, duplicates, indexes, indexes);
    PassesAreByRule(context, existing);
    UnusedKeepsSettled(context, existing, prefixes, indexes);
    UnusedAreConsidered(context, existing, prefixes, indexes, x);
  }
}
