/** The review drops an index only when nothing at all speaks for it. */
module FindingsUnused {
  import opened Wrappers
  import opened IndexModel
  import opened IndexFindings

  /** Counters were read and show no use since a restart that is old enough; neither the workload nor
      the plan store reads the index, and it has had time to be used. */
  predicate Unread(context: Context, index: Index) {
    && !index.isDisabled && index.filter == "" && !Protected(index)
    && index.readCount == Some(0) && index.name !in context.used
    && (index.name in context.planReferences ==> context.planReferences[index.name] == 0)
    && (context.uptimeDays.Some? ==> context.uptimeDays.value >= UNUSED_MIN_UPTIME_DAYS)
    && (index.ageDays.Some? ==> index.ageDays.value >= UNUSED_MIN_UPTIME_DAYS)
  }

  predicate DropsUnread(context: Context, findings: seq<Finding>) {
    forall finding :: finding in findings && finding.Dropped? ==> Unread(context, finding.index)
  }

  lemma {:induction false} GroupDropsNothing(context: Context, ledger: Ledger, group: seq<Index>, keeper: Index)
    requires DropsUnread(context, ledger.findings)
    ensures DropsUnread(context, ReviewGroup(context, ledger, group, keeper).findings)
  {
    if group != [] {
      GroupDropsNothing(context, ledger, group[..|group| - 1], keeper);
    }
  }

  lemma {:induction false} DuplicatesDropNothing(context: Context, indexes: seq<Index>, signatures: seq<Signature>)
    ensures DropsUnread(context, DuplicatePass(context, EMPTY, indexes, signatures).findings)
  {
    if signatures != [] {
      var front, group := signatures[..|signatures| - 1], WithSignature(indexes, signatures[|signatures| - 1]);
      DuplicatesDropNothing(context, indexes, front);
      if |group| >= 2 {
        GroupDropsNothing(context, DuplicatePass(context, EMPTY, indexes, front), group, Keeper(context, group));
      }
    }
  }

  lemma {:induction false} PrefixesDropNothing(context: Context, ledger: Ledger, todo: seq<Index>, indexes: seq<Index>)
    requires DropsUnread(context, ledger.findings)
    ensures DropsUnread(context, PrefixPass(context, ledger, todo, indexes).findings)
  {
    if todo != [] {
      PrefixesDropNothing(context, ledger, todo[..|todo| - 1], indexes);
    }
  }

  lemma {:induction false} UnusedDropUnread(context: Context, ledger: Ledger, todo: seq<Index>, existing: seq<Index>)
    requires DropsUnread(context, ledger.findings)
    ensures DropsUnread(context, UnusedPass(context, ledger, todo, existing).findings)
  {
    if todo != [] {
      UnusedDropUnread(context, ledger, todo[..|todo| - 1], existing);
    }
  }

  /** No counter, plan, age or protection speaks for an index that the review drops. */
  lemma OnlyUnreadAreDropped(context: Context, existing: seq<Index>, index: Index)
    requires Dropped(index) in Reviewing(context, existing).findings
    ensures Unread(context, index)
  {
    var indexes := Nonclustered(existing);
    var duplicates := DuplicatePass(context, EMPTY, indexes, Signatures(indexes));
    DuplicatesDropNothing(context, indexes, Signatures(indexes));
    PrefixesDropNothing(context, duplicates, indexes, indexes);
    UnusedDropUnread(context, PrefixPass(context, duplicates, indexes, indexes), indexes, existing);
  }
}
