/** Consolidation and removal of existing indexes: exact duplicates, left prefixes, unused indexes.
    The passes are specified as functions on a ledger; the class runs them in place. */
module IndexFindings {
  import opened Wrappers
  import opened IndexModel

  datatype Reason =
    | RebuildAlreadyRecommended | CoveringTwinOfConstraint | SurvivorCannotAbsorb
    | PinnedDuplicate | DisabledIndex | WriteHeavy | UnusedFiltered | SoleForeignKeySupport
    | InQueryStorePlans | CountersRecent | YoungIndex

  datatype Finding =
    | Consolidated(redundant: Index, survivor: Index, needed: seq<Column>)
    | Dropped(index: Index)
    | Reviewed(index: Index, reason: Reason)

  /** What the review looks up outside the index definitions. */
  datatype Context = Context(
    clustering: seq<Column>,
    catalog: Catalog,
    maxIncludes: int,
    canRender: Index -> bool,        // the reverse DDL of this definition is executable
    pins: set<string>,               // named by a hint or a forced plan
    used: set<string>,               // read by a plan of the workload
    planReferences: map<string, nat>,
    uptimeDays: Option<real>
  )

  /** consumed: has a consolidation finding; removed: advised for removal; survivors: absorb
      another index; rebuilt: survivors whose definition a finding changes. */
  datatype Ledger = Ledger(
    consumed: set<string>, removed: set<string>, survivors: set<string>, rebuilt: set<string>,
    findings: seq<Finding>)

  const EMPTY := Ledger({}, {}, {}, {}, [])

  const UNUSED_MIN_UPTIME_DAYS := 7.0

  // ---------------------------------------------------------------- protections

  /** Protections that no other index can take over. */
  predicate Protected(index: Index) {
    index.isPrimaryKey || index.isUniqueConstraint || index.isUnique || index.otherProtection
  }

  /** A filtered index supports no foreign key. */
  function ForeignKeys(index: Index): set<int> {
    if index.filter != "" then {} else index.childForeignKeys
  }

  predicate RemovableInto(redundant: Index, survivor: Index) {
    !Protected(redundant) && ForeignKeys(redundant) <= ForeignKeys(survivor)
  }

  /** An enabled rowstore index that the advice does not remove. */
  predicate Live(index: Index, removed: set<string>) {
    !index.isDisabled && (index.typeCode == CLUSTERED || index.typeCode == NONCLUSTERED) && index.name !in removed
  }

  /** The foreign keys that the live indexes other than `except` support. */
  function Support(existing: seq<Index>, removed: set<string>, except: Option<Index>): set<int> {
    if existing == [] then {}
    else (if Live(existing[0], removed) && except != Some(existing[0]) then ForeignKeys(existing[0]) else {})
         + Support(existing[1..], removed, except)
  }

  lemma {:induction false} SupportShrinks(existing: seq<Index>, removed: set<string>, more: set<string>,
                                          except: Option<Index>)
    requires removed <= more
    ensures Support(existing, more, except) <= Support(existing, removed, except)
  {
    if existing != [] {
      SupportShrinks(existing[1..], removed, more, except);
    }
  }

  function Nonclustered(existing: seq<Index>): (indexes: seq<Index>)
    ensures forall index :: index in indexes <==>
              index in existing && index.typeCode == NONCLUSTERED && !index.isHypothetical
  {
    if existing == [] then []
    else Nonclustered(existing[..|existing| - 1])
         + var last := existing[|existing| - 1];
         if last.typeCode == NONCLUSTERED && !last.isHypothetical then [last] else []
  }

  // ---------------------------------------------------------------- consolidation

  /** The columns not yet present, each once, in order. */
  function Missing(columns: seq<Column>, present: set<Column>): (needed: seq<Column>)
  {
    if columns == [] then []
    else if columns[0] in present then Missing(columns[1..], present)
    else [columns[0]] + Missing(columns[1..], present + {columns[0]})
  }

  function Absorbed(redundant: Index, survivor: Index, clustering: seq<Column>): seq<Column> {
    Missing(redundant.includes + Names(redundant.keys), Carried(survivor, clustering))
  }

  function Widened(survivor: Index, needed: seq<Column>): Index {
    survivor.(includes := survivor.includes + needed)
  }

  /** Why a survivor cannot take the needed columns, if it cannot. */
  function Refusal(context: Context, survivor: Index, needed: seq<Column>): Option<Reason> {
    if needed == [] then None
    else if survivor.isPrimaryKey || survivor.isUniqueConstraint then Some(CoveringTwinOfConstraint)
    else if survivor.typeCode != NONCLUSTERED || |survivor.includes + needed| > context.maxIncludes
         || TooWide(survivor.includes + needed, context.catalog) then Some(SurvivorCannotAbsorb)
    else if !context.canRender(Widened(survivor, needed)) || !context.canRender(survivor)
      then Some(SurvivorCannotAbsorb)
    else None
  }

  function Consolidate(context: Context, ledger: Ledger, redundant: Index, survivor: Index): Ledger {
    var needed := Absorbed(redundant, survivor, context.clustering);
    var refusal := if needed != [] && survivor.name in ledger.rebuilt then Some(RebuildAlreadyRecommended)
                   else Refusal(context, survivor, needed);
    var consumed := ledger.consumed + {redundant.name};
    match refusal
    case Some(reason) => ledger.(consumed := consumed, findings := ledger.findings + [Reviewed(redundant, reason)])
    case None =>
      Ledger(consumed, ledger.removed + {redundant.name}, ledger.survivors + {survivor.name},
             if needed != [] then ledger.rebuilt + {survivor.name} else ledger.rebuilt,
             ledger.findings + [Consolidated(redundant, survivor, needed)])
  }

  // ---------------------------------------------------------------- pass 1: exact duplicates

  type Signature = (seq<Key>, string)

  function SignatureOf(index: Index): Signature { (index.keys, index.filter) }

  function WithSignature(indexes: seq<Index>, signature: Signature): (group: seq<Index>)
    ensures forall index :: index in group <==> index in indexes && !index.isDisabled && SignatureOf(index) == signature
  {
    if indexes == [] then []
    else WithSignature(indexes[..|indexes| - 1], signature)
         + var last := indexes[|indexes| - 1]; if !last.isDisabled && SignatureOf(last) == signature then [last] else []
  }

  /** The signatures of the enabled indexes, in order of first appearance. */
  function Signatures(indexes: seq<Index>): (signatures: seq<Signature>)
    ensures forall s :: s in signatures <==>
              exists index :: index in indexes && !index.isDisabled && SignatureOf(index) == s
    ensures forall i, j :: 0 <= i < j < |signatures| ==> signatures[i] != signatures[j]
  {
    if indexes == [] then []
    else
      var last, before := indexes[|indexes| - 1], Signatures(indexes[..|indexes| - 1]);
      assert indexes == indexes[..|indexes| - 1] + [last];
      if last.isDisabled || SignatureOf(last) in before then before else before + [SignatureOf(last)]
  }

  function Bit(b: bool): nat { if b then 1 else 0 }

  function Rank(context: Context, index: Index): seq<nat> {
    [Bit(Protected(index)), Bit(index.name in context.pins), |ForeignKeys(index)|, Bit(index.isUnique),
     |index.includes|, if index.readCount.Some? then index.readCount.value else 0]
  }

  predicate Less(a: seq<nat>, b: seq<nat>) {
    b != [] && (a == [] || a[0] < b[0] || (a[0] == b[0] && Less(a[1..], b[1..])))
  }

  /** The first index of highest rank. */
  function Keeper(context: Context, group: seq<Index>): (keeper: Index)
    requires group != []
    ensures keeper in group
  {
    if |group| == 1 then group[0]
    else
      var best, last := Keeper(context, group[..|group| - 1]), group[|group| - 1];
      if Less(Rank(context, best), Rank(context, last)) then last else best
  }

  function ReviewDuplicate(context: Context, ledger: Ledger, duplicate: Index, keeper: Index): Ledger {
    if duplicate == keeper || !RemovableInto(duplicate, keeper) then ledger
    else if duplicate.name in context.pins && keeper.name in context.pins then
      ledger.(consumed := ledger.consumed + {duplicate.name},
              findings := ledger.findings + [Reviewed(duplicate, PinnedDuplicate)])
    else Consolidate(context, ledger, duplicate, keeper)
  }

  function ReviewGroup(context: Context, ledger: Ledger, group: seq<Index>, keeper: Index): Ledger {
    if group == [] then ledger
    else ReviewDuplicate(context, ReviewGroup(context, ledger, group[..|group| - 1], keeper), group[|group| - 1],
      keeper)
  }

  function DuplicatePass(context: Context, ledger: Ledger, indexes: seq<Index>, signatures: seq<Signature>): Ledger {
    if signatures == [] then ledger
    else
      var before := DuplicatePass(context, ledger, indexes, signatures[..|signatures| - 1]);
      var group := WithSignature(indexes, signatures[|signatures| - 1]);
      if |group| < 2 then before else ReviewGroup(context, before, group, Keeper(context, group))
  }

  // ---------------------------------------------------------------- pass 2: left prefixes

  predicate Extends(narrow: Index, other: Index, removed: set<string>) {
    && other != narrow && !other.isDisabled && other.name !in removed && other.filter == ""
    && RemovableInto(narrow, other) && |narrow.keys| < |other.keys| && narrow.keys <= other.keys
  }

  function Extensions(narrow: Index, indexes: seq<Index>, removed: set<string>): (extensions: seq<Index>)
    ensures forall other :: other in extensions <==> other in indexes && Extends(narrow, other, removed)
  {
    if indexes == [] then []
    else Extensions(narrow, indexes[..|indexes| - 1], removed)
         + var last := indexes[|indexes| - 1]; if Extends(narrow, last, removed) then [last] else []
  }

  /** The first of the widest indexes. */
  function Widest(extensions: seq<Index>): (wider: Index)
    requires extensions != []
    ensures wider in extensions && forall other :: other in extensions ==> |other.keys| <= |wider.keys|
  {
    if |extensions| == 1 then extensions[0]
    else
      var best, last := Widest(extensions[..|extensions| - 1]), extensions[|extensions| - 1];
      assert extensions == extensions[..|extensions| - 1] + [last];
      if |best.keys| < |last.keys| then last else best
  }

  predicate NarrowCandidate(ledger: Ledger, narrow: Index) {
    && narrow.name !in ledger.consumed && narrow.name !in ledger.survivors
    && !narrow.isDisabled && !Protected(narrow) && narrow.filter == ""
  }

  function ReviewNarrow(context: Context, ledger: Ledger, narrow: Index, indexes: seq<Index>): Ledger {
    var extensions := Extensions(narrow, indexes, ledger.removed);
    if !NarrowCandidate(ledger, narrow) || extensions == [] then ledger
    else Consolidate(context, ledger, narrow, Widest(extensions))
  }

  function PrefixPass(context: Context, ledger: Ledger, todo: seq<Index>, indexes: seq<Index>): Ledger {
    if todo == [] then ledger
    else ReviewNarrow(context, PrefixPass(context, ledger, todo[..|todo| - 1], indexes), todo[|todo| - 1], indexes)
  }

  // ---------------------------------------------------------------- pass 3: unused indexes

  /** What the review says about an index that no counter and no plan reads; None keeps it silently. */
  function UnusedVerdict(context: Context, index: Index, existing: seq<Index>, removed: set<string>): Option<Finding> {
    if index.filter != "" then Some(Reviewed(index, UnusedFiltered))
    else if Protected(index) then None
    else if !(ForeignKeys(index) <= Support(existing, removed, Some(index)))
      then Some(Reviewed(index, SoleForeignKeySupport))
    else if index.name in context.planReferences && context.planReferences[index.name] > 0 then
      Some(Reviewed(index, InQueryStorePlans))
    else if context.uptimeDays.Some? && context.uptimeDays.value < UNUSED_MIN_UPTIME_DAYS then
      Some(Reviewed(index, CountersRecent))
    else if index.ageDays.Some? && index.ageDays.value < UNUSED_MIN_UPTIME_DAYS then Some(Reviewed(index, YoungIndex))
    else Some(Dropped(index))
  }

  predicate HasReads(context: Context, index: Index) {
    index.readCount.None? || index.readCount.value > 0 || index.name in context.used
  }

  predicate WritesOutweighReads(index: Index) {
    index.readCount.Some? && index.readCount.value > 0 && index.updates > 100_000
      && index.readCount.value * 100 < index.updates
  }

  function ReviewUnused(context: Context, ledger: Ledger, index: Index, existing: seq<Index>): Ledger {
    if index.name in ledger.consumed || index.name in ledger.survivors then ledger
    else if index.isDisabled then ledger.(findings := ledger.findings + [Reviewed(index, DisabledIndex)])
    else if HasReads(context, index) then
      if WritesOutweighReads(index) then ledger.(findings := ledger.findings + [Reviewed(index, WriteHeavy)])
      else ledger
    else match UnusedVerdict(context, index, existing, ledger.removed)
      case None => ledger
      case Some(finding) =>
        ledger.(findings := ledger.findings + [finding],
                removed := if finding.Dropped? then ledger.removed + {index.name} else ledger.removed)
  }

  function UnusedPass(context: Context, ledger: Ledger, todo: seq<Index>, existing: seq<Index>): Ledger {
    if todo == [] then ledger
    else ReviewUnused(context, UnusedPass(context, ledger, todo[..|todo| - 1], existing), todo[|todo| - 1], existing)
  }

  /** The whole review. */
  function Reviewing(context: Context, existing: seq<Index>): Ledger {
    var indexes := Nonclustered(existing);
    var duplicates := DuplicatePass(context, EMPTY, indexes, Signatures(indexes));
    var prefixes := PrefixPass(context, duplicates, indexes, indexes);
    UnusedPass(context, prefixes, indexes, existing)
  }
}
