/** The view-dependency preflight: a depth-limited traversal of the objects a query reads.
    The traversal is specified on values; the service runs it on shared lists in place. */
module Preflight {
  import opened Wrappers

  datatype Key = Key(catalog: string, schema: string, name: string)

  /** xmlCandidate: `name.nodes(...)`, a schema function or the XML method of a column. */
  datatype Reference = Reference(key: Key, isFunction: bool, xmlCandidate: bool)

  datatype Status = View | Function | NonView | Encrypted | Inaccessible | Unresolved

  /** What the catalog answers for a name; empty canonical names fall back to the requested ones. */
  datatype Resolution = Resolution(status: Status, definition: Option<string>, schema: string, name: string,
    missing: bool)

  datatype Risk =
    | CrossDatabase | Cyclic | TooDeep
    | Unreadable(status: Status, isFunction: bool) | Invalid(isFunction: bool)
    | Clock | RowVolatile | Static(code: string)

  datatype Observation = Observation(function_: string, clock: bool, safe: bool)

  /** What the parser finds in one body. */
  datatype Analysis = Analysis(risks: seq<Risk>, references: seq<Reference>, observations: seq<Observation>)

  /** The catalog and the parser; a body without an analysis does not parse. */
  datatype Database = Database(
    resolve: (string, string) -> Resolution,
    parse: (string, bool, Key) -> Option<Analysis>)

  datatype Issue = Issue(reference: Reference, depth: nat, reason: Risk)

  /** analyzed: canonical keys of the bodies read so far; resolved: the same in order, with how
      each body was read. */
  datatype State = State(
    risks: seq<Risk>,
    unresolved: seq<Issue>,
    resolved: seq<(Key, bool)>,
    analyzed: set<Key>,
    cache: map<Key, Resolution>)

  // ---------------------------------------------------------------- one reference

  function Resolve(db: Database, key: Key): Resolution { db.resolve(key.schema, key.name) }

  function CanonicalKey(key: Key, resolution: Resolution): Key {
    Key("", if resolution.schema != "" then resolution.schema else key.schema,
        if resolution.name != "" then resolution.name else key.name)
  }

  function Canon(db: Database, reference: Reference): Key { CanonicalKey(reference.key, Resolve(db, reference.key)) }

  predicate ReadAsFunction(reference: Reference, resolution: Resolution) {
    reference.isFunction || resolution.status == Function
  }

  /** References that read no other body: tables, and XML methods that no function bears the name of. */
  predicate ExcludedBy(reference: Reference, resolution: Resolution) {
    || (reference.xmlCandidate && (resolution.missing || resolution.status == NonView))
    || (resolution.status == NonView && !ReadAsFunction(reference, resolution))
  }

  predicate Excluded(db: Database, reference: Reference) { ExcludedBy(reference, Resolve(db, reference.key)) }

  predicate Readable(resolution: Resolution, asFunction: bool) {
    && (resolution.status == View || (asFunction && resolution.status == Function))
    && resolution.definition.Some?
  }

  function UnreadableReason(resolution: Resolution, asFunction: bool): Risk {
    var named := resolution.status == Encrypted || resolution.status == Inaccessible || resolution.status == Unresolved;
    Unreadable(if asFunction && !named then Unresolved else resolution.status, asFunction)
  }

  function Mark(state: State, reference: Reference, depth: nat, reason: Risk): State {
    state.(unresolved := state.unresolved + [Issue(reference, depth, reason)], risks := state.risks + [reason])
  }

  function FunctionRisks(observations: seq<Observation>): seq<Risk> {
    if observations == [] then []
    else (if observations[0].safe then [] else [if observations[0].clock then Clock else RowVolatile])
         + FunctionRisks(observations[1..])
  }

  function BodyRisks(body: Analysis): seq<Risk> { FunctionRisks(body.observations) + body.risks + body.risks }

  function Enter(state: State, key: Key, asFunction: bool, body: Analysis): State {
    state.(resolved := state.resolved + [(key, asFunction)], analyzed := state.analyzed + {key},
           risks := state.risks + BodyRisks(body))
  }

  /** What the checks on one reference decide. */
  datatype Decision =
    | Done
    | Report(reference: Reference, reason: Risk)
    | Read(key: Key, asFunction: bool, body: Analysis)

  /** The checks on a reference that was looked up. */
  function DecideResolved(db: Database, maxDepth: nat, analyzed: set<Key>, reference: Reference, resolution: Resolution,
                          depth: nat, path: seq<Key>): (decision: Decision)
    ensures decision.Read? ==> depth <= maxDepth
  {
    if ExcludedBy(reference, resolution) then Done
    else
      var asFunction, key := ReadAsFunction(reference, resolution), CanonicalKey(reference.key, resolution);
      var canonical := Reference(key, asFunction, false);
      if key in path then Report(canonical, Cyclic)
      else if key in analyzed then Done
      else if depth > maxDepth && (resolution.status == View || resolution.status == Function)
        then Report(canonical, TooDeep)
      else if !Readable(resolution, asFunction) then Report(reference, UnreadableReason(resolution, asFunction))
      else match db.parse(resolution.definition.value, asFunction, key)
        case None => Report(reference, Invalid(asFunction))
        case Some(body) => Read(key, asFunction, body)
  }

  predicate NeedsLookup(state: State, reference: Reference, path: seq<Key>) {
    reference.key.catalog == "" && reference.key !in path && reference.key !in state.analyzed
  }

  /** The cached answer for a name, or a fresh one. */
  function Answer(db: Database, state: State, key: Key): Resolution {
    if key in state.cache then state.cache[key] else Resolve(db, key)
  }

  function Decide(db: Database, maxDepth: nat, state: State, reference: Reference, depth: nat,
                  path: seq<Key>): (decision: Decision)
    ensures decision.Read? ==> depth <= maxDepth
  {
    if reference.key.catalog != "" then Report(reference, CrossDatabase)
    else if reference.key in path then Report(reference, Cyclic)
    else if reference.key in state.analyzed then Done
    else DecideResolved(db, maxDepth, state.analyzed, reference, Answer(db, state, reference.key), depth, path)
  }

  function Lookup(db: Database, state: State, reference: Reference, path: seq<Key>): State {
    if NeedsLookup(state, reference, path)
    then state.(cache := state.cache[reference.key := Answer(db, state, reference.key)]) else state
  }

  function Inspect(db: Database, maxDepth: nat, state: State, reference: Reference, depth: nat, path: seq<Key>): State
    decreases maxDepth + 1 - depth, 0
  {
    var looked := Lookup(db, state, reference, path);
    match Decide(db, maxDepth, state, reference, depth, path)
    case Done => looked
    case Report(reported, reason) => Mark(looked, reported, depth, reason)
    case Read(key, asFunction, body) =>
      InspectAll(db, maxDepth, Enter(looked, key, asFunction, body), body.references, depth + 1, path + [key])
  }

  function InspectAll(db: Database, maxDepth: nat, state: State, references: seq<Reference>, depth: nat,
                      path: seq<Key>): State
    decreases maxDepth + 1 - depth, |references| + 1
  {
    if references == [] then state
    else Inspect(db, maxDepth,
                 InspectAll(db, maxDepth, state, references[..|references| - 1], depth, path),
                 references[|references| - 1], depth, path)
  }

  /** The whole preflight of a parsed query. */
  function Analyze(db: Database, maxDepth: nat, query: Analysis): State {
    InspectAll(db, maxDepth, State(query.risks + FunctionRisks(query.observations), [], [], {}, map[]),
      query.references, 1, [])
  }
}
