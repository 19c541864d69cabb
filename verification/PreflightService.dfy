/** The traversal as the service runs it: recursive calls that append to the same lists. */
module PreflightService {
  import opened Wrappers
  import opened Preflight

  /** The deepest chain of views the service follows. */
  const MAX_VIEW_DEPENDENCY_DEPTH: nat := 8

  class Inspection {
    const db: Database
    const maxDepth: nat
    var risks: seq<Risk>
    var unresolved: seq<Issue>
    var resolved: seq<(Key, bool)>
    var analyzed: set<Key>
    var cache: map<Key, Resolution>

    constructor (db: Database, maxDepth: nat)
      ensures this.db == db && this.maxDepth == maxDepth && Contents() == State([], [], [], {}, map[])
    {
      this.db, this.maxDepth := db, maxDepth;
      risks, unresolved, resolved, analyzed, cache := [], [], [], {}, map[];
    }

    function Contents(): State
      reads this
    {
      State(risks, unresolved, resolved, analyzed, cache)
    }

    method MarkUnresolved(reference: Reference, depth: nat, reason: Risk)
      modifies this
      ensures Contents() == Mark(old(Contents()), reference, depth, reason)
    {
      unresolved := unresolved + [Issue(reference, depth, reason)];
      risks := risks + [reason];
    }

    method AddFunctionRisks(observations: seq<Observation>)
      modifies `risks
      ensures risks == old(risks) + FunctionRisks(observations)
    {
      var i := 0;
      while i < |observations|
        invariant 0 <= i <= |observations|
        invariant risks + FunctionRisks(observations[i..]) == old(risks) + FunctionRisks(observations)
      {
        assert observations[i..][1..] == observations[i + 1..];
        if !observations[i].safe {
          var reason := if observations[i].clock then Clock else RowVolatile;
          assert FunctionRisks(observations[i..]) == [reason] + FunctionRisks(observations[i + 1..]);
          risks := risks + [reason];
        }
        i := i + 1;
      }
    }

    /** The answer for a name, asking the catalog only the first time. */
    method LookUp(reference: Reference) returns (resolution: Resolution)
      modifies `cache
      ensures resolution == Answer(db, old(Contents()), reference.key)
      ensures cache == old(cache)[reference.key := resolution]
    {
      if reference.key !in cache {
        cache := cache[reference.key := Resolve(db, reference.key)];
      }
      resolution := cache[reference.key];
    }

    /** Records a readable body: its name, then the risks of its functions and its static ones. */
    method EnterBody(key: Key, asFunction: bool, body: Analysis)
      modifies this
      ensures Contents() == Enter(old(Contents()), key, asFunction, body)
    {
      resolved := resolved + [(key, asFunction)];
      analyzed := analyzed + {key};
      AddFunctionRisks(body.observations);
      AddStaticRisks(body.risks);
      risks := risks + body.risks;
    }

    method AddStaticRisks(codes: seq<Risk>)
      modifies `risks
      ensures risks == old(risks) + codes
    {
      var i := 0;
      while i < |codes|
        invariant 0 <= i <= |codes| && risks == old(risks) + codes[..i]
      {
        risks := risks + [codes[i]];
        i := i + 1;
      }
    }

    /** One reference: skipped, reported, or read together with everything below it. */
    method InspectReference(reference: Reference, depth: nat, path: seq<Key>)
      modifies this
      ensures Contents() == Inspect(db, maxDepth, old(Contents()), reference, depth, path)
      decreases maxDepth + 1 - depth, 0
    {
      if reference.key.catalog != "" {
        MarkUnresolved(reference, depth, CrossDatabase);
        return;
      }
      if reference.key in path {
        MarkUnresolved(reference, depth, Cyclic);
        return;
      }
      if reference.key in analyzed {
        return;
      }
      var resolution := LookUp(reference);
      if reference.xmlCandidate && (resolution.missing || resolution.status == NonView) {
        return;
      }
      var asFunction := reference.isFunction || resolution.status == Function;
      if resolution.status == NonView && !asFunction {
        return;
      }
      var key := CanonicalKey(reference.key, resolution);
      if key in path {
        MarkUnresolved(Reference(key, asFunction, false), depth, Cyclic);
        return;
      }
      if key in analyzed {
        return;
      }
      if depth > maxDepth && (resolution.status == View || resolution.status == Function) {
        MarkUnresolved(Reference(key, asFunction, false), depth, TooDeep);
        return;
      }
      if (resolution.status != View && !(asFunction && resolution.status == Function)) || resolution.definition.None? {
        MarkUnresolved(reference, depth, UnreadableReason(resolution, asFunction));
        return;
      }
      var parsed := db.parse(resolution.definition.value, asFunction, key);
      if parsed.None? {
        MarkUnresolved(reference, depth, Invalid(asFunction));
        return;
      }
      EnterBody(key, asFunction, parsed.value);
      InspectReferences(parsed.value.references, depth + 1, path + [key]);
    }

    method InspectReferences(references: seq<Reference>, depth: nat, path: seq<Key>)
      modifies this
      ensures Contents() == InspectAll(db, maxDepth, old(Contents()), references, depth, path)
      decreases maxDepth + 1 - depth, 1
    {
      var i := 0;
      while i < |references|
        invariant 0 <= i <= |references|
        invariant Contents() == InspectAll(db, maxDepth, old(Contents()), references[..i], depth, path)
      {
        assert references[..i + 1][..i] == references[..i];
        InspectReference(references[i], depth, path);
        i := i + 1;
      }
      assert references[..i] == references;
    }
  }

  /** The preflight of a query that parses; a depth outside 0 to 8 is refused. */
  method AnalyzeQuery(db: Database, maxDepth: int, query: Analysis) returns (result: Option<State>)
    ensures result.None? <==> maxDepth < 0 || maxDepth > MAX_VIEW_DEPENDENCY_DEPTH
    ensures result.Some? ==> result.value == Analyze(db, maxDepth, query)
  {
    if maxDepth < 0 || maxDepth > MAX_VIEW_DEPENDENCY_DEPTH {
      return None;
    }
    var inspection := new Inspection(db, maxDepth);
    inspection.risks := query.risks;
    inspection.AddFunctionRisks(query.observations);
    inspection.InspectReferences(query.references, 1, []);
    result := Some(inspection.Contents());
  }
}
