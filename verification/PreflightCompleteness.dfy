/** A clean, readable dependency graph that is no deeper than the limit passes the preflight:
    shared dependencies, visiting order and the depth at which a body is met do not matter. */
module PreflightCompleteness {
  import opened Wrappers
  import opened Preflight
  import opened PreflightSoundness

  /** Everything below the reference is clean and readable, within `budget` levels. */
  ghost predicate FineReference(db: Database, reference: Reference, budget: nat)
    decreases budget, 1
  {
    reference.key.catalog == "" &&
    (Excluded(db, reference)
     || ((reference.isFunction ==> Resolve(db, reference.key).status == Function)
       && FineKey(db, Canon(db, reference), budget)))
  }

  ghost predicate FineKey(db: Database, key: Key, budget: nat)
    decreases budget, 0
  {
    var resolution := Resolve(db, key);
    var body := BodyOf(db, (key, resolution.status == Function));
    && budget > 0 && (resolution.status == View || resolution.status == Function) && !resolution.missing
    && body.Some? && Clean(body.value)
    && forall reference :: reference in body.value.references ==> FineReference(db, reference, budget - 1)
  }

  lemma {:induction false} FineGrows(db: Database, key: Key, budget: nat, more: nat)
    requires FineKey(db, key, budget) && budget <= more
    ensures FineKey(db, key, more)
    decreases budget
  {
    var body := BodyOf(db, (key, Resolve(db, key).status == Function)).value;
    forall reference | reference in body.references ensures FineReference(db, reference, more - 1) {
      assert FineReference(db, reference, budget - 1);
      if !Excluded(db, reference) {
        FineGrows(db, Canon(db, reference), budget - 1, more - 1);
      }
    }
  }

  /** The smallest budget within which a key is fine. */
  lemma {:induction false} Height(db: Database, key: Key, budget: nat) returns (height: nat)
    requires FineKey(db, key, budget)
    ensures 0 < height <= budget && FineKey(db, key, height) && !FineKey(db, key, height - 1)
  {
    height := budget;
    if FineKey(db, key, budget - 1) {
      height := Height(db, key, budget - 1);
    }
  }

  lemma {:induction false} SafeIsRiskless(observations: seq<Observation>)
    requires forall observation :: observation in observations ==> observation.safe
    ensures FunctionRisks(observations) == []
  {
    if observations != [] {
      SafeIsRiskless(observations[1..]);
    }
  }

  /** No key on the path is fine within the budget: going down, heights fall strictly. */
  ghost predicate PathAbove(db: Database, path: seq<Key>, budget: nat) {
    forall key :: key in path ==>
      !FineKey(db, key, budget) && Fixed(db, key) && !Resolve(db, key).missing
      && (Resolve(db, key).status == View || Resolve(db, key).status == Function)
  }

  /** The checks never report a fine reference; what they read has no risks of its own. */
  lemma FineIsNotReported(db: Database, maxDepth: nat, state: State, reference: Reference, depth: nat, path: seq<Key>,
                          budget: nat)
    requires Stable(db) && Recorded(db, state) && FineReference(db, reference, budget)
    requires PathAbove(db, path, budget) && budget + depth <= maxDepth + 1
    ensures var decision := Decide(db, maxDepth, state, reference, depth, path);
            && !decision.Report?
            && (decision.Read? ==>
                  && decision.key == Canon(db, reference) && FineKey(db, decision.key, budget)
                  && BodyOf(db, (decision.key, Resolve(db, decision.key).status == Function)) == Some(decision.body)
                  && BodyRisks(decision.body) == [])
  {
    LookupRecords(db, state, reference, path);
    assert Steady(db, reference.key);
    var decision := Decide(db, maxDepth, state, reference, depth, path);
    if decision.Read? {
      assert FineKey(db, Canon(db, reference), budget);
      SafeIsRiskless(decision.body.observations);
    }
  }

  lemma {:induction false} InspectIsQuiet(db: Database, maxDepth: nat, state: State, reference: Reference, depth: nat,
                                          path: seq<Key>, budget: nat)
    requires Stable(db) && Recorded(db, state) && FineReference(db, reference, budget)
    requires PathAbove(db, path, budget) && budget + depth <= maxDepth + 1
    ensures var after := Inspect(db, maxDepth, state, reference, depth, path);
            after.risks == state.risks && after.unresolved == state.unresolved
    decreases maxDepth + 1 - depth, 0
  {
    FineIsNotReported(db, maxDepth, state, reference, depth, path, budget);
    var decision := Decide(db, maxDepth, state, reference, depth, path);
    if decision.Read? {
      var key, looked := decision.key, Lookup(db, state, reference, path);
      LookupRecords(db, state, reference, path);
      ReadIsBody(db, maxDepth, state, reference, depth, path);
      EnterRecords(db, looked, key, decision.asFunction, decision.body);
      var height := Height(db, key, budget);
      forall above | above in path ensures !FineKey(db, above, height - 1) {
        if FineKey(db, above, height - 1) { FineGrows(db, above, height - 1, budget); }
      }
      InspectAllIsQuiet(db, maxDepth, Enter(looked, key, decision.asFunction, decision.body), decision.body.references,
                        depth + 1, path + [key], height - 1);
    }
  }

  lemma {:induction false} InspectAllIsQuiet(db: Database, maxDepth: nat, state: State, references: seq<Reference>,
                                             depth: nat, path: seq<Key>, budget: nat)
    requires Stable(db) && Recorded(db, state)
    requires forall reference :: reference in references ==> FineReference(db, reference, budget)
    requires PathAbove(db, path, budget) && budget + depth <= maxDepth + 1
    ensures var after := InspectAll(db, maxDepth, state, references, depth, path);
            after.risks == state.risks && after.unresolved == state.unresolved
    decreases maxDepth + 1 - depth, |references| + 1
  {
    if references != [] {
      var front := references[..|references| - 1];
      InspectAllRecords(db, maxDepth, state, front, depth, path);
      InspectAllIsQuiet(db, maxDepth, state, front, depth, path, budget);
      InspectIsQuiet(db, maxDepth, InspectAll(db, maxDepth, state, front, depth, path), references[|references| - 1],
        depth, path, budget);
    }
  }

  /** A clean query over fine references passes. */
  lemma FineQueriesPass(db: Database, maxDepth: nat, query: Analysis)
    requires Stable(db) && Clean(query)
    requires forall reference :: reference in query.references ==> FineReference(db, reference, maxDepth)
    ensures Analyze(db, maxDepth, query).risks == [] && Analyze(db, maxDepth, query).unresolved == []
  {
    SafeIsRiskless(query.observations);
    var start := State(query.risks + FunctionRisks(query.observations), [], [], {}, map[]);
    InspectAllIsQuiet(db, maxDepth, start, query.references, 1, [], maxDepth);
  }
}
