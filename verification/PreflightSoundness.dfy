/** A preflight without risks read everything the query depends on, and what it read is acyclic. */
module PreflightSoundness {
  import opened Wrappers
  import opened Preflight

  /** A body as it was read: its canonical key, and whether it was read as a function. */
  type Node = (Key, bool)

  function BodyOf(db: Database, node: Node): Option<Analysis> {
    var definition := Resolve(db, node.0).definition;
    if definition.None? then None else db.parse(definition.value, node.1, node.0)
  }

  /** The key is its own canonical name. */
  predicate Fixed(db: Database, key: Key) {
    key.catalog == "" && CanonicalKey(key, Resolve(db, key)) == key
  }

  /** Looking up a canonical name finds the same object under the same name. */
  ghost predicate Stable(db: Database) {
    forall key :: Steady(db, key)
  }

  predicate Steady(db: Database, key: Key) {
    var resolution := Resolve(db, key);
    var canonical := CanonicalKey(key, resolution);
    Fixed(db, canonical) && Resolve(db, canonical).status == resolution.status
    && Resolve(db, canonical).definition == resolution.definition
  }

  // ---------------------------------------------------------------- bookkeeping

  ghost predicate Recorded(db: Database, state: State) {
    && (forall key :: key in state.cache ==> state.cache[key] == Resolve(db, key))
    && (forall issue :: issue in state.unresolved ==> issue.reason in state.risks)
    && (forall key :: key in state.analyzed ==> Fixed(db, key))
    && forall node :: node in state.resolved ==> Disclosed(db, state, node)
  }

  /** Everything risky in a body that was read is among the risks. */
  ghost predicate Disclosed(db: Database, state: State, node: Node) {
    BodyOf(db, node).Some? && forall risk :: risk in BodyRisks(BodyOf(db, node).value) ==> risk in state.risks
  }

  predicate Grows(before: State, after: State) {
    before.risks <= after.risks && before.unresolved <= after.unresolved && before.resolved <= after.resolved
  }

  lemma MarkRecords(db: Database, state: State, reference: Reference, depth: nat, reason: Risk)
    requires Recorded(db, state)
    ensures Recorded(db, Mark(state, reference, depth, reason))
  {
  }

  lemma EnterRecords(db: Database, state: State, key: Key, asFunction: bool, body: Analysis)
    requires Recorded(db, state) && Fixed(db, key) && BodyOf(db, (key, asFunction)) == Some(body)
    ensures Recorded(db, Enter(state, key, asFunction, body))
  {
    var after := Enter(state, key, asFunction, body);
    forall node | node in after.resolved ensures Disclosed(db, after, node) {
      if node != (key, asFunction) {
        assert Disclosed(db, state, node);
      }
    }
  }

  lemma LookupRecords(db: Database, state: State, reference: Reference, path: seq<Key>)
    requires Recorded(db, state)
    ensures Recorded(db, Lookup(db, state, reference, path))
            && Answer(db, state, reference.key) == Resolve(db, reference.key)
  {
    var after := Lookup(db, state, reference, path);
    forall node | node in after.resolved ensures Disclosed(db, after, node) {
      assert Disclosed(db, state, node);
    }
  }

  /** A decision to read names the canonical key and its body; the key is new. */
  lemma ReadIsBody(db: Database, maxDepth: nat, state: State, reference: Reference, depth: nat, path: seq<Key>)
    requires Stable(db) && Recorded(db, state)
    ensures var decision := Decide(db, maxDepth, state, reference, depth, path);
            decision.Read? ==>
              && decision.key == Canon(db, reference) && Fixed(db, decision.key)
              && BodyOf(db, (decision.key, decision.asFunction)) == Some(decision.body)
              && decision.key !in state.analyzed && decision.key !in path
  {
    assert Steady(db, reference.key);
  }

  lemma {:induction false} InspectRecords(db: Database, maxDepth: nat, state: State, reference: Reference, depth: nat,
                                          path: seq<Key>)
    requires Stable(db) && Recorded(db, state)
    ensures var after := Inspect(db, maxDepth, state, reference, depth, path);
            Recorded(db, after) && Grows(state, after)
    decreases maxDepth + 1 - depth, 0
  {
    var looked := Lookup(db, state, reference, path);
    LookupRecords(db, state, reference, path);
    match Decide(db, maxDepth, state, reference, depth, path)
    case Done =>
    case Report(reported, reason) => MarkRecords(db, looked, reported, depth, reason);
    case Read(key, asFunction, body) =>
      ReadIsBody(db, maxDepth, state, reference, depth, path);
      EnterRecords(db, looked, key, asFunction, body);
      InspectAllRecords(db, maxDepth, Enter(looked, key, asFunction, body), body.references, depth + 1, path + [key]);
  }

  lemma {:induction false} InspectAllRecords(db: Database, maxDepth: nat, state: State, references: seq<Reference>,
                                             depth: nat, path: seq<Key>)
    requires Stable(db) && Recorded(db, state)
    ensures var after := InspectAll(db, maxDepth, state, references, depth, path);
            Recorded(db, after) && Grows(state, after)
    decreases maxDepth + 1 - depth, |references| + 1
  {
    if references != [] {
      var front := references[..|references| - 1];
      InspectAllRecords(db, maxDepth, state, front, depth, path);
      InspectRecords(db, maxDepth, InspectAll(db, maxDepth, state, front, depth, path), references[|references| - 1],
        depth, path);
    }
  }

  // ---------------------------------------------------------------- finish order

  ghost predicate Among(key: Key, done: seq<Node>) { exists node :: node in done && node.0 == key }

  /** The reference needs nothing beyond the bodies in `done`. */
  ghost predicate Satisfied(db: Database, done: seq<Node>, reference: Reference) {
    reference.key.catalog == "" && (Excluded(db, reference) || Among(Canon(db, reference), done))
  }

  /** Every body needs only bodies that were finished before it. */
  ghost predicate Ordered(db: Database, done: seq<Node>) {
    done == [] ||
    var front, last := done[..|done| - 1], done[|done| - 1];
    && Ordered(db, front) && BodyOf(db, last).Some? && !Among(last.0, front)
    && forall reference :: reference in BodyOf(db, last).value.references ==> Satisfied(db, front, reference)
  }

  /** The bodies read so far are the ones on the path and the finished ones. */
  ghost predicate Tracked(db: Database, state: State, path: seq<Key>, done: seq<Node>) {
    && (forall key :: key in state.analyzed <==> key in path || Among(key, done))
    && (forall key :: key in path ==> !Among(key, done))
    && (forall node :: node in done ==> node in state.resolved)
    && (state.unresolved == [] ==> Ordered(db, done))
  }

  lemma SatisfiedGrows(db: Database, done: seq<Node>, more: seq<Node>, reference: Reference)
    requires done <= more && Satisfied(db, done, reference)
    ensures Satisfied(db, more, reference)
  {
    if node :| node in done && node.0 == Canon(db, reference) {
      assert node in more;
    }
  }

  /** A reference that is passed over silently is satisfied by what is finished. */
  lemma DoneIsSatisfied(db: Database, maxDepth: nat, state: State, reference: Reference, depth: nat, path: seq<Key>,
                        done: seq<Node>)
    requires Recorded(db, state) && Tracked(db, state, path, done)
    requires Decide(db, maxDepth, state, reference, depth, path) == Done
    ensures Satisfied(db, done, reference)
  {
    LookupRecords(db, state, reference, path);
    if reference.key in state.analyzed {
      assert Fixed(db, reference.key);
    }
  }

  /** The traversal of one reference, with the order in which the bodies below it are finished. */
  lemma {:induction false} InspectOrders(db: Database, maxDepth: nat, state: State, reference: Reference, depth: nat,
                                         path: seq<Key>, done: seq<Node>) returns (more: seq<Node>)
    requires Stable(db) && Recorded(db, state) && Tracked(db, state, path, done)
    ensures var after := Inspect(db, maxDepth, state, reference, depth, path);
            && done <= more && Tracked(db, after, path, more)
            && (after.unresolved == [] ==> Satisfied(db, more, reference))
    decreases maxDepth + 1 - depth, 0
  {
    more := done;
    var decision := Decide(db, maxDepth, state, reference, depth, path);
    if decision.Done? {
      DoneIsSatisfied(db, maxDepth, state, reference, depth, path, done);
    } else if decision.Read? {
      ReadIsBody(db, maxDepth, state, reference, depth, path);
      more := ReadOrders(db, maxDepth, Lookup(db, state, reference, path), reference, depth, path, done,
                         (decision.key, decision.asFunction), decision.body) by {
        LookupRecords(db, state, reference, path);
      }
    }
  }

  lemma {:induction false} ReadOrders(db: Database, maxDepth: nat, looked: State, reference: Reference, depth: nat,
                                      path: seq<Key>,
                                      done: seq<Node>, node: Node, body: Analysis) returns (more: seq<Node>)
    requires Stable(db) && Recorded(db, looked) && Tracked(db, looked, path, done) && depth <= maxDepth
    requires node.0 == Canon(db, reference) && Fixed(db, node.0) && BodyOf(db, node) == Some(body)
    requires node.0 !in looked.analyzed && node.0 !in path && reference.key.catalog == ""
    ensures var after :=
            InspectAll(db, maxDepth, Enter(looked, node.0, node.1, body), body.references, depth + 1, path + [node.0]);
            && done <= more && Tracked(db, after, path, more) && Satisfied(db, more, reference)
    decreases maxDepth + 1 - depth, 0, 0
  {
    var entered, longer := Enter(looked, node.0, node.1, body), path + [node.0];
    var after := InspectAll(db, maxDepth, entered, body.references, depth + 1, longer);
    EnterRecords(db, looked, node.0, node.1, body);
    InspectAllRecords(db, maxDepth, entered, body.references, depth + 1, longer);
    var inner := InspectAllOrders(db, maxDepth, entered, body.references, depth + 1, longer, done);
    assert entered.resolved[|looked.resolved|] == node && node in after.resolved;
    FinishNode(db, after, path, done, inner, node, body);
    more := inner + [node];
    assert node in more;
  }

  /** Finishing a body moves its key from the path to the finished ones. */
  lemma FinishNode(db: Database, state: State, path: seq<Key>, done: seq<Node>, more: seq<Node>, node: Node,
                   body: Analysis)
    requires Tracked(db, state, path + [node.0], more) && done <= more
    requires node in state.resolved && BodyOf(db, node) == Some(body) && node.0 !in path
    requires state.unresolved == [] ==>
             forall reference :: reference in body.references ==> Satisfied(db, more, reference)
    ensures Tracked(db, state, path, more + [node])
  {
    var all := more + [node];
    assert all[..|more|] == more;
    assert forall key :: Among(key, all) <==> Among(key, more) || key == node.0 by {
      forall key | Among(key, more) ensures Among(key, all) {
        var n :| n in more && n.0 == key;
        assert n in all;
      }
      assert node in all;
    }
  }

  lemma {:induction false} InspectAllOrders(db: Database, maxDepth: nat, state: State, references: seq<Reference>,
                                            depth: nat, path: seq<Key>, done: seq<Node>) returns (more: seq<Node>)
    requires Stable(db) && Recorded(db, state) && Tracked(db, state, path, done)
    ensures var after := InspectAll(db, maxDepth, state, references, depth, path);
            && done <= more && Tracked(db, after, path, more)
            && (after.unresolved == [] ==>
              forall reference :: reference in references ==> Satisfied(db, more, reference))
    decreases maxDepth + 1 - depth, |references| + 1
  {
    more := done;
    if references != [] {
      var front, last := references[..|references| - 1], references[|references| - 1];
      assert references == front + [last];
      var middle := InspectAll(db, maxDepth, state, front, depth, path);
      InspectAllRecords(db, maxDepth, state, front, depth, path);
      InspectRecords(db, maxDepth, middle, last, depth, path);
      var some := InspectAllOrders(db, maxDepth, state, front, depth, path, done);
      more := InspectOrders(db, maxDepth, middle, last, depth, path, some);
      if InspectAll(db, maxDepth, state, references, depth, path).unresolved == [] {
        forall reference | reference in front ensures Satisfied(db, more, reference) {
          SatisfiedGrows(db, some, more, reference);
        }
      }
    }
  }

  // ---------------------------------------------------------------- the verdict

  predicate Clean(body: Analysis) {
    body.risks == [] && forall observation :: observation in body.observations ==> observation.safe
  }

  /** The query and every body in `done` are clean, and each needs only bodies finished before it. */
  ghost predicate Certified(db: Database, query: Analysis, done: seq<Node>) {
    && Clean(query) && Ordered(db, done)
    && (forall reference :: reference in query.references ==> Satisfied(db, done, reference))
    && forall node :: node in done ==> BodyOf(db, node).Some? && Clean(BodyOf(db, node).value)
  }

  lemma {:induction false} RisklessIsSafe(observations: seq<Observation>)
    requires FunctionRisks(observations) == []
    ensures forall observation :: observation in observations ==> observation.safe
  {
    if observations != [] {
      assert |FunctionRisks(observations)| >= |FunctionRisks(observations[1..])|;
      RisklessIsSafe(observations[1..]);
    }
  }

  lemma EmptyWithin(some: seq<Risk>, all: seq<Risk>)
    requires forall risk :: risk in some ==> risk in all
    ensures all == [] ==> some == []
  {
    if some != [] {
      assert some[0] in all;
    }
  }

  lemma UndisclosedIsClean(db: Database, state: State, node: Node)
    requires Disclosed(db, state, node) && state.risks == []
    ensures Clean(BodyOf(db, node).value)
  {
    var body := BodyOf(db, node).value;
    EmptyWithin(BodyRisks(body), state.risks);
    assert |BodyRisks(body)| == |FunctionRisks(body.observations)| + |body.risks| + |body.risks|;
    RisklessIsSafe(body.observations);
  }

  /** A preflight that ends without risk codes is certified by an order of the bodies it read. */
  lemma RisklessIsCertified(db: Database, maxDepth: nat, query: Analysis) returns (done: seq<Node>)
    requires Stable(db)
    ensures Analyze(db, maxDepth, query).risks == [] ==> Certified(db, query, done)
    ensures forall node :: node in done ==> node in Analyze(db, maxDepth, query).resolved
  {
    var start := State(query.risks + FunctionRisks(query.observations), [], [], {}, map[]);
    done := InspectAllOrders(db, maxDepth, start, query.references, 1, [], []);
    InspectAllRecords(db, maxDepth, start, query.references, 1, []);
    var state := Analyze(db, maxDepth, query);
    if state.risks == [] {
      assert |state.unresolved| > 0 ==> state.unresolved[0].reason in state.risks;
      assert |start.risks| == |query.risks| + |FunctionRisks(query.observations)|;
      RisklessIsSafe(query.observations);
      forall node | node in done ensures BodyOf(db, node).Some? && Clean(BodyOf(db, node).value) {
        assert Disclosed(db, state, node);
        UndisclosedIsClean(db, state, node);
      }
    }
  }

  /** Without unresolved dependencies the bodies that were read are ordered, whatever their risks. */
  lemma ResolvedIsOrdered(db: Database, maxDepth: nat, query: Analysis) returns (done: seq<Node>)
    requires Stable(db)
    ensures var state := Analyze(db, maxDepth, query);
            state.unresolved == [] ==>
              Ordered(db, done) && forall key :: key in state.analyzed <==> Among(key, done)
  {
    var start := State(query.risks + FunctionRisks(query.observations), [], [], {}, map[]);
    done := InspectAllOrders(db, maxDepth, start, query.references, 1, [], []);
  }

  /** Every unresolved dependency has its reason among the risks. */
  predicate Told(state: State) { forall issue :: issue in state.unresolved ==> issue.reason in state.risks }

  lemma {:induction false} InspectTells(db: Database, maxDepth: nat, state: State, reference: Reference, depth: nat,
                                        path: seq<Key>)
    requires Told(state)
    ensures Told(Inspect(db, maxDepth, state, reference, depth, path))
    decreases maxDepth + 1 - depth, 0
  {
    var looked, decision := Lookup(db, state, reference, path), Decide(db, maxDepth, state, reference, depth, path);
    if decision.Read? {
      var entered := Enter(looked, decision.key, decision.asFunction, decision.body);
      assert Told(entered);
      InspectAllTells(db, maxDepth, entered, decision.body.references, depth + 1, path + [decision.key]);
    }
  }

  lemma {:induction false} InspectAllTells(db: Database, maxDepth: nat, state: State, references: seq<Reference>,
                                           depth: nat, path: seq<Key>)
    requires Told(state)
    ensures Told(InspectAll(db, maxDepth, state, references, depth, path))
    decreases maxDepth + 1 - depth, |references| + 1
  {
    if references != [] {
      var front := references[..|references| - 1];
      InspectAllTells(db, maxDepth, state, front, depth, path);
      InspectTells(db, maxDepth, InspectAll(db, maxDepth, state, front, depth, path), references[|references| - 1],
        depth, path);
    }
  }

  /** Fail closed, for every catalog and parser: whatever could not be inspected left a risk. */
  lemma UnresolvedLeavesRisk(db: Database, maxDepth: nat, query: Analysis, issue: Issue)
    requires issue in Analyze(db, maxDepth, query).unresolved
    ensures issue.reason in Analyze(db, maxDepth, query).risks
  {
    var start := State(query.risks + FunctionRisks(query.observations), [], [], {}, map[]);
    InspectAllTells(db, maxDepth, start, query.references, 1, []);
  }

  // ---------------------------------------------------------------- reachability

  /** The body read for key a refers to b. */
  ghost predicate Edge(db: Database, done: seq<Node>, a: Key, b: Key) {
    exists node, reference :: EdgeBy(db, done, node, reference, a, b)
  }

  ghost predicate EdgeBy(db: Database, done: seq<Node>, node: Node, reference: Reference, a: Key, b: Key) {
    && node in done && node.0 == a && BodyOf(db, node).Some? && reference in BodyOf(db, node).value.references
    && !Excluded(db, reference) && Canon(db, reference) == b
  }

  /** A chain of references that starts in the query. */
  ghost predicate Walk(db: Database, done: seq<Node>, walk: seq<Key>) {
    forall i :: 0 <= i < |walk| - 1 ==> Edge(db, done, walk[i], walk[i + 1])
  }

  ghost predicate StartsIn(db: Database, query: Analysis, key: Key) {
    exists reference :: reference in query.references && !Excluded(db, reference) && Canon(db, reference) == key
  }

  lemma {:induction false} EdgeStays(db: Database, done: seq<Node>, a: Key, b: Key)
    requires Ordered(db, done) && Edge(db, done, a, b)
    ensures Among(b, done) && Position(done, b) < Position(done, a)
  {
    var node, reference :| EdgeBy(db, done, node, reference, a, b);
    var front, last := done[..|done| - 1], done[|done| - 1];
    assert done == front + [last];
    if node == last {
      assert Satisfied(db, front, reference);
      PositionBound(front, b);
    } else {
      assert EdgeBy(db, front, node, reference, a, b);
      EdgeStays(db, front, a, b);
      assert Among(a, front) && a != last.0;
    }
    var target :| target in front && target.0 == b;
    assert target in done;
  }

  /** The place in the finish order, counted from one; zero when the key is not there. */
  function Position(done: seq<Node>, key: Key): nat {
    if done == [] then 0
    else if done[|done| - 1].0 == key then |done| else Position(done[..|done| - 1], key)
  }

  lemma {:induction false} PositionBound(done: seq<Node>, key: Key)
    ensures Position(done, key) <= |done|
  {
    if done != [] {
      PositionBound(done[..|done| - 1], key);
    }
  }

  /** Everything the query reaches was read and is clean. */
  lemma {:induction false} ReachableIsRead(db: Database, query: Analysis, done: seq<Node>, walk: seq<Key>, i: nat)
    requires Certified(db, query, done) && Walk(db, done, walk) && i < |walk| && StartsIn(db, query, walk[0])
    ensures exists node :: node in done && node.0 == walk[i] && BodyOf(db, node).Some? && Clean(BodyOf(db, node).value)
  {
    if i == 0 {
      var reference :| reference in query.references && !Excluded(db, reference) && Canon(db, reference) == walk[0];
      assert Satisfied(db, done, reference);
    } else {
      ReachableIsRead(db, query, done, walk, i - 1);
      EdgeStays(db, done, walk[i - 1], walk[i]);
    }
    var node :| node in done && node.0 == walk[i];
  }

  lemma {:induction false} WalkDescends(db: Database, done: seq<Node>, walk: seq<Key>, i: nat, j: nat)
    requires Ordered(db, done) && Walk(db, done, walk) && i < j < |walk|
    ensures Position(done, walk[j]) < Position(done, walk[i])
  {
    EdgeStays(db, done, walk[j - 1], walk[j]);
    if i < j - 1 {
      WalkDescends(db, done, walk, i, j - 1);
    }
  }

  /** The bodies that were read do not refer to each other in a circle. */
  lemma ReadBodiesAreAcyclic(db: Database, done: seq<Node>, walk: seq<Key>)
    requires Ordered(db, done) && Walk(db, done, walk) && |walk| > 1
    ensures walk[0] != walk[|walk| - 1]
  {
    WalkDescends(db, done, walk, 0, |walk| - 1);
  }
}
