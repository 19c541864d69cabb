/** What the preflight says about each reference, spelled out in the catalog's answers: which objects
    need no look, which are read, and which reason is given for every other one. */
module PreflightVerdict {
  import opened Wrappers
  import opened Preflight
  import opened PreflightSoundness

  /** The canonical name: what the answer does not name keeps the name that was asked for. */
  function NameOf(db: Database, reference: Reference): Key {
    var answer := db.resolve(reference.key.schema, reference.key.name);
    Key("", if answer.schema == "" then reference.key.schema else answer.schema,
        if answer.name == "" then reference.key.name else answer.name)
  }

  function StatusOf(db: Database, key: Key): Status { db.resolve(key.schema, key.name).status }

  function AnswerTo(db: Database, reference: Reference): Resolution {
    db.resolve(reference.key.schema, reference.key.name)
  }

  predicate HasBody(status: Status) { status == View || status == Function }

  /** The issue is recorded against the reference as it was written. */
  ghost predicate Reported(state: State, reference: Reference, reason: Risk) {
    exists issue :: issue in state.unresolved && issue.reference == reference && issue.reason == reason
  }

  /** The issue is recorded against this name. */
  ghost predicate ReportedFor(state: State, key: Key, reason: Risk) {
    exists issue :: issue in state.unresolved && issue.reference.key == key && issue.reason == reason
  }

  ghost predicate WasRead(state: State, key: Key) { exists node :: node in state.resolved && node.0 == key }

  /** The name of a column or schema function that no catalog object bears. */
  predicate NamesNoObject(db: Database,
                          reference: Reference) { reference.xmlCandidate && AnswerTo(db, reference).missing }

  /** An object with a body: read, or one of the reasons why it was not. */
  ghost predicate BodyAnswered(db: Database, state: State, reference: Reference) {
    var answer, key := AnswerTo(db, reference), NameOf(db, reference);
    var asFunction := reference.isFunction || answer.status == Function;
    || WasRead(state, key)
    || NamesNoObject(db, reference)
    || ReportedFor(state, key, Cyclic) || ReportedFor(state, key, TooDeep)
    || (answer.definition.None?
      && Reported(state, reference, Unreadable(if asFunction then Unresolved else View, asFunction)))
    || (answer.definition.Some? && db.parse(answer.definition.value, asFunction, key).None?
        && Reported(state, reference, Invalid(asFunction)))
  }

  /** What becomes of a reference, by the catalog's answer. */
  ghost predicate Answered(db: Database, state: State, reference: Reference) {
    if reference.key.catalog != "" then Reported(state, reference, CrossDatabase)
    else match StatusOf(db, reference.key)
      case NonView => reference.xmlCandidate || !reference.isFunction
        || Reported(state, reference, Unreadable(Unresolved, true))
      case Encrypted => NamesNoObject(db, reference)
        || Reported(state, reference, Unreadable(Encrypted, reference.isFunction))
      case Inaccessible =>
        NamesNoObject(db, reference) || Reported(state, reference, Unreadable(Inaccessible, reference.isFunction))
      case Unresolved =>
        NamesNoObject(db, reference) || Reported(state, reference, Unreadable(Unresolved, reference.isFunction))
      case View => BodyAnswered(db, state, reference)
      case Function => BodyAnswered(db, state, reference)
  }

  /** Every object that was read has a body, is read once, and its references are answered unless it
      is still on the path. */
  ghost predicate Kept(db: Database, state: State, path: seq<Key>) {
    && (forall key :: key in state.analyzed ==> HasBody(StatusOf(db, key)) && WasRead(state, key))
    && (forall key :: key in path ==> key in state.analyzed)
    && (forall node :: node in state.resolved ==> node.0 in state.analyzed)
    && (forall a, b :: a in state.resolved && b in state.resolved && a.0 == b.0 ==> a == b)
    && forall node :: node in state.resolved && node.0 !in path ==> BodyIsAnswered(db, state, node)
  }

  ghost predicate BodyIsAnswered(db: Database, state: State, node: Node) {
    BodyOf(db, node).Some?
      && forall reference :: reference in BodyOf(db, node).value.references ==> Answered(db, state, reference)
  }

  lemma StaysAnswered(db: Database, before: State, after: State, reference: Reference)
    requires Answered(db, before, reference) && Grows(before, after)
    ensures Answered(db, after, reference)
  {
    assert forall issue :: issue in before.unresolved ==> issue in after.unresolved;
    assert forall node :: node in before.resolved ==> node in after.resolved;
  }

  lemma MarkKeeps(db: Database, state: State, reference: Reference, depth: nat, reason: Risk, path: seq<Key>)
    requires Kept(db, state, path)
    ensures var after := Mark(state, reference, depth, reason);
            && Kept(db, after, path) && Reported(after, reference, reason) && ReportedFor(after, reference.key, reason)
  {
    var after := Mark(state, reference, depth, reason);
    var issue := Issue(reference, depth, reason);
    assert after.unresolved[|state.unresolved|] == issue && issue in after.unresolved;
    forall node | node in after.resolved && node.0 !in path ensures BodyIsAnswered(db, after, node) {
      forall r | r in BodyOf(db, node).value.references ensures Answered(db, after, r) {
        StaysAnswered(db, state, after, r);
      }
    }
  }

  lemma SameAnswers(db: Database, state: State, after: State, path: seq<Key>)
    requires Kept(db, state, path)
    requires after.unresolved == state.unresolved && after.resolved == state.resolved
             && after.analyzed == state.analyzed
    requires after.risks == state.risks
    ensures Kept(db, after, path)
  {
    forall node | node in after.resolved && node.0 !in path ensures BodyIsAnswered(db, after, node) {
      forall r | r in BodyOf(db, node).value.references ensures Answered(db, after, r) {
        StaysAnswered(db, state, after, r);
      }
    }
  }

  lemma EnterKeeps(db: Database, state: State, key: Key, asFunction: bool, body: Analysis, path: seq<Key>)
    requires Kept(db, state, path) && key !in state.analyzed && HasBody(StatusOf(db, key))
    ensures Kept(db, Enter(state, key, asFunction, body), path + [key])
  {
    var after := Enter(state, key, asFunction, body);
    assert after.resolved[|state.resolved|] == (key, asFunction);
    assert forall node :: node in after.resolved <==> node in state.resolved || node == (key, asFunction);
    assert forall k :: WasRead(state, k) ==> WasRead(after, k) by {
      forall k | WasRead(state, k) ensures WasRead(after, k) {
        var node :| node in state.resolved && node.0 == k;
        assert node in after.resolved;
      }
    }
    forall node | node in after.resolved && node.0 !in path + [key] ensures BodyIsAnswered(db, after, node) {
      forall r | r in BodyOf(db, node).value.references ensures Answered(db, after, r) {
        StaysAnswered(db, state, after, r);
      }
    }
  }

  /** Passed over silently: the answer allows it, or the object was read. */
  lemma DoneIsAnswered(db: Database, maxDepth: nat, state: State, reference: Reference, depth: nat, path: seq<Key>)
    requires Stable(db) && Recorded(db, state) && Kept(db, state, path)
    requires Decide(db, maxDepth, state, reference, depth, path) == Done
    ensures Answered(db, state, reference)
  {
    LookupRecords(db, state, reference, path);
    assert Steady(db, reference.key);
    if reference.key in state.analyzed {
      assert Fixed(db, reference.key);
    }
  }

  /** Reported: with the reason that the answer calls for. */
  lemma ReportIsAnswer(db: Database, maxDepth: nat, state: State, reference: Reference, depth: nat, path: seq<Key>,
                       after: State)
    requires Stable(db) && Recorded(db, state) && Kept(db, state, path)
    requires var decision := Decide(db, maxDepth, state, reference, depth, path);
             decision.Report? && Reported(after, decision.reference, decision.reason)
             && ReportedFor(after, decision.reference.key, decision.reason)
    ensures Answered(db, after, reference)
  {
    LookupRecords(db, state, reference, path);
    assert Steady(db, reference.key);
    if reference.key in path {
      assert Fixed(db, reference.key);
    }
  }

  lemma ReadHasBody(db: Database, maxDepth: nat, state: State, reference: Reference, depth: nat, path: seq<Key>)
    requires Stable(db) && Recorded(db, state)
    ensures var decision := Decide(db, maxDepth, state, reference, depth, path);
            decision.Read? ==>
              reference.key.catalog == "" && HasBody(StatusOf(db, reference.key))
              && HasBody(StatusOf(db, decision.key)) && decision.key == NameOf(db, reference)
  {
    LookupRecords(db, state, reference, path);
    assert Steady(db, reference.key);
  }

  lemma {:induction false} InspectAnswers(db: Database, maxDepth: nat, state: State, reference: Reference, depth: nat,
                                          path: seq<Key>)
    requires Stable(db) && Recorded(db, state) && Kept(db, state, path)
    ensures var after := Inspect(db, maxDepth, state, reference, depth, path);
            Kept(db, after, path) && Answered(db, after, reference)
    decreases maxDepth + 1 - depth, 0
  {
    var looked, decision := Lookup(db, state, reference, path), Decide(db, maxDepth, state, reference, depth, path);
    LookupRecords(db, state, reference, path);
    SameAnswers(db, state, looked, path);
    if decision.Done? {
      DoneIsAnswered(db, maxDepth, state, reference, depth, path);
      StaysAnswered(db, state, looked, reference);
    } else if decision.Report? {
      MarkKeeps(db, looked, decision.reference, depth, decision.reason, path);
      ReportIsAnswer(db, maxDepth, state, reference, depth, path,
        Mark(looked, decision.reference, depth, decision.reason));
    } else {
      ReadIsBody(db, maxDepth, state, reference, depth, path);
      ReadHasBody(db, maxDepth, state, reference, depth, path);
      ReadAnswers(db, maxDepth, looked, reference, depth, path, decision.key, decision.asFunction, decision.body);
    }
  }

  lemma {:induction false} ReadAnswers(db: Database, maxDepth: nat, looked: State, reference: Reference, depth: nat,
                                       path: seq<Key>, key: Key, asFunction: bool, body: Analysis)
    requires Stable(db) && Recorded(db, looked) && Kept(db, looked, path) && depth <= maxDepth
    requires key == NameOf(db, reference) && Fixed(db, key) && BodyOf(db, (key, asFunction)) == Some(body)
    requires key !in looked.analyzed && reference.key.catalog == ""
    requires HasBody(StatusOf(db, key)) && HasBody(StatusOf(db, reference.key))
    ensures var after :=
              InspectAll(db, maxDepth, Enter(looked, key, asFunction, body), body.references, depth + 1, path + [key]);
            Kept(db, after, path) && Answered(db, after, reference)
    decreases maxDepth + 1 - depth, 0, 0
  {
    var entered := Enter(looked, key, asFunction, body);
    var after := InspectAll(db, maxDepth, entered, body.references, depth + 1, path + [key]);
    EnterRecords(db, looked, key, asFunction, body);
    EnterKeeps(db, looked, key, asFunction, body, path);
    InspectAllRecords(db, maxDepth, entered, body.references, depth + 1, path + [key]);
    InspectAllAnswers(db, maxDepth, entered, body.references, depth + 1, path + [key]);
    assert entered.resolved[|looked.resolved|] == (key, asFunction) && (key, asFunction) in after.resolved;
    LeavePath(db, after, path, (key, asFunction), body);
  }

  /** A body whose references are all answered leaves the path. */
  lemma LeavePath(db: Database, state: State, path: seq<Key>, node: Node, body: Analysis)
    requires Kept(db, state, path + [node.0]) && node in state.resolved && BodyOf(db, node) == Some(body)
    requires forall reference :: reference in body.references ==> Answered(db, state, reference)
    ensures Kept(db, state, path)
  {
    assert forall key :: key in path ==> key in path + [node.0];
    forall other | other in state.resolved && other.0 !in path ensures BodyIsAnswered(db, state, other) {
      if other.0 == node.0 {
        assert other == node;
      }
    }
  }

  lemma {:induction false} InspectAllAnswers(db: Database, maxDepth: nat, state: State, references: seq<Reference>,
                                             depth: nat, path: seq<Key>)
    requires Stable(db) && Recorded(db, state) && Kept(db, state, path)
    ensures var after := InspectAll(db, maxDepth, state, references, depth, path);
            Kept(db, after, path) && forall reference :: reference in references ==> Answered(db, after, reference)
    decreases maxDepth + 1 - depth, |references| + 1
  {
    if references != [] {
      var front, last := references[..|references| - 1], references[|references| - 1];
      assert references == front + [last];
      var middle := InspectAll(db, maxDepth, state, front, depth, path);
      InspectAllRecords(db, maxDepth, state, front, depth, path);
      InspectAllAnswers(db, maxDepth, state, front, depth, path);
      InspectRecords(db, maxDepth, middle, last, depth, path);
      InspectAnswers(db, maxDepth, middle, last, depth, path);
      forall reference | reference in front
        ensures Answered(db, InspectAll(db, maxDepth, state, references, depth, path), reference) {
        StaysAnswered(db, middle, InspectAll(db, maxDepth, state, references, depth, path), reference);
      }
    }
  }

  // ---------------------------------------------------------------- the whole preflight

  /** The query refers to it, or a body that was read does. */
  ghost predicate Met(db: Database, query: Analysis, state: State, reference: Reference) {
    || reference in query.references
    || exists node :: node in state.resolved && BodyOf(db, node).Some? && reference in BodyOf(db, node).value.references
  }

  /** Every reference of the query and of every body that was read is answered as its status demands. */
  lemma EveryReferenceIsAnswered(db: Database, maxDepth: nat, query: Analysis, reference: Reference)
    requires Stable(db) && Met(db, query, Analyze(db, maxDepth, query), reference)
    ensures Answered(db, Analyze(db, maxDepth, query), reference)
  {
    var start := State(query.risks + FunctionRisks(query.observations), [], [], {}, map[]);
    InspectAllAnswers(db, maxDepth, start, query.references, 1, []);
    var state := Analyze(db, maxDepth, query);
    if node :| node in state.resolved && BodyOf(db, node).Some? && reference in BodyOf(db, node).value.references {
      assert BodyIsAnswered(db, state, node);
    }
  }

  /** The object of this name was read, and its definition parses. */
  predicate ReadAs(db: Database, state: State, key: Key, asFunction: bool) {
    (key, asFunction) in state.resolved && BodyOf(db, (key, asFunction)).Some?
  }

  /** What a reference may be when nothing is reported. */
  ghost predicate Accounted(db: Database, state: State, reference: Reference) {
    var answer, key := AnswerTo(db, reference), NameOf(db, reference);
    && reference.key.catalog == ""
    && (|| (HasBody(answer.status) && (ReadAs(db, state, key, false) || ReadAs(db, state, key, true)))
        || (answer.status == NonView && !reference.isFunction)
        || (reference.xmlCandidate && (answer.missing || answer.status == NonView)))
  }

  /** Fail closed: without risk codes, every reference of the query and of every body that was read is to
      this database, and is a table, an XML method that no object bears the name of, or a view or
      function whose body was read; an encrypted, inaccessible or unresolved object is none of these. */
  lemma RisklessIsAccounted(db: Database, maxDepth: nat, query: Analysis, reference: Reference)
    requires Stable(db) && Met(db, query, Analyze(db, maxDepth, query), reference)
    requires Analyze(db, maxDepth, query).risks == []
    ensures Analyze(db, maxDepth, query).unresolved == []
    ensures Accounted(db, Analyze(db, maxDepth, query), reference)
  {
    var start := State(query.risks + FunctionRisks(query.observations), [], [], {}, map[]);
    var state := Analyze(db, maxDepth, query);
    InspectAllRecords(db, maxDepth, start, query.references, 1, []);
    assert |state.unresolved| > 0 ==> state.unresolved[0].reason in state.risks;
    EveryReferenceIsAnswered(db, maxDepth, query, reference);
    AnsweredIsAccounted(db, state, reference);
  }

  /** Without issues, the answer to a reference leaves only the harmless cases. */
  lemma AnsweredIsAccounted(db: Database, state: State, reference: Reference)
    requires Recorded(db, state) && state.unresolved == [] && Answered(db, state, reference)
    ensures Accounted(db, state, reference)
  {
    if HasBody(AnswerTo(db, reference).status) && WasRead(state, NameOf(db, reference)) {
      var node :| node in state.resolved && node.0 == NameOf(db, reference);
      assert Disclosed(db, state, node) && ReadAs(db, state, NameOf(db, reference), node.1);
    }
  }

  // ---------------------------------------------------------------- every reason has its cause

  /** What the reason of an issue says of the catalog. */
  predicate Caused(db: Database, maxDepth: nat, issue: Issue) {
    var reference := issue.reference;
    var answer := AnswerTo(db, reference);
    match issue.reason
    case CrossDatabase => reference.key.catalog != ""
    case Cyclic => reference.key.catalog == "" && HasBody(answer.status)
    case TooDeep => issue.depth > maxDepth && reference.key.catalog == "" && HasBody(answer.status)
    case Unreadable(status, isFunction) =>
      && reference.key.catalog == "" && !(reference.xmlCandidate && (answer.missing || answer.status == NonView))
      && UnreadableBy(answer, reference.isFunction, status, isFunction)
    case Invalid(isFunction) =>
      && reference.key.catalog == "" && HasBody(answer.status) && answer.definition.Some?
      && isFunction == (reference.isFunction || answer.status == Function)
      && db.parse(answer.definition.value, isFunction, NameOf(db, reference)).None?
    case _ => false
  }

  /** The status and the kind in the reason, by the catalog's answer and how the object is used. */
  predicate UnreadableBy(answer: Resolution, used: bool, status: Status, isFunction: bool) {
    match answer.status
    case Encrypted => status == Encrypted && isFunction == used
    case Inaccessible => status == Inaccessible && isFunction == used
    case Unresolved => status == Unresolved && isFunction == used
    case NonView => used && status == Unresolved && isFunction
    case View => answer.definition.None? && isFunction == used && status == if used then Unresolved else View
    case Function => answer.definition.None? && isFunction && status == Unresolved
  }

  ghost predicate AllCaused(db: Database, maxDepth: nat, state: State) {
    forall issue :: issue in state.unresolved ==> Caused(db, maxDepth, issue)
  }

  lemma ReportIsCaused(db: Database, maxDepth: nat, state: State, reference: Reference, depth: nat, path: seq<Key>)
    requires Stable(db) && Recorded(db, state) && Kept(db, state, path)
    ensures var decision := Decide(db, maxDepth, state, reference, depth, path);
            decision.Report? ==> Caused(db, maxDepth, Issue(decision.reference, depth, decision.reason))
  {
    LookupRecords(db, state, reference, path);
    assert Steady(db, reference.key);
  }

  lemma {:induction false} InspectIsCaused(db: Database, maxDepth: nat, state: State, reference: Reference, depth: nat,
                                           path: seq<Key>)
    requires Stable(db) && Recorded(db, state) && Kept(db, state, path) && AllCaused(db, maxDepth, state)
    ensures AllCaused(db, maxDepth, Inspect(db, maxDepth, state, reference, depth, path))
    decreases maxDepth + 1 - depth, 0
  {
    var looked, decision := Lookup(db, state, reference, path), Decide(db, maxDepth, state, reference, depth, path);
    LookupRecords(db, state, reference, path);
    SameAnswers(db, state, looked, path);
    ReportIsCaused(db, maxDepth, state, reference, depth, path);
    if decision.Read? {
      var entered := Enter(looked, decision.key, decision.asFunction, decision.body);
      ReadIsBody(db, maxDepth, state, reference, depth, path);
      ReadHasBody(db, maxDepth, state, reference, depth, path);
      EnterRecords(db, looked, decision.key, decision.asFunction, decision.body);
      EnterKeeps(db, looked, decision.key, decision.asFunction, decision.body, path);
      InspectAllIsCaused(db, maxDepth, entered, decision.body.references, depth + 1, path + [decision.key]);
    }
  }

  lemma {:induction false} InspectAllIsCaused(db: Database, maxDepth: nat, state: State, references: seq<Reference>,
                                              depth: nat, path: seq<Key>)
    requires Stable(db) && Recorded(db, state) && Kept(db, state, path) && AllCaused(db, maxDepth, state)
    ensures AllCaused(db, maxDepth, InspectAll(db, maxDepth, state, references, depth, path))
    decreases maxDepth + 1 - depth, |references| + 1
  {
    if references != [] {
      var front := references[..|references| - 1];
      InspectAllRecords(db, maxDepth, state, front, depth, path);
      InspectAllAnswers(db, maxDepth, state, front, depth, path);
      InspectAllIsCaused(db, maxDepth, state, front, depth, path);
      InspectIsCaused(db, maxDepth, InspectAll(db, maxDepth, state, front, depth, path),
                      references[|references| - 1], depth, path);
    }
  }

  /** No issue without its cause: each reason is one that the catalog's answer calls for. */
  lemma EveryReasonIsCaused(db: Database, maxDepth: nat, query: Analysis, issue: Issue)
    requires Stable(db) && issue in Analyze(db, maxDepth, query).unresolved
    ensures Caused(db, maxDepth, issue)
  {
    var start := State(query.risks + FunctionRisks(query.observations), [], [], {}, map[]);
    InspectAllIsCaused(db, maxDepth, start, query.references, 1, []);
  }

  // ---------------------------------------------------------------- functions that are not safe

  lemma {:induction false} FunctionRiskIsFound(observations: seq<Observation>, observation: Observation)
    requires observation in observations && !observation.safe
    ensures (if observation.clock then Clock else RowVolatile) in FunctionRisks(observations)
  {
    if observation != observations[0] {
      FunctionRiskIsFound(observations[1..], observation);
    }
  }

  /** It is called in the query or in a body that was read. */
  ghost predicate Called(db: Database, query: Analysis, state: State, observation: Observation) {
    || observation in query.observations
    || exists node ::
      node in state.resolved && BodyOf(db, node).Some? && observation in BodyOf(db, node).value.observations
  }

  /** A function that reads the clock and one that differs by row are each among the risks by their own code. */
  lemma UnsafeFunctionsAreReported(db: Database, maxDepth: nat, query: Analysis, observation: Observation)
    requires Stable(db) && Called(db, query, Analyze(db, maxDepth, query), observation) && !observation.safe
    ensures observation.clock ==> Clock in Analyze(db, maxDepth, query).risks
    ensures !observation.clock ==> RowVolatile in Analyze(db, maxDepth, query).risks
  {
    var start := State(query.risks + FunctionRisks(query.observations), [], [], {}, map[]);
    var state := Analyze(db, maxDepth, query);
    var risk := if observation.clock then Clock else RowVolatile;
    InspectAllRecords(db, maxDepth, start, query.references, 1, []);
    if observation in query.observations {
      FunctionRiskIsFound(query.observations, observation);
      assert risk in start.risks;
    } else {
      var node :|
        node in state.resolved && BodyOf(db, node).Some? && observation in BodyOf(db, node).value.observations;
      FunctionRiskIsFound(BodyOf(db, node).value.observations, observation);
      assert Disclosed(db, state, node) && risk in BodyRisks(BodyOf(db, node).value);
    }
  }

  // ---------------------------------------------------------------- what the catalog is asked

  /** Only names of this database are looked up, and each answer is the catalog's. */
  ghost predicate AsksHere(db: Database, state: State) {
    forall key :: key in state.cache ==> key.catalog == "" && state.cache[key] == Resolve(db, key)
  }

  lemma {:induction false} InspectAsksHere(db: Database, maxDepth: nat, state: State, reference: Reference, depth: nat,
                                           path: seq<Key>)
    requires AsksHere(db, state)
    ensures AsksHere(db, Inspect(db, maxDepth, state, reference, depth, path))
    decreases maxDepth + 1 - depth, 0
  {
    var looked, decision := Lookup(db, state, reference, path), Decide(db, maxDepth, state, reference, depth, path);
    assert AsksHere(db, looked);
    if decision.Read? {
      InspectAllAsksHere(db, maxDepth, Enter(looked, decision.key, decision.asFunction, decision.body),
        decision.body.references, depth + 1, path + [decision.key]);
    }
  }

  lemma {:induction false} InspectAllAsksHere(db: Database, maxDepth: nat, state: State, references: seq<Reference>,
                                              depth: nat, path: seq<Key>)
    requires AsksHere(db, state)
    ensures AsksHere(db, InspectAll(db, maxDepth, state, references, depth, path))
    decreases maxDepth + 1 - depth, |references| + 1
  {
    if references != [] {
      var front := references[..|references| - 1];
      InspectAllAsksHere(db, maxDepth, state, front, depth, path);
      InspectAsksHere(db, maxDepth, InspectAll(db, maxDepth, state, front, depth, path), references[|references| - 1],
        depth, path);
    }
  }

  lemma OtherDatabasesAreNotAsked(db: Database, maxDepth: nat, query: Analysis)
    ensures AsksHere(db, Analyze(db, maxDepth, query))
  {
    InspectAllAsksHere(db, maxDepth, State(query.risks + FunctionRisks(query.observations), [], [], {}, map[]),
      query.references, 1, []);
  }
}
