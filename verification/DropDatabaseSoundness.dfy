/** Straight-line T-SQL that builds and executes text never reaches a DROP DATABASE unseen. */
module DropDatabaseSoundness {
  import opened Wrappers
  import opened SqlTokenizer
  import opened SqlLayout
  import opened DropDatabasePolicy
  import opened DropDatabasePrograms
  import opened DropDatabaseStatements

  lemma NamesLater(front: seq<Token>, rest: seq<Token>)
    requires NamesDropDatabase(rest)
    ensures NamesDropDatabase(front + rest)
  {
    var k :| 0 <= k < |rest| - 1 && IsWord(rest[k], DROP) && IsWord(rest[k + 1], DATABASE);
    assert (front + rest)[|front| + k] == rest[k] && (front + rest)[|front| + k + 1] == rest[k + 1];
  }

  lemma NamesFirst(name: string, rest: seq<Token>)
    ensures NamesDropDatabase(StatementTokens(Drop(name)) + rest)
  {
    var tokens := StatementTokens(Drop(name)) + rest;
    assert IsWord(tokens[0], DROP) && IsWord(tokens[0 + 1], DATABASE);
  }

  lemma {:induction false} DropIsSeen(program: Program, i: nat)
    requires i < |program| && program[i].Drop?
    ensures NamesDropDatabase(ProgramTokens(program))
  {
    var rest := ProgramTokens(program[1..]);
    if i == 0 {
      NamesFirst(program[0].name, rest);
    } else {
      DropIsSeen(program[1..], i - 1);
      NamesLater(Printed(program[0]), rest);
    }
  }

  predicate NoDrop(program: Program) { forall statement :: statement in program ==> !statement.Drop? }

  /** The scan that follows finds nothing being declared. */
  lemma NothingIsLeftOpen(before: seq<Token>, statement: Statement)
    requires !Declaring(before) && Complete(statement)
    ensures !Declaring(before + StatementTokens(statement))
  {
    var tokens := StatementTokens(statement);
    if statement.Declare? {
      assert tokens[|tokens| - 1] == Sym(';');
      assert (before + tokens)[|before + tokens| - 1] == tokens[|tokens| - 1];
    } else {
      DeclaresNothing(statement);
      NothingDeclared(before, tokens);
    }
  }

  lemma DeclaresNothing(statement: Statement)
    requires Complete(statement) && !statement.Declare?
    ensures forall token :: token in StatementTokens(statement) ==> !IsWord(token, DECLARE)
  {
    match statement
    case Set(item, ended) => ItemIsNeutral(item);
    case Select(items, ended) =>
      assert items[0] in items;
      ItemIsNeutral(items[0]);
      ItemsAreNeutral(items[1..]);
    case Exec(word, text, ended) => TextIsNeutral(text, ended);
    case Call(word, called) => ModuleIsNeutral(called);
    case Drop(_) =>
  }

  lemma ProgramBegins(program: Program)
    ensures Begins(ProgramTokens(program))
  {
    if program != [] && !Complete(program[0]) {
      assert ProgramTokens(program) == ProgramTokens(program[1..]);
      ProgramBegins(program[1..]);
    }
  }

  // ---------------------------------------------------------------- what is flagged

  predicate AllComplete(program: Program) { forall statement :: statement in program ==> Complete(statement) }

  /** Some statement executes a text that is flagged, with the values that the check has there. */
  predicate Finds(a: Alphabet, program: Program, known: Known, depth: nat)
    requires depth <= MAX_DYNAMIC_DEPTH
  {
    program != [] &&
    (|| (Executed(program[0]).Some? && FlagsExpression(a, TokensOf(Executed(program[0]).value), known, depth))
     || Finds(a, program[1..], Followed(program[0], known), depth))
  }

  lemma {:induction false} ProgramScans(a: Alphabet, before: seq<Token>, program: Program, known: Known, depth: nat)
    requires depth <= MAX_DYNAMIC_DEPTH && !Declaring(before) && AllComplete(program) && NoDrop(program)
    ensures Scans(a, before, ProgramTokens(program), known, depth) <==> Finds(a, program, known, depth)
    decreases |program|
  {
    if program != [] {
      var statement, after := program[0], ProgramTokens(program[1..]);
      assert statement in program;
      ProgramBegins(program[1..]);
      StatementScans(a, before, statement, after, known, depth);
      NothingIsLeftOpen(before, statement);
      ProgramScans(a, before + StatementTokens(statement), program[1..], Followed(statement, known), depth);
    }
  }

  /** A program is flagged for the words DROP DATABASE in it, or for a text that it executes: nothing
      else that it assigns, declares or calls is looked into. */
  lemma ProgramIsFlaggedExactly(a: Alphabet, text: string, program: Program, depth: nat)
    requires Standard(a) && Spells(a, text, ProgramTokens(program)) && AllComplete(program) && NoDrop(program)
    requires depth <= MAX_DYNAMIC_DEPTH
    ensures Flags(a, Tokens(a, text), depth)
            <==> NamesDropDatabase(ProgramTokens(program)) || Finds(a, program, map[], depth)
  {
    SpelledTextReadsBack(a, text, ProgramTokens(program));
    ProgramScans(a, [], program, map[], depth);
  }

  // ---------------------------------------------------------------- what is reached

  /** Whatever a program reaches by execution, the scan from there on flags. */
  lemma {:induction false} ReachedIsScanned(a: Alphabet, before: seq<Token>, program: Program, env: Known,
                                            nesting: nat, depth: nat)
    requires Standard(a) && !Declaring(before) && Reaches(a, program, env, nesting) && NoDrop(program)
    requires depth + nesting <= MAX_DYNAMIC_DEPTH
    ensures Scans(a, before, ProgramTokens(program), env, depth)
    decreases nesting, |program|, 0
  {
    var statement, after := program[0], ProgramTokens(program[1..]);
    assert statement in program;
    ProgramBegins(program[1..]);
    if inner :| ReachesInside(a, statement, env, nesting, inner) {
      ReachedTextIsFlagged(a, Value(Executed(statement).value, env).value, inner, nesting - 1, depth);
      ExecutedTextIsScanned(a, before, statement, after, env, depth);
    } else {
      NothingIsLeftOpen(before, statement);
      ReachedIsScanned(a, before + StatementTokens(statement), program[1..], Assign(statement, env), nesting, depth);
      RestIsScanned(a, before, statement, after, env, depth);
    }
  }

  lemma ExecutedTextIsScanned(a: Alphabet, before: seq<Token>, statement: Statement, after: seq<Token>, env: Known,
                              depth: nat)
    requires !Declaring(before) && Begins(after) && depth <= MAX_DYNAMIC_DEPTH && Complete(statement)
    requires Executed(statement).Some? && Value(Executed(statement).value, env).Some?
    requires FlagsText(a, Value(Executed(statement).value, env).value, depth)
    ensures Scans(a, before, StatementTokens(statement) + after, env, depth)
  {
    StatementScans(a, before, statement, after, env, depth);
    ExpressionIsFlaggedExactly(a, Executed(statement).value, env, depth);
  }

  lemma RestIsScanned(a: Alphabet, before: seq<Token>, statement: Statement, after: seq<Token>, env: Known, depth: nat)
    requires !Declaring(before) && Begins(after) && depth <= MAX_DYNAMIC_DEPTH
    requires Complete(statement) && OneTarget(statement) && !statement.Drop?
    requires Scans(a, before + StatementTokens(statement), after, Assign(statement, env), depth)
    ensures Scans(a, before, StatementTokens(statement) + after, env, depth)
  {
    FollowedIsAssigned(statement, env);
    StatementScans(a, before, statement, after, env, depth);
  }

  lemma {:induction false} ReachedTextIsFlagged(a: Alphabet, text: string, program: Program, nesting: nat, depth: nat)
    requires Standard(a) && Spells(a, text, ProgramTokens(program)) && Reaches(a, program, map[], nesting)
    requires depth + nesting < MAX_DYNAMIC_DEPTH
    ensures FlagsText(a, text, depth)
    decreases nesting, |program|, 2
  {
    SpelledTextReadsBack(a, text, ProgramTokens(program));
    assert ProgramTokens(program) != [];
    ReachedIsFlagged(a, program, nesting, depth + 1);
  }

  lemma {:induction false} ReachedIsFlagged(a: Alphabet, program: Program, nesting: nat, depth: nat)
    requires Standard(a) && Reaches(a, program, map[], nesting) && depth + nesting <= MAX_DYNAMIC_DEPTH
    ensures Flags(a, ProgramTokens(program), depth)
    decreases nesting, |program|, 1
  {
    if NoDrop(program) {
      ReachedIsScanned(a, [], program, map[], nesting, depth);
    } else {
      var i :| 0 <= i < |program| && program[i].Drop?;
      DropIsSeen(program, i);
    }
  }

  /** A text that runs into a DROP DATABASE within eight nested executions is rejected, however it is
      laid out and however its executed texts are put together. */
  lemma ReachableDropIsRejected(a: Alphabet, text: string, program: Program)
    requires Standard(a) && Spells(a, text, ProgramTokens(program)) && Reaches(a, program, map[], 8)
    ensures Flags(a, Tokens(a, text), 0)
  {
    SpelledTextReadsBack(a, text, ProgramTokens(program));
    ReachedIsFlagged(a, program, 8, 0);
  }

  // ---------------------------------------------------------------- depth

  /** A batch that only executes the text. */
  function Wrapped(word: string, text: string): seq<Token>
    requires ExecWord(word)
  {
    StatementTokens(Exec(word, Lit(text, false), true))
  }

  lemma WrappedNamesNothing(word: string, text: string)
    requires ExecWord(word)
    ensures !NamesDropDatabase(Wrapped(word, text))
  {
    assert Wrapped(word, text) == [Token(Word, word), Sym('('), Token(Literal, text), Sym(')'), Sym(';')];
  }

  /** The batch is flagged exactly when the text in it is, one level deeper. */
  lemma WrappingCostsOneLevel(a: Alphabet, word: string, text: string, depth: nat)
    requires ExecWord(word)
    ensures Flags(a, Wrapped(word, text), depth) <==> depth <= MAX_DYNAMIC_DEPTH && FlagsText(a, text, depth)
  {
    if depth <= MAX_DYNAMIC_DEPTH {
      var tokens := Wrapped(word, text);
      assert tokens + [] == tokens;
      ExecScans(a, [], word, Lit(text, false), true, [], map[], depth);
      ExpressionIsFlaggedExactly(a, Lit(text, false), map[], depth);
      WrappedNamesNothing(word, text);
    }
  }

  ghost predicate RunsNext(a: Alphabet, texts: seq<string>, i: nat)
    requires i + 1 < |texts|
  {
    exists word :: ExecWord(word) && Spells(a, texts[i], Wrapped(word, texts[i + 1]))
  }

  /** Every text executes the next one; the last holds the words DROP DATABASE. */
  ghost predicate Buried(a: Alphabet, texts: seq<string>) {
    && texts != [] && NamesDropDatabase(Tokens(a, texts[|texts| - 1]))
    && forall i: nat :: i + 1 < |texts| ==> RunsNext(a, texts, i)
  }

  lemma NamedIsFlagged(a: Alphabet, tokens: seq<Token>, depth: nat)
    requires NamesDropDatabase(tokens)
    ensures Flags(a, tokens, depth) <==> depth <= MAX_DYNAMIC_DEPTH
  {
  }

  lemma BuriedIsNoEmptyText(a: Alphabet, texts: seq<string>, i: nat)
    requires Standard(a) && Buried(a, texts) && i < |texts|
    ensures texts[i] != []
  {
    if i + 1 < |texts| {
      var word := NextIsRead(a, texts, i);
    }
  }

  lemma NextIsRead(a: Alphabet, texts: seq<string>, i: nat) returns (word: string)
    requires Standard(a) && Buried(a, texts) && i + 1 < |texts|
    ensures ExecWord(word) && Tokens(a, texts[i]) == Wrapped(word, texts[i + 1])
  {
    assert RunsNext(a, texts, i);
    word :| ExecWord(word) && Spells(a, texts[i], Wrapped(word, texts[i + 1]));
    SpelledTextReadsBack(a, texts[i], Wrapped(word, texts[i + 1]));
  }

  lemma OneLevelDeeper(a: Alphabet, texts: seq<string>, i: nat, depth: nat)
    requires Standard(a) && Buried(a, texts) && i + 1 < |texts|
    ensures Flags(a, Tokens(a, texts[i]), depth) <==>
              depth <= MAX_DYNAMIC_DEPTH && Flags(a, Tokens(a, texts[i + 1]), depth + 1)
  {
    var word := NextIsRead(a, texts, i);
    BuriedIsNoEmptyText(a, texts, i + 1);
    WrappingCostsOneLevel(a, word, texts[i + 1], depth);
  }

  ghost predicate FlaggedUpTo(a: Alphabet, text: string, nesting: nat) {
    forall depth: nat :: Flags(a, Tokens(a, text), depth) <==> nesting + depth <= MAX_DYNAMIC_DEPTH
  }

  lemma LastIsFlagged(a: Alphabet, texts: seq<string>)
    requires Buried(a, texts)
    ensures FlaggedUpTo(a, texts[|texts| - 1], 0)
  {
    var last := texts[|texts| - 1];
    forall depth: nat ensures Flags(a, Tokens(a, last), depth) <==> 0 + depth <= MAX_DYNAMIC_DEPTH {
      NamedIsFlagged(a, Tokens(a, last), depth);
    }
  }

  lemma OneMoreLevel(a: Alphabet, texts: seq<string>, i: nat, nesting: nat)
    requires Standard(a) && Buried(a, texts) && i + 1 < |texts| && FlaggedUpTo(a, texts[i + 1], nesting)
    ensures FlaggedUpTo(a, texts[i], nesting + 1)
  {
    forall depth: nat ensures Flags(a, Tokens(a, texts[i]), depth) <==> nesting + 1 + depth <= MAX_DYNAMIC_DEPTH {
      OneLevelDeeper(a, texts, i, depth);
    }
  }

  lemma {:induction false} LevelsAddUp(a: Alphabet, texts: seq<string>, i: nat)
    requires Standard(a) && Buried(a, texts) && i < |texts|
    ensures FlaggedUpTo(a, texts[i], |texts| - 1 - i)
    decreases |texts| - i
  {
    if i == |texts| - 1 {
      LastIsFlagged(a, texts);
    } else {
      LevelsAddUp(a, texts, i + 1);
      OneMoreLevel(a, texts, i, |texts| - 2 - i);
    }
  }

  /** The check sees through eight nested executions, and through no more. */
  lemma EightLevelsAndNoMore(a: Alphabet, texts: seq<string>)
    requires Standard(a) && Buried(a, texts)
    ensures Flags(a, Tokens(a, texts[0]), 0) <==> |texts| - 1 <= 8
  {
    LevelsAddUp(a, texts, 0);
  }

  // ---------------------------------------------------------------- what is not known

  /** The first part of the expression is a variable whose value is not known, or a function call. */
  predicate StartsUnknown(e: Expression, env: Known) {
    match e
    case Lit(_, _) => false
    case Var(name) => Held(env, name).None?
    case Plus(left, _) => StartsUnknown(left, env)
    case Group(inner) => StartsUnknown(inner, env)
    case Computed(_, _) => true
  }

  lemma {:induction false} NothingBeforeUnknown(e: Expression, env: Known)
    requires StartsUnknown(e, env)
    ensures Front(e, env) == ([], false)
  {
    match e
    case Plus(left, _) => NothingBeforeUnknown(left, env);
    case Group(inner) => NothingBeforeUnknown(inner, env);
    case _ =>
  }

  lemma {:induction false} FrontOfKnown(e: Expression, env: Known)
    ensures Front(e, env).1 == Value(e, env).Some?
    ensures Value(e, env).Some? ==> Front(e, env).0 == Value(e, env).value
  {
    match e
    case Plus(left, right) =>
      FrontOfKnown(left, env);
      FrontOfKnown(right, env);
    case Group(inner) => FrontOfKnown(inner, env);
    case _ =>
  }

  /** A text in front of an unknown part is checked as well: a batch that executes their sum is flagged
      for it. */
  lemma PrefixIsChecked(a: Alphabet, before: seq<Token>, word: string, front: Expression, back: Expression, ended: bool,
                        after: seq<Token>, env: Known, depth: nat)
    requires !Declaring(before) && depth <= MAX_DYNAMIC_DEPTH && Complete(Exec(word, Plus(front, back), ended))
    requires Value(front, env).Some? && StartsUnknown(back, env) && FlagsText(a, Value(front, env).value, depth)
    ensures Scans(a, before, StatementTokens(Exec(word, Plus(front, back), ended)) + after, env, depth)
  {
    FrontOfKnown(front, env);
    NothingBeforeUnknown(back, env);
    assert Value(front, env).value + [] == Value(front, env).value;
    ExpressionIsFlaggedExactly(a, Plus(front, back), env, depth);
    ExecScans(a, before, word, Plus(front, back), ended, after, env, depth);
  }
}
