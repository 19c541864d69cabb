/** The scan of one statement: what it is flagged for, and the values it leaves to the scan behind it. */
module DropDatabaseStatements {
  import opened Wrappers
  import opened SqlTokenizer
  import opened DropDatabasePolicy
  import opened DropDatabasePrograms

  /** The values that the scan goes on with: of a SELECT it follows the first variable only. */
  function Followed(statement: Statement, known: Known): Known {
    if statement.Select? && statement.items != [] then AssignItem(statement.items[0], known)
    else Assign(statement, known)
  }

  lemma FollowedIsAssigned(statement: Statement, known: Known)
    requires Complete(statement) && OneTarget(statement)
    ensures Followed(statement, known) == Assign(statement, known)
  {
    if statement.Select? {
      assert statement.items[1..] == [];
      assert AssignItems(statement.items[1..], AssignItem(statement.items[0], known))
             == AssignItem(statement.items[0], known);
    }
  }

  /** The end of the batch, or the first word of a statement. */
  predicate Begins(after: seq<Token>) { after == [] || after[0].kind == Word }

  // ---------------------------------------------------------------- tokens that change nothing

  lemma QuietStep(a: Alphabet, before: seq<Token>, token: Token, after: seq<Token>, known: Known, depth: nat)
    requires depth <= MAX_DYNAMIC_DEPTH && !Executes(token)
    requires token.kind == Variable ==> AssignmentAt(before).None? || EqualsIn(after, 0).None?
    ensures Scans(a, before, [token] + after, known, depth) == Scans(a, before + [token], after, known, depth)
  {
    assert ([token] + after)[1..] == after;
  }

  lemma StillIdle(before: seq<Token>, token: Token)
    requires !Declaring(before) && Neutral(token)
    ensures AssignmentAt(before + [token]).None? && !Declaring(before + [token])
  {
    assert (before + [token])[..|before|] == before;
  }

  predicate AllNeutral(xs: seq<Token>) { forall token :: token in xs ==> Neutral(token) }

  /** Where nothing is assigned or declared, tokens without the reserved words change nothing. */
  lemma {:induction false} FreeRun(a: Alphabet, before: seq<Token>, xs: seq<Token>, after: seq<Token>, known: Known,
                                   depth: nat)
    requires depth <= MAX_DYNAMIC_DEPTH && AssignmentAt(before).None? && AllNeutral(xs)
    ensures Scans(a, before, xs + after, known, depth) == Scans(a, before + xs, after, known, depth)
    decreases |xs|
  {
    if xs == [] {
      assert xs + after == after && before + xs == before;
    } else {
      assert xs[0] in xs;
      assert xs + after == [xs[0]] + (xs[1..] + after);
      QuietStep(a, before, xs[0], xs[1..] + after, known, depth);
      StillIdle(before, xs[0]);
      FreeRun(a, before + [xs[0]], xs[1..], after, known, depth);
      assert before + xs == before + [xs[0]] + xs[1..];
    }
  }

  /** Nothing is being declared behind them either. */
  lemma {:induction false} NothingDeclared(before: seq<Token>, xs: seq<Token>)
    requires !Declaring(before) && forall token :: token in xs ==> !IsWord(token, DECLARE)
    ensures !Declaring(before + xs)
  {
    if xs == [] {
      assert before + xs == before;
    } else {
      var front := xs[..|xs| - 1];
      NothingDeclared(before, front);
      assert (before + xs)[..|before + xs| - 1] == before + front;
      assert xs[|xs| - 1] in xs;
    }
  }

  /** Tokens that are no variables and execute nothing. */
  lemma {:induction false} StillRun(a: Alphabet, before: seq<Token>, xs: seq<Token>, after: seq<Token>, known: Known,
                                    depth: nat)
    requires depth <= MAX_DYNAMIC_DEPTH && AllNeutral(xs) && forall token :: token in xs ==> token.kind != Variable
    ensures Scans(a, before, xs + after, known, depth) == Scans(a, before + xs, after, known, depth)
    decreases |xs|
  {
    if xs == [] {
      assert xs + after == after && before + xs == before;
    } else {
      assert xs[0] in xs;
      assert xs + after == [xs[0]] + (xs[1..] + after);
      QuietStep(a, before, xs[0], xs[1..] + after, known, depth);
      StillRun(a, before + [xs[0]], xs[1..], after, known, depth);
      assert before + xs == before + [xs[0]] + xs[1..];
    }
  }

  /** Two stretches of tokens scanned one after the other. */
  lemma ScansOn(a: Alphabet, before: seq<Token>, xs: seq<Token>, ys: seq<Token>, after: seq<Token>,
                known: Known, then_: Known, now: Known, depth: nat)
    requires depth <= MAX_DYNAMIC_DEPTH
    requires Scans(a, before, xs + (ys + after), known, depth) == Scans(a, before + xs, ys + after, then_, depth)
    requires Scans(a, before + xs, ys + after, then_, depth) == Scans(a, before + xs + ys, after, now, depth)
    ensures Scans(a, before, xs + ys + after, known, depth) == Scans(a, before + (xs + ys), after, now, depth)
  {
    assert xs + (ys + after) == xs + ys + after;
    assert before + xs + ys == before + (xs + ys);
  }

  /** An expression in a declaration, which no equals sign follows within the item. */
  lemma {:induction false} ExpressionRuns(a: Alphabet, before: seq<Token>, e: Expression, after: seq<Token>,
                                          known: Known,
                                          depth: nat)
    requires depth <= MAX_DYNAMIC_DEPTH && EqualsIn(after, 0).None? && Unreserved(e)
    ensures Scans(a, before, TokensOf(e) + after, known, depth) == Scans(a, before + TokensOf(e), after, known, depth)
    decreases e
  {
    match e
    case Plus(left, right) =>
      NoEqualsBehindPlus(right, after);
      ExpressionRuns(a, before, left, [Sym('+')] + (TokensOf(right) + after), known, depth);
      QuietStep(a, before + TokensOf(left), Sym('+'), TokensOf(right) + after, known, depth);
      ExpressionRuns(a, before + TokensOf(left) + [Sym('+')], right, after, known, depth);
      PlusJoins(before, left, right, after);
    case Group(inner) =>
      EqualsStep(Sym(')'), after, 0);
      QuietStep(a, before, Sym('('), TokensOf(inner) + ([Sym(')')] + after), known, depth);
      ExpressionRuns(a, before + [Sym('(')], inner, [Sym(')')] + after, known, depth);
      QuietStep(a, before + [Sym('(')] + TokensOf(inner), Sym(')'), after, known, depth);
      GroupJoins(before, inner, after);
    case Computed(name, inner) =>
      var call := before + [Token(Word, name)];
      EqualsStep(Sym(')'), after, 0);
      QuietStep(a, before, Token(Word, name), [Sym('(')] + (TokensOf(inner) + ([Sym(')')] + after)), known, depth);
      QuietStep(a, call, Sym('('), TokensOf(inner) + ([Sym(')')] + after), known, depth);
      ExpressionRuns(a, call + [Sym('(')], inner, [Sym(')')] + after, known, depth);
      QuietStep(a, call + [Sym('(')] + TokensOf(inner), Sym(')'), after, known, depth);
      CallJoins(before, name, inner, after);
    case _ =>
      QuietStep(a, before, TokensOf(e)[0], after, known, depth);
  }

  lemma NoEqualsBehindPlus(right: Expression, after: seq<Token>)
    requires EqualsIn(after, 0).None?
    ensures EqualsIn([Sym('+')] + (TokensOf(right) + after), 0).None?
  {
    EqualsBehindExpression(right, after, 0);
    EqualsStep(Sym('+'), TokensOf(right) + after, 0);
  }

  lemma PlusJoins(before: seq<Token>, left: Expression, right: Expression, after: seq<Token>)
    ensures TokensOf(Plus(left, right)) + after == TokensOf(left) + ([Sym('+')] + (TokensOf(right) + after))
    ensures before + TokensOf(Plus(left, right)) == before + TokensOf(left) + [Sym('+')] + TokensOf(right)
  {
  }

  lemma GroupJoins(before: seq<Token>, inner: Expression, after: seq<Token>)
    ensures TokensOf(Group(inner)) + after == [Sym('(')] + (TokensOf(inner) + ([Sym(')')] + after))
    ensures before + TokensOf(Group(inner)) == before + [Sym('(')] + TokensOf(inner) + [Sym(')')]
  {
  }

  lemma CallJoins(before: seq<Token>, name: string, inner: Expression, after: seq<Token>)
    ensures TokensOf(Computed(name, inner)) + after
            == [Token(Word, name)] + ([Sym('(')] + (TokensOf(inner) + ([Sym(')')] + after)))
    ensures before + TokensOf(Computed(name, inner))
            == before + [Token(Word, name)] + [Sym('(')] + TokensOf(inner) + [Sym(')')]
  {
  }

  // ---------------------------------------------------------------- SET and SELECT

  /** Scanning the variable token of an assignment. */
  lemma AssigningStep(a: Alphabet, before: seq<Token>, name: string, after: seq<Token>, known: Known, now: Known,
                      depth: nat)
    requires depth <= MAX_DYNAMIC_DEPTH && Updated(before, Token(Variable, name), after, known) == now
    ensures Scans(a, before, [Token(Variable, name)] + after, known, depth)
            == Scans(a, before + [Token(Variable, name)], after, now, depth)
  {
    assert ([Token(Variable, name)] + after)[1..] == after;
  }

  function SignLength(item: Item): nat { if item.append then 1 else 0 }

  lemma SignIsFound(item: Item, rest: seq<Token>)
    ensures EqualsIn(ItemTail(item) + rest, 0) == Some(SignLength(item))
    ensures var all := ItemTail(item) + rest;
            && SignLength(item) < |all| && all[SignLength(item) + 1..] == TokensOf(item.value) + rest
            && (item.append <==> SignLength(item) > 0 && IsSymbol(all[SignLength(item) - 1], '+'))
  {
    var all := ItemTail(item) + rest;
    if item.append {
      assert all == [Sym('+')] + ([Sym('=')] + (TokensOf(item.value) + rest));
      EqualsStep(Sym('+'), [Sym('=')] + (TokensOf(item.value) + rest), 0);
    } else {
      assert all[0] == Sym('=');
    }
  }

  lemma ItemUpdates(before: seq<Token>, kind: Assignment, item: Item, rest: seq<Token>, known: Known)
    requires AssignmentAt(before) == Some(kind) && Assigned(rest, kind, 0, false) == [] && Assignable(item.value, true)
    ensures Updated(before, Token(Variable, item.name), ItemTail(item) + rest, known) == AssignItem(item, known)
  {
    SignIsFound(item, rest);
    AssignedExpression(item.value, rest, kind, 0, true);
    assert TokensOf(item.value) + [] == TokensOf(item.value);
    ExpressionHasItsValue(item.value, known);
  }

  function KindOf(word: string): Assignment { if word == SET then BySet else BySelect }

  lemma AssignsByWord(before: seq<Token>, word: string)
    requires word == SET || word == SELECT
    ensures AssignmentAt(before + [Token(Word, word)]) == Some(KindOf(word))
  {
    assert (before + [Token(Word, word)])[|before|] == Token(Word, word);
  }

  lemma AssignsNothing(before: seq<Token>, word: string, name: string)
    requires !Declaring(before) && (word == SET || word == SELECT)
    ensures AssignmentAt(before + [Token(Word, word)] + [Token(Variable, name)]).None?
  {
    var front := before + [Token(Word, word)];
    assert front[..|before|] == before;
    assert !Declaring(front);
    StillIdle(front, Token(Variable, name));
  }

  /** The first word of a statement, the variable it assigns, and the rest of the statement. */
  lemma AssignmentScans(a: Alphabet, before: seq<Token>, word: string, item: Item, more: seq<Token>, after: seq<Token>,
                        known: Known, depth: nat)
    requires depth <= MAX_DYNAMIC_DEPTH && !Declaring(before) && (word == SET || word == SELECT)
    requires AllNeutral(ItemTail(item) + more) && Assigned(more + after, KindOf(word), 0, false) == []
             && WellAssigned(item.value)
    ensures var tokens := [Token(Word, word)] + [Token(Variable, item.name)] + (ItemTail(item) + more);
            Scans(a, before, tokens + after, known, depth)
              == Scans(a, before + tokens, after, AssignItem(item, known), depth)
  {
    var first, target, rest := Token(Word, word), Token(Variable, item.name), ItemTail(item) + more;
    var now := AssignItem(item, known);
    QuietStep(a, before, first, [target] + (rest + after), known, depth);
    AssignsByWord(before, word);
    assert ItemTail(item) + (more + after) == rest + after;
    ItemUpdates(before + [first], KindOf(word), item, more + after, known);
    AssigningStep(a, before + [first], item.name, rest + after, known, now, depth);
    ScansOn(a, before, [first], [target], rest + after, known, known, now, depth);
    AssignsNothing(before, word, item.name);
    assert before + [first] + [target] == before + ([first] + [target]);
    FreeRun(a, before + ([first] + [target]), rest, after, now, depth);
    ScansOn(a, before, [first] + [target], rest, after, known, now, now, depth);
  }

  lemma ItemIsNeutral(item: Item)
    requires Unreserved(item.value)
    ensures AllNeutral(ItemTail(item))
  {
    ExpressionIsNeutral(item.value);
  }

  lemma {:induction false} ItemsAreNeutral(items: seq<Item>)
    requires forall item :: item in items ==> Unreserved(item.value)
    ensures AllNeutral(MoreItems(items)) && (items != [] ==> MoreItems(items)[0] == Sym(','))
  {
    if items != [] {
      ItemIsNeutral(items[0]);
      ItemsAreNeutral(items[1..]);
    }
  }

  lemma SetScans(a: Alphabet, before: seq<Token>, item: Item, ended: bool, after: seq<Token>, known: Known, depth: nat)
    requires depth <= MAX_DYNAMIC_DEPTH && !Declaring(before) && Begins(after) && Complete(Set(item, ended))
    ensures var tokens := StatementTokens(Set(item, ended));
            Scans(a, before, tokens + after, known, depth)
              == Scans(a, before + tokens, after, AssignItem(item, known), depth)
  {
    ItemIsNeutral(item);
    assert AllNeutral(ItemTail(item) + End(ended));
    AssignmentScans(a, before, SET, item, End(ended), after, known, depth);
  }

  lemma SelectScans(a: Alphabet, before: seq<Token>, items: seq<Item>, ended: bool, after: seq<Token>, known: Known,
                    depth: nat)
    requires depth <= MAX_DYNAMIC_DEPTH && !Declaring(before) && Begins(after) && Complete(Select(items, ended))
    ensures var tokens := StatementTokens(Select(items, ended));
            Scans(a, before, tokens + after, known, depth)
              == Scans(a, before + tokens, after, AssignItem(items[0], known), depth)
  {
    var more := MoreItems(items[1..]) + End(ended);
    assert items[0] in items;
    ItemIsNeutral(items[0]);
    ItemsAreNeutral(items[1..]);
    assert AllNeutral(ItemTail(items[0]) + more);
    assert Assigned(more + after, BySelect, 0, false) == [] by {
      assert items[1..] != [] ==> (more + after)[0] == Sym(',');
      assert items[1..] == [] ==> more + after == End(ended) + after;
    }
    AssignmentScans(a, before, SELECT, items[0], more, after, known, depth);
  }

  // ---------------------------------------------------------------- DECLARE

  lemma {:induction false} EqualsInSize(xs: seq<Token>, rest: seq<Token>)
    requires forall token :: token in xs ==> SizePart(token)
    ensures EqualsIn(xs + ([Sym(')')] + rest), 1) == Later(EqualsIn(rest, 0), |xs| + 1)
  {
    if xs == [] {
      assert xs + ([Sym(')')] + rest) == [Sym(')')] + rest;
      EqualsStep(Sym(')'), rest, 1);
    } else {
      assert xs[0] in xs;
      assert xs + ([Sym(')')] + rest) == [xs[0]] + (xs[1..] + ([Sym(')')] + rest));
      EqualsInSize(xs[1..], rest);
      EqualsStep(xs[0], xs[1..] + ([Sym(')')] + rest), 1);
    }
  }

  lemma EqualsBehindType(variable: Declared, rest: seq<Token>)
    requires WellTyped(variable)
    ensures EqualsIn(TypeTokens(variable) + rest, 0) == Later(EqualsIn(rest, 0), |TypeTokens(variable)|)
  {
    var word := Token(Word, variable.type_);
    if variable.size.None? {
      assert TypeTokens(variable) + rest == [word] + rest;
      EqualsStep(word, rest, 0);
    } else {
      var size := variable.size.value;
      var more := size + ([Sym(')')] + rest);
      assert TypeTokens(variable) + rest == [word] + ([Sym('(')] + more);
      EqualsStep(word, [Sym('(')] + more, 0);
      EqualsStep(Sym('('), more, 0);
      EqualsInSize(size, rest);
    }
  }

  /** What ends an item of a DECLARE. */
  predicate EndsItem(rest: seq<Token>) { rest != [] && (IsSymbol(rest[0], ',') || IsSymbol(rest[0], ';')) }

  lemma DeclaredUpdates(before: seq<Token>, variable: Declared, rest: seq<Token>, known: Known)
    requires AssignmentAt(before) == Some(ByDeclare) && WellTyped(variable) && EndsItem(rest)
    ensures Updated(before, Token(Variable, variable.name), DeclaredTail(variable) + rest, known)
            == DeclareOne(variable, known)
  {
    if variable.value.Some? {
      InitialiserIsFound(variable, variable.value.value, rest);
      InitialValue(variable.value.value, rest, known);
    } else {
      assert DeclaredTail(variable) + rest == TypeTokens(variable) + rest;
      EqualsBehindType(variable, rest);
    }
  }

  lemma InitialValue(e: Expression, rest: seq<Token>, known: Known)
    requires EndsItem(rest) && Assignable(e, true)
    ensures Concatenation(Assigned(TokensOf(e) + rest, ByDeclare, 0, true), known) == Value(e, known)
  {
    AssignedExpression(e, rest, ByDeclare, 0, true);
    assert TokensOf(e) + [] == TokensOf(e);
    ExpressionHasItsValue(e, known);
  }

  lemma InitialiserIsFound(variable: Declared, e: Expression, rest: seq<Token>)
    requires WellTyped(variable) && variable.value == Some(e)
    ensures var all, n := DeclaredTail(variable) + rest, |TypeTokens(variable)|;
            && EqualsIn(all, 0) == Some(n) && 0 < n < |all| && all[n + 1..] == TokensOf(e) + rest
            && !IsSymbol(all[n - 1], '+')
  {
    var n, more := |TypeTokens(variable)|, [Sym('=')] + (TokensOf(e) + rest);
    var all := TypeTokens(variable) + more;
    assert DeclaredTail(variable) + rest == all;
    EqualsBehindType(variable, more);
    TypeEndsPlainly(variable);
    assert all[n - 1] == TypeTokens(variable)[n - 1];
  }

  lemma TypeEndsPlainly(variable: Declared)
    ensures TypeTokens(variable) != [] && !IsSymbol(TypeTokens(variable)[|TypeTokens(variable)| - 1], '+')
  {
  }

  /** Inside a DECLARE, where a variable may come. */
  lemma {:induction false} StillDeclaring(before: seq<Token>, xs: seq<Token>)
    requires Declaring(before) && AllNeutral(xs) && forall token :: token in xs ==> !IsSymbol(token, ';')
    ensures Declaring(before + xs)
  {
    if xs == [] {
      assert before + xs == before;
    } else {
      var front := xs[..|xs| - 1];
      StillDeclaring(before, front);
      assert (before + xs)[..|before + xs| - 1] == before + front;
      assert xs[|xs| - 1] in xs;
    }
  }

  lemma {:induction false} NoSemicolon(e: Expression)
    ensures forall token :: token in TokensOf(e) ==> !IsSymbol(token, ';')
  {
    match e
    case Plus(left, right) =>
      NoSemicolon(left);
      NoSemicolon(right);
    case Group(inner) => NoSemicolon(inner);
    case Computed(_, inner) => NoSemicolon(inner);
    case _ =>
  }

  lemma DeclaredTailIsPlain(variable: Declared)
    requires WellTyped(variable)
    ensures AllNeutral(DeclaredTail(variable))
    ensures forall token :: token in DeclaredTail(variable) ==> !IsSymbol(token, ';')
    ensures forall token :: token in TypeTokens(variable) ==> token.kind != Variable
  {
    if variable.value.Some? {
      NoSemicolon(variable.value.value);
      ExpressionIsNeutral(variable.value.value);
    }
  }

  /** Behind a comma the next variable is declared. */
  lemma NextIsDeclared(before: seq<Token>, variable: Declared)
    requires Declaring(before) && WellTyped(variable)
    ensures AssignmentAt(before + (DeclaredItem(variable) + [Sym(',')])) == Some(ByDeclare)
    ensures Declaring(before + (DeclaredItem(variable) + [Sym(',')]))
  {
    var xs := DeclaredItem(variable) + [Sym(',')];
    DeclaredTailIsPlain(variable);
    assert AllNeutral(xs);
    StillDeclaring(before, xs);
    var all := before + (DeclaredItem(variable) + [Sym(',')]);
    assert all == before + xs;
    assert all[|all| - 1] == Sym(',');
  }

  lemma InitialiserRuns(a: Alphabet, before: seq<Token>, value: Option<Expression>, rest: seq<Token>, known: Known,
                        depth: nat)
    requires depth <= MAX_DYNAMIC_DEPTH && EndsItem(rest) && (value.Some? ==> Unreserved(value.value))
    ensures Scans(a, before, Initialiser(value) + rest, known, depth)
            == Scans(a, before + Initialiser(value), rest, known, depth)
  {
    if value.None? {
      assert Initialiser(value) + rest == rest && before + Initialiser(value) == before;
    } else {
      QuietStep(a, before, Sym('='), TokensOf(value.value) + rest, known, depth);
      ExpressionRuns(a, before + [Sym('=')], value.value, rest, known, depth);
      ScansOn(a, before, [Sym('=')], TokensOf(value.value), rest, known, known, known, depth);
    }
  }

  /** One item of a DECLARE. */
  lemma DeclaredScans(a: Alphabet, before: seq<Token>, variable: Declared, rest: seq<Token>, known: Known, depth: nat)
    requires depth <= MAX_DYNAMIC_DEPTH && AssignmentAt(before) == Some(ByDeclare) && WellTyped(variable)
             && EndsItem(rest)
    ensures var tokens := DeclaredItem(variable);
            Scans(a, before, tokens + rest, known, depth)
              == Scans(a, before + tokens, rest, DeclareOne(variable, known), depth)
  {
    var target, now := [Token(Variable, variable.name)], DeclareOne(variable, known);
    var types, init := TypeTokens(variable), Initialiser(variable.value);
    DeclaredUpdates(before, variable, rest, known);
    AssigningStep(a, before, variable.name, DeclaredTail(variable) + rest, known, now, depth);
    DeclaredTailIsPlain(variable);
    assert forall token :: token in types ==> token in DeclaredTail(variable);
    StillRun(a, before + target, types, init + rest, now, depth);
    InitialiserRuns(a, before + target + types, variable.value, rest, now, depth);
    ScansOn(a, before + target, types, init, rest, now, now, now, depth);
    ScansOn(a, before, target, DeclaredTail(variable), rest, known, now, now, depth);
  }

  lemma {:induction false} DeclarationsScan(a: Alphabet, before: seq<Token>, variables: seq<Declared>,
                                            after: seq<Token>,
                                            known: Known, depth: nat)
    requires depth <= MAX_DYNAMIC_DEPTH && AssignmentAt(before) == Some(ByDeclare) && Declaring(before)
    requires variables != [] && (forall variable :: variable in variables ==> WellTyped(variable))
    requires after != [] && after[0] == Sym(';')
    ensures Scans(a, before, DeclaredTokens(variables) + after, known, depth)
            == Scans(a, before + DeclaredTokens(variables), after, DeclareAll(variables, known), depth)
    decreases |variables|
  {
    var first := variables[0];
    assert first in variables;
    var tokens, now := DeclaredItem(first), DeclareOne(first, known);
    DeclaredSplit(variables);
    if |variables| == 1 {
      DeclaredScans(a, before, first, after, known, depth);
    } else {
      var more := DeclaredTokens(variables[1..]);
      DeclaredAndComma(a, before, first, more + after, known, depth);
      DeclarationsScan(a, before + (tokens + [Sym(',')]), variables[1..], after, now, depth);
      ScansOn(a, before, tokens + [Sym(',')], more, after, known, now, DeclareAll(variables[1..], now), depth);
    }
  }

  lemma DeclaredSplit(variables: seq<Declared>)
    requires variables != []
    ensures |variables| == 1 ==> DeclaredTokens(variables) == DeclaredItem(variables[0]) && variables[1..] == []
    ensures |variables| > 1 ==>
              DeclaredTokens(variables) == DeclaredItem(variables[0]) + [Sym(',')] + DeclaredTokens(variables[1..])
  {
  }

  /** An item of a DECLARE that another one follows. */
  lemma DeclaredAndComma(a: Alphabet, before: seq<Token>, variable: Declared, rest: seq<Token>, known: Known,
                         depth: nat)
    requires depth <= MAX_DYNAMIC_DEPTH && AssignmentAt(before) == Some(ByDeclare) && Declaring(before)
    requires WellTyped(variable)
    ensures var tokens := DeclaredItem(variable) + [Sym(',')];
            && Scans(a, before, tokens + rest, known, depth)
               == Scans(a, before + tokens, rest, DeclareOne(variable, known), depth)
            && AssignmentAt(before + tokens) == Some(ByDeclare) && Declaring(before + tokens)
  {
    var tokens, now := DeclaredItem(variable), DeclareOne(variable, known);
    DeclaredScans(a, before, variable, [Sym(',')] + rest, known, depth);
    QuietStep(a, before + tokens, Sym(','), rest, now, depth);
    ScansOn(a, before, tokens, [Sym(',')], rest, known, now, now, depth);
    NextIsDeclared(before, variable);
    assert before + (DeclaredItem(variable) + [Sym(',')]) == before + (tokens + [Sym(',')]);
  }

  lemma DeclareBegins(before: seq<Token>)
    ensures AssignmentAt(before + [Token(Word, DECLARE)]) == Some(ByDeclare)
            && Declaring(before + [Token(Word, DECLARE)])
  {
    assert (before + [Token(Word, DECLARE)])[|before|] == Token(Word, DECLARE);
  }

  lemma DeclareScans(a: Alphabet, before: seq<Token>, variables: seq<Declared>, after: seq<Token>, known: Known,
                     depth: nat)
    requires depth <= MAX_DYNAMIC_DEPTH && Complete(Declare(variables))
    ensures var tokens := StatementTokens(Declare(variables));
            Scans(a, before, tokens + after, known, depth)
              == Scans(a, before + tokens, after, DeclareAll(variables, known), depth)
  {
    var first, end, now := [Token(Word, DECLARE)], [Sym(';')], DeclareAll(variables, known);
    var items := DeclaredTokens(variables);
    assert items + end + after == items + (end + after);
    QuietStep(a, before, first[0], items + (end + after), known, depth);
    DeclareBegins(before);
    DeclarationsScan(a, before + first, variables, end + after, known, depth);
    QuietStep(a, before + first + items, Sym(';'), after, now, depth);
    ScansOn(a, before + first, items, end, after, known, now, now, depth);
    ScansOn(a, before, first, items + end, after, known, known, now, depth);
  }

  // ---------------------------------------------------------------- EXEC

  /** An EXEC whose words behind it change nothing. */
  lemma ExecutingScans(a: Alphabet, before: seq<Token>, word: string, xs: seq<Token>, after: seq<Token>, known: Known,
                       depth: nat)
    requires depth <= MAX_DYNAMIC_DEPTH && !Declaring(before) && ExecWord(word) && AllNeutral(xs)
    ensures var tokens := [Token(Word, word)] + xs;
            Scans(a, before, tokens + after, known, depth)
              == (FlagsAt(a, Token(Word, word), xs + after, known, depth)
                || Scans(a, before + tokens, after, known, depth))
  {
    var first := Token(Word, word);
    assert [first] + xs + after == [first] + (xs + after) && ([first] + (xs + after))[1..] == xs + after;
    assert (before + [first])[..|before|] == before;
    assert AssignmentAt(before + [first]).None?;
    FreeRun(a, before + [first], xs, after, known, depth);
    assert before + [first] + xs == before + ([first] + xs);
  }

  lemma ExecIsExecuted(text: Expression, rest: seq<Token>)
    ensures ExecutedBy([Sym('(')] + (TokensOf(text) + ([Sym(')')] + rest))) == Some(TokensOf(text))
  {
    var tokens, more := TokensOf(text), [Sym(')')] + rest;
    var target := [Sym('(')] + (tokens + more);
    assert target[1..] == tokens + more;
    assert ClosingIn(more, 1) == Some(0);
    ClosingBehindExpression(text, more, 1);
    ClosingStep(Sym('('), tokens + more, 0);
    assert target[1..|tokens| + 1] == tokens;
  }

  lemma ExecScans(a: Alphabet, before: seq<Token>, word: string, text: Expression, ended: bool, after: seq<Token>,
                  known: Known, depth: nat)
    requires depth <= MAX_DYNAMIC_DEPTH && !Declaring(before) && Complete(Exec(word, text, ended))
    ensures var tokens := StatementTokens(Exec(word, text, ended));
            Scans(a, before, tokens + after, known, depth)
              == (FlagsExpression(a, TokensOf(text), known, depth) || Scans(a, before + tokens, after, known, depth))
  {
    TextIsNeutral(text, ended);
    ExecutingScans(a, before, word, InParentheses(text, ended), after, known, depth);
    TextJoins(text, ended, after);
    ExecIsExecuted(text, End(ended) + after);
  }

  function InParentheses(text: Expression, ended: bool): seq<Token> {
    [Sym('(')] + (TokensOf(text) + ([Sym(')')] + End(ended)))
  }

  lemma TextIsNeutral(text: Expression, ended: bool)
    requires Unreserved(text)
    ensures AllNeutral(InParentheses(text, ended))
  {
    ExpressionIsNeutral(text);
  }

  lemma TextJoins(text: Expression, ended: bool, after: seq<Token>)
    ensures InParentheses(text, ended) + after == [Sym('(')] + (TokensOf(text) + ([Sym(')')] + (End(ended) + after)))
  {
  }

  /** What a dotted name is followed by: no dot with a further name, and no procedure number. */
  predicate EndsName(rest: seq<Token>) {
    |rest| > 1 ==>
      && (IsSymbol(rest[0], '.') ==> rest[1].kind != Word && rest[1].kind != Identifier)
      && (IsSymbol(rest[0], ';') ==> rest[1].kind != Number)
  }

  /** The last part of the name in front, and what follows the name. */
  function NameIn(tokens: seq<Token>): (string, seq<Token>)
    requires tokens != []
  {
    LastName(tokens[0].value, tokens[1..])
  }

  lemma {:induction false} NameIsRead(path: seq<Token>, name: Token, number: Option<string>, rest: seq<Token>)
    requires NamePart(name) && (forall token :: token in path ==> NamePart(token)) && EndsName(rest)
    ensures var tokens := Dotted(path, name) + (Numbered(number) + rest);
            NamePart(tokens[0]) && NameIn(tokens) == (name.value, rest)
    decreases |path|
  {
    var end := Numbered(number) + rest;
    if path == [] {
      assert Dotted(path, name) + end == [name] + end && ([name] + end)[1..] == end;
      NumberIsRead(name.value, number, rest);
    } else {
      assert path[0] in path;
      NameIsRead(path[1..], name, number, rest);
      DotIsPassed(path[0], Dotted(path[1..], name) + end);
      assert Dotted(path, name) + end == [path[0], Sym('.')] + (Dotted(path[1..], name) + end);
    }
  }

  lemma NumberIsRead(name: string, number: Option<string>, rest: seq<Token>)
    requires EndsName(rest)
    ensures LastName(name, Numbered(number) + rest) == (name, rest)
  {
    if number.Some? {
      assert (Numbered(number) + rest)[2..] == rest;
    } else {
      assert Numbered(number) + rest == rest;
    }
  }

  lemma DotIsPassed(part: Token, more: seq<Token>)
    requires more != [] && NamePart(more[0])
    ensures NameIn([part, Sym('.')] + more) == NameIn(more)
  {
    var after := ([part, Sym('.')] + more)[1..];
    assert after == [Sym('.')] + more && after[2..] == more[1..] && after[1] == more[0];
  }

  /** The name of the result variable is passed over. */
  lemma BoundIsSkipped(name: Option<string>, rest: seq<Token>)
    requires name.None? ==> Unassigned(rest) == rest
    ensures Unassigned(Bound(name) + rest) == rest
  {
    if name.Some? {
      assert (Bound(name) + rest)[2..] == rest;
    } else {
      assert Bound(name) + rest == rest;
    }
  }

  function NameAndArguments(called: Module, rest: seq<Token>): seq<Token> {
    Bound(called.result) + (Dotted(called.path, called.name) + (Numbered(called.number) + rest))
  }

  lemma TargetIsFound(called: Module, rest: seq<Token>)
    requires WellNamed(called) && EndsName(rest)
    ensures var target := Dotted(called.path, called.name) + (Numbered(called.number) + rest);
            && Unassigned(NameAndArguments(called, rest)) == target
            && NamePart(target[0]) && NameIn(target) == (called.name.value, rest)
  {
    NameIsRead(called.path, called.name, called.number, rest);
    BoundIsSkipped(called.result, Dotted(called.path, called.name) + (Numbered(called.number) + rest));
  }

  /** The arguments of any other module are not looked at, whatever they are. */
  lemma OtherModulesAreNotRead(a: Alphabet, word: string, called: Module, rest: seq<Token>, known: Known, depth: nat)
    requires depth <= MAX_DYNAMIC_DEPTH && WellNamed(called) && EndsName(rest) && called.name.value != SP_EXECUTESQL
    ensures !FlagsAt(a, Token(Word, word), NameAndArguments(called, rest), known, depth)
  {
    TargetIsFound(called, rest);
  }

  /** Nor is an EXEC of a variable, or of anything else that is neither a name nor in parentheses. */
  lemma NamelessIsNotRead(a: Alphabet, word: string, result: Option<string>, rest: seq<Token>, known: Known, depth: nat)
    requires depth <= MAX_DYNAMIC_DEPTH && rest != [] && (result.Some? || rest[0].kind != Variable || |rest| == 1)
    requires rest[0].kind != Word && rest[0].kind != Identifier && !IsSymbol(rest[0], '(')
    ensures !FlagsAt(a, Token(Word, word), Bound(result) + rest, known, depth)
  {
    BoundIsSkipped(result, rest);
  }

  /** What follows the first argument. */
  predicate EndsFirst(rest: seq<Token>) { rest != [] && (EndsItem(rest) || IsSymbol(rest[0], ')')) }

  lemma FirstArgumentIsRead(argument: Argument, rest: seq<Token>)
    requires EndsFirst(rest)
    ensures FirstArgument(Unassigned(ArgumentTokens(argument) + rest), 0) == TokensOf(argument.value)
  {
    var e := argument.value;
    ExpressionIsUnassigned(e, rest);
    BoundIsSkipped(argument.name, TokensOf(e) + rest);
    assert ArgumentTokens(argument) + rest == Bound(argument.name) + (TokensOf(e) + rest);
    ArgumentOfExpression(e, rest, 0);
    assert TokensOf(e) + [] == TokensOf(e);
  }

  lemma ArgumentsEndName(arguments: seq<Argument>, after: seq<Token>)
    requires Begins(after)
    ensures EndsName(ArgumentList(arguments) + ([Sym(';')] + after))
  {
    var rest := ArgumentList(arguments) + ([Sym(';')] + after);
    if arguments == [] {
      assert rest == [Sym(';')] + after;
    } else {
      FirstOfExpression(arguments[0].value);
      assert rest[0] == ArgumentTokens(arguments[0])[0];
    }
  }

  lemma {:induction false} FirstOfExpression(e: Expression)
    ensures TokensOf(e) != [] && (Operand(TokensOf(e)[0]) || TokensOf(e)[0].kind == Word || TokensOf(e)[0] == Sym('('))
  {
    if e.Plus? {
      FirstOfExpression(e.left);
    }
  }

  lemma SqlIsExecuted(called: Module, after: seq<Token>)
    requires WellNamed(called) && Begins(after) && called.name.value == SP_EXECUTESQL
    ensures ExecutedBy(NameAndArguments(called, ArgumentList(called.arguments) + ([Sym(';')] + after)))
            == Some(if called.arguments == [] then [] else TokensOf(called.arguments[0].value))
  {
    ArgumentsEndName(called.arguments, after);
    TargetIsFound(called, ArgumentList(called.arguments) + ([Sym(';')] + after));
    FirstOfList(called.arguments, after);
  }

  lemma FirstOfList(arguments: seq<Argument>, after: seq<Token>)
    requires Begins(after)
    ensures FirstArgument(Unassigned(ArgumentList(arguments) + ([Sym(';')] + after)), 0)
            == if arguments == [] then [] else TokensOf(arguments[0].value)
  {
    var end := [Sym(';')] + after;
    if arguments == [] {
      assert ArgumentList(arguments) + end == end;
      assert Unassigned(end) == end && FirstArgument(end, 0) == [];
    } else {
      var more := MoreArguments(arguments[1..]) + end;
      assert ArgumentList(arguments) + end == ArgumentTokens(arguments[0]) + more;
      assert arguments[1..] == [] ==> more == end;
      FirstArgumentIsRead(arguments[0], more);
    }
  }

  lemma ArgumentIsNeutral(argument: Argument)
    requires Unreserved(argument.value)
    ensures AllNeutral(ArgumentTokens(argument))
  {
    ExpressionIsNeutral(argument.value);
  }

  lemma {:induction false} ArgumentsAreNeutral(arguments: seq<Argument>)
    requires forall argument :: argument in arguments ==> Unreserved(argument.value)
    ensures AllNeutral(MoreArguments(arguments)) && AllNeutral(ArgumentList(arguments))
    decreases |arguments|
  {
    if arguments != [] {
      assert arguments[0] in arguments;
      ArgumentIsNeutral(arguments[0]);
      ArgumentsAreNeutral(arguments[1..]);
    }
  }

  lemma {:induction false} NameIsNeutral(path: seq<Token>, name: Token)
    requires NamePart(name) && forall token :: token in path ==> NamePart(token)
    ensures AllNeutral(Dotted(path, name))
    decreases |path|
  {
    if path != [] {
      assert path[0] in path;
      NameIsNeutral(path[1..], name);
    }
  }

  lemma ModuleIsNeutral(called: Module)
    requires WellNamed(called)
    ensures AllNeutral(ModuleTokens(called) + [Sym(';')])
  {
    NameIsNeutral(called.path, called.name);
    ArgumentsAreNeutral(called.arguments);
  }

  lemma NothingIsFlagged(a: Alphabet, known: Known, depth: nat)
    requires depth <= MAX_DYNAMIC_DEPTH
    ensures !FlagsExpression(a, [], known, depth)
  {
  }

  lemma CallIsFlagged(a: Alphabet, word: string, called: Module, after: seq<Token>, known: Known, depth: nat)
    requires depth <= MAX_DYNAMIC_DEPTH && Begins(after) && Complete(Call(word, called))
    ensures var executed := Executed(Call(word, called));
            FlagsAt(a, Token(Word, word), NameAndArguments(called, ArgumentList(called.arguments)
              + ([Sym(';')] + after)), known, depth)
            <==> executed.Some? && FlagsExpression(a, TokensOf(executed.value), known, depth)
  {
    if called.name.value == SP_EXECUTESQL {
      SqlIsExecuted(called, after);
      NothingIsFlagged(a, known, depth);
    } else {
      ArgumentsEndName(called.arguments, after);
      OtherModulesAreNotRead(a, word, called, ArgumentList(called.arguments) + ([Sym(';')] + after), known, depth);
    }
  }

  lemma ModuleJoins(called: Module, after: seq<Token>)
    ensures ModuleTokens(called) + [Sym(';')] + after
            == NameAndArguments(called, ArgumentList(called.arguments) + ([Sym(';')] + after))
  {
  }

  lemma CallScans(a: Alphabet, before: seq<Token>, word: string, called: Module, after: seq<Token>, known: Known,
                  depth: nat)
    requires depth <= MAX_DYNAMIC_DEPTH && !Declaring(before) && Begins(after) && Complete(Call(word, called))
    ensures var tokens, executed := StatementTokens(Call(word, called)), Executed(Call(word, called));
            Scans(a, before, tokens + after, known, depth)
            <==> (executed.Some? && FlagsExpression(a, TokensOf(executed.value), known, depth))
                 || Scans(a, before + tokens, after, known, depth)
  {
    ModuleIsNeutral(called);
    ExecutingScans(a, before, word, ModuleTokens(called) + [Sym(';')], after, known, depth);
    ModuleJoins(called, after);
    CallIsFlagged(a, word, called, after, known, depth);
  }

  // ---------------------------------------------------------------- any statement

  /** A statement that drops nothing is flagged for the text it executes, or the scan goes on behind
      it with the values that running the statement leaves, as far as the check follows them. */
  lemma StatementScans(a: Alphabet, before: seq<Token>, statement: Statement, after: seq<Token>, known: Known,
                       depth: nat)
    requires !Declaring(before) && Begins(after) && depth <= MAX_DYNAMIC_DEPTH
    requires Complete(statement) && !statement.Drop?
    ensures Scans(a, before, StatementTokens(statement) + after, known, depth)
            <==> (Executed(statement).Some? && FlagsExpression(a, TokensOf(Executed(statement).value), known, depth))
                 || Scans(a, before + StatementTokens(statement), after, Followed(statement, known), depth)
  {
    match statement
    case Set(item, ended) => SetScans(a, before, item, ended, after, known, depth);
    case Select(items, ended) => SelectScans(a, before, items, ended, after, known, depth);
    case Declare(variables) => DeclareScans(a, before, variables, after, known, depth);
    case Exec(word, text, ended) => ExecScans(a, before, word, text, ended, after, known, depth);
    case Call(word, called) => CallScans(a, before, word, called, after, known, depth);
  }

  /** An expression is flagged for its value, or for what is known in front of the first part that is not. */
  lemma ExpressionIsFlaggedExactly(a: Alphabet, e: Expression, known: Known, depth: nat)
    requires depth <= MAX_DYNAMIC_DEPTH
    ensures FlagsExpression(a, TokensOf(e), known, depth)
            <==> (Value(e, known).Some? && FlagsText(a, Value(e, known).value, depth))
                 || FlagsText(a, Front(e, known).0, depth)
  {
    ExpressionHasItsValue(e, known);
    PrefixIsFront(e, known);
  }
}
