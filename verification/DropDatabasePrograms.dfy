/** Straight-line T-SQL that builds and executes text: its statements, what running them does, and
    the tokens they are written in. */
module DropDatabasePrograms {
  import opened Wrappers
  import opened SqlTokenizer
  import opened SqlLayout
  import opened DropDatabasePolicy

  /** Variables are named as the tokenizer names them; a text in double quotes is a literal too. The
      value of a function call is not a constant. */
  datatype Expression =
    | Lit(text: string, double: bool)
    | Var(name: string)
    | Plus(left: Expression, right: Expression)
    | Group(inner: Expression)
    | Computed(name: string, inner: Expression)

  /** @name = value, or @name += value. */
  datatype Item = Item(name: string, append: bool, value: Expression)

  /** @name type(size) = value; a variable may go without a value. */
  datatype Declared = Declared(name: string, type_: string, size: Option<seq<Token>>, value: Option<Expression>)

  /** value, or @name = value. */
  datatype Argument = Argument(name: Option<string>, value: Expression)

  /** EXEC @result = path.name;number arguments */
  datatype Module = Module(result: Option<string>, path: seq<Token>, name: Token, number: Option<string>,
    arguments: seq<Argument>)

  /** Only DECLARE and a call must end in a semicolon. */
  datatype Statement =
    | Set(item: Item, ended: bool)
    | Select(items: seq<Item>, ended: bool)
    | Declare(variables: seq<Declared>)
    | Exec(word: string, text: Expression, ended: bool)
    | Call(word: string, called: Module)
    | Drop(name: string)

  type Program = seq<Statement>

  predicate ExecWord(word: string) {
    word == ['E', 'X', 'E', 'C'] || word == ['E', 'X', 'E', 'C', 'U', 'T', 'E']
  }

  /** The words that begin or execute something. */
  predicate Reserved(word: string) { ExecWord(word) || word == SET || word == SELECT || word == DECLARE }

  predicate Neutral(token: Token) { token.kind == Word ==> !Reserved(token.value) }

  predicate NamePart(token: Token) { token.kind == Identifier || (token.kind == Word && !Reserved(token.value)) }

  /** Inside the parentheses of a type: words, numbers and commas. */
  predicate SizePart(token: Token) {
    token.kind == Number || (token.kind == Word && !Reserved(token.value)) || IsSymbol(token, ',')
  }

  predicate WellTyped(variable: Declared) {
    && !Reserved(variable.type_) && (variable.value.Some? ==> WellAssigned(variable.value.value))
    && (variable.size.Some? ==> forall token :: token in variable.size.value ==> SizePart(token))
  }

  predicate WellNamed(called: Module) {
    && NamePart(called.name) && (forall token :: token in called.path ==> NamePart(token))
    && forall argument :: argument in called.arguments ==> Unreserved(argument.value)
  }

  /** No function bears a reserved word. */
  predicate Unreserved(e: Expression) {
    match e
    case Plus(left, right) => Unreserved(left) && Unreserved(right)
    case Group(inner) => Unreserved(inner)
    case Computed(name, inner) => !Reserved(name) && Unreserved(inner)
    case _ => true
  }

  /** Outside parentheses only the first part may be a function call: a word ends what is assigned. */
  predicate Assignable(e: Expression, first: bool) {
    match e
    case Plus(left, right) => Assignable(left, first) && Assignable(right, false)
    case Computed(name, _) => first && name !in {FROM, WHERE, OPTION}
    case _ => true
  }

  predicate WellAssigned(e: Expression) { Unreserved(e) && Assignable(e, true) }

  predicate Complete(statement: Statement) {
    match statement
    case Set(item, _) => WellAssigned(item.value)
    case Select(items, _) => items != [] && forall item :: item in items ==> WellAssigned(item.value)
    case Declare(variables) => variables != [] && forall variable :: variable in variables ==> WellTyped(variable)
    case Exec(word, text, _) => ExecWord(word) && Unreserved(text)
    case Call(word, called) => ExecWord(word) && WellNamed(called)
    case Drop(_) => true
  }

  /** What an EXEC runs as text: what is in its parentheses, or the first argument of sp_executesql. */
  function Executed(statement: Statement): Option<Expression> {
    match statement
    case Exec(_, text, _) => Some(text)
    case Call(_, called) =>
      if called.name.value == SP_EXECUTESQL && called.arguments != [] then Some(called.arguments[0].value) else None
    case _ => None
  }

  // ---------------------------------------------------------------- what a program does

  function Held(env: Known, name: string): Option<string> { if name in env then env[name] else None }

  /** Concatenation; a NULL operand makes the result NULL. */
  function Value(e: Expression, env: Known): Option<string> {
    match e
    case Lit(text, _) => Some(text)
    case Var(name) => Held(env, name)
    case Plus(left, right) => Both(Value(left, env), Value(right, env))
    case Group(inner) => Value(inner, env)
    case Computed(_, _) => None
  }

  function Both(left: Option<string>, right: Option<string>): Option<string> {
    if left.Some? && right.Some? then Some(left.value + right.value) else None
  }

  function AssignItem(item: Item, env: Known): Known {
    var value := Value(item.value, env);
    env[item.name := if item.append then Both(Held(env, item.name), value) else value]
  }

  function AssignItems(items: seq<Item>, env: Known): Known {
    if items == [] then env else AssignItems(items[1..], AssignItem(items[0], env))
  }

  function DeclareOne(variable: Declared, env: Known): Known {
    if variable.value.None? then env else env[variable.name := Value(variable.value.value, env)]
  }

  function DeclareAll(variables: seq<Declared>, env: Known): Known {
    if variables == [] then env else DeclareAll(variables[1..], DeclareOne(variables[0], env))
  }

  function Assign(statement: Statement, env: Known): Known {
    match statement
    case Set(item, _) => AssignItem(item, env)
    case Select(items, _) => AssignItems(items, env)
    case Declare(variables) => DeclareAll(variables, env)
    case _ => env
  }

  /** Running the program from the environment reaches a DROP DATABASE within that many nested
      executions. */
  ghost predicate Reaches(a: Alphabet, program: Program, env: Known, nesting: nat)
    decreases nesting, |program| + 1
  {
    program != [] && Complete(program[0]) && OneTarget(program[0]) &&
    (|| program[0].Drop?
     || (exists inner: Program :: ReachesInside(a, program[0], env, nesting, inner))
     || Reaches(a, program[1..], Assign(program[0], env), nesting))
  }

  /** A SELECT assigns one variable. */
  predicate OneTarget(statement: Statement) { statement.Select? ==> |statement.items| == 1 }

  /** The statement executes a text that reaches it, on variables of its own. */
  ghost predicate ReachesInside(a: Alphabet, statement: Statement, env: Known, nesting: nat, inner: Program)
    decreases nesting, 0
  {
    && Executed(statement).Some? && nesting > 0 && Value(Executed(statement).value, env).Some?
    && Spells(a, Value(Executed(statement).value, env).value, ProgramTokens(inner))
    && Reaches(a, inner, map[], nesting - 1)
  }

  // ---------------------------------------------------------------- its tokens

  function Sym(c: char): Token { Token(Symbol, [c]) }

  function TokensOf(e: Expression): seq<Token> {
    match e
    case Lit(text, double) => [Token(if double then Quoted else Literal, text)]
    case Var(name) => [Token(Variable, name)]
    case Plus(left, right) => TokensOf(left) + ([Sym('+')] + TokensOf(right))
    case Group(inner) => [Sym('(')] + (TokensOf(inner) + [Sym(')')])
    case Computed(name, inner) => [Token(Word, name)] + ([Sym('(')] + (TokensOf(inner) + [Sym(')')]))
  }

  function End(ended: bool): seq<Token> { if ended then [Sym(';')] else [] }

  function Sign(append: bool): seq<Token> { if append then [Sym('+'), Sym('=')] else [Sym('=')] }

  /** What follows the variable of an assignment. */
  function ItemTail(item: Item): seq<Token> { Sign(item.append) + TokensOf(item.value) }

  function MoreItems(items: seq<Item>): seq<Token> {
    if items == [] then [] else [Sym(','), Token(Variable, items[0].name)] + ItemTail(items[0]) + MoreItems(items[1..])
  }

  function TypeTokens(variable: Declared): seq<Token> {
    [Token(Word, variable.type_)]
    + if variable.size.None? then [] else [Sym('(')] + (variable.size.value + [Sym(')')])
  }

  function Initialiser(value: Option<Expression>): seq<Token> {
    if value.None? then [] else [Sym('=')] + TokensOf(value.value)
  }

  /** What follows the variable of a declaration. */
  function DeclaredTail(variable: Declared): seq<Token> { TypeTokens(variable) + Initialiser(variable.value) }

  function DeclaredItem(variable: Declared): seq<Token> { [Token(Variable, variable.name)] + DeclaredTail(variable) }

  function DeclaredTokens(variables: seq<Declared>): seq<Token>
    requires variables != []
  {
    DeclaredItem(variables[0]) + if |variables| == 1 then [] else [Sym(',')] + DeclaredTokens(variables[1..])
  }

  /** @name = in front of a module or an argument. */
  function Bound(name: Option<string>): seq<Token> {
    if name.None? then [] else [Token(Variable, name.value), Sym('=')]
  }

  function Dotted(path: seq<Token>, name: Token): seq<Token> {
    if path == [] then [name] else [path[0], Sym('.')] + Dotted(path[1..], name)
  }

  function Numbered(number: Option<string>): seq<Token> {
    if number.None? then [] else [Sym(';'), Token(Number, number.value)]
  }

  function ArgumentTokens(argument: Argument): seq<Token> { Bound(argument.name) + TokensOf(argument.value) }

  function ArgumentList(arguments: seq<Argument>): seq<Token> {
    if arguments == [] then [] else ArgumentTokens(arguments[0]) + MoreArguments(arguments[1..])
  }

  function MoreArguments(arguments: seq<Argument>): seq<Token> {
    if arguments == [] then [] else [Sym(',')] + (ArgumentTokens(arguments[0]) + MoreArguments(arguments[1..]))
  }

  function ModuleTokens(called: Module): seq<Token> {
    Bound(called.result)
      + (Dotted(called.path, called.name) + (Numbered(called.number) + ArgumentList(called.arguments)))
  }

  function StatementTokens(statement: Statement): seq<Token>
    requires Complete(statement)
  {
    match statement
    case Set(item, ended) => [Token(Word, SET)] + [Token(Variable, item.name)] + (ItemTail(item) + End(ended))
    case Select(items, ended) =>
      [Token(Word, SELECT)] + [Token(Variable, items[0].name)]
        + (ItemTail(items[0]) + (MoreItems(items[1..]) + End(ended)))
    case Declare(variables) => [Token(Word, DECLARE)] + (DeclaredTokens(variables) + [Sym(';')])
    case Exec(word, text, ended) => [Token(Word, word)] + ([Sym('(')] + (TokensOf(text) + ([Sym(')')] + End(ended))))
    case Call(word, called) => [Token(Word, word)] + (ModuleTokens(called) + [Sym(';')])
    case Drop(name) => [Token(Word, DROP), Token(Word, DATABASE), Token(Identifier, name), Sym(';')]
  }

  /** Nothing is written for a statement that is not complete. */
  function Printed(statement: Statement): seq<Token> {
    if Complete(statement) then StatementTokens(statement) else []
  }

  function ProgramTokens(program: Program): seq<Token> {
    if program == [] then [] else Printed(program[0]) + ProgramTokens(program[1..])
  }

  // ---------------------------------------------------------------- expressions

  function Later(offset: Option<nat>, n: nat): Option<nat> { if offset.Some? then Some(offset.value + n) else None }

  /** How an expression is read token by token. */
  lemma Unfolded(e: Expression, rest: seq<Token>)
    ensures e.Plus? ==> TokensOf(e) + rest == TokensOf(e.left) + ([Sym('+')] + (TokensOf(e.right) + rest))
    ensures e.Group? ==> TokensOf(e) + rest == [Sym('(')] + (TokensOf(e.inner) + ([Sym(')')] + rest))
    ensures e.Computed? ==>
              TokensOf(e) + rest == [Token(Word, e.name)] + ([Sym('(')] + (TokensOf(e.inner) + ([Sym(')')] + rest)))
    ensures e.Computed? ==> |TokensOf(e)| == |TokensOf(e.inner)| + 3
    ensures e.Lit? || e.Var? ==> |TokensOf(e)| == 1 && TokensOf(e) + rest == [TokensOf(e)[0]] + rest
    ensures e.Plus? ==> |TokensOf(e)| == |TokensOf(e.left)| + 1 + |TokensOf(e.right)|
    ensures e.Group? ==> |TokensOf(e)| == |TokensOf(e.inner)| + 2
  {
  }

  /** The tokens of expressions. */
  predicate Operand(token: Token) { token.kind in {Literal, Quoted, Variable} }

  predicate Bracket(token: Token) { token == Sym('+') || token == Sym('(') || token == Sym(')') }

  lemma JoinedStep(token: Token, rest: seq<Token>, known: Known)
    ensures Bracket(token) ==> Joined([token] + rest, known) == Joined(rest, known)
    ensures token.kind in {Literal, Quoted} ==>
              Joined([token] + rest, known) == Both(Some(token.value), Joined(rest, known))
    ensures token.kind == Variable ==>
              Joined([token] + rest, known) == Both(Held(known, token.value), Joined(rest, known))
    ensures token.kind == Word ==> Joined([token] + rest, known) == None
  {
    assert ([token] + rest)[1..] == rest;
  }

  lemma {:induction false} JoinedExpression(e: Expression, rest: seq<Token>, known: Known)
    ensures Joined(TokensOf(e) + rest, known) == Both(Value(e, known), Joined(rest, known))
  {
    Unfolded(e, rest);
    match e
    case Plus(left, right) =>
      var more := TokensOf(right) + rest;
      JoinedExpression(left, [Sym('+')] + more, known);
      JoinedStep(Sym('+'), more, known);
      JoinedExpression(right, rest, known);
      BothAssociates(Value(left, known), Value(right, known), Joined(rest, known));
    case Group(inner) =>
      var more := [Sym(')')] + rest;
      JoinedStep(Sym('('), TokensOf(inner) + more, known);
      JoinedExpression(inner, more, known);
      JoinedStep(Sym(')'), rest, known);
    case Computed(name, inner) =>
      JoinedStep(Token(Word, name), [Sym('(')] + (TokensOf(inner) + ([Sym(')')] + rest)), known);
    case _ =>
      JoinedStep(TokensOf(e)[0], rest, known);
  }

  lemma BothAssociates(x: Option<string>, y: Option<string>, z: Option<string>)
    ensures Both(Both(x, y), z) == Both(x, Both(y, z))
  {
    if x.Some? && y.Some? && z.Some? {
      assert x.value + y.value + z.value == x.value + (y.value + z.value);
    }
  }

  lemma {:induction false} ExpressionIsValued(e: Expression)
    ensures TokensOf(e) != [] && Valued(TokensOf(e))
  {
    var tokens := TokensOf(e);
    match e
    case Plus(left, _) =>
      ExpressionIsValued(left);
      var i :| 0 <= i < |TokensOf(left)| && TokensOf(left)[i].kind in {Literal, Quoted, Variable};
      assert tokens[i] == TokensOf(left)[i];
    case Group(inner) =>
      ExpressionIsValued(inner);
      var i :| 0 <= i < |TokensOf(inner)| && TokensOf(inner)[i].kind in {Literal, Quoted, Variable};
      assert tokens[i + 1] == TokensOf(inner)[i];
    case Computed(_, inner) =>
      ExpressionIsValued(inner);
      var i :| 0 <= i < |TokensOf(inner)| && TokensOf(inner)[i].kind in {Literal, Quoted, Variable};
      assert tokens[i + 2] == TokensOf(inner)[i];
    case _ =>
      assert tokens[0].kind in {Literal, Quoted, Variable};
  }

  /** The check's value of an expression is the value that running it gives. */
  lemma ExpressionHasItsValue(e: Expression, known: Known)
    ensures Concatenation(TokensOf(e), known) == Value(e, known)
  {
    ExpressionIsValued(e);
    JoinedExpression(e, [], known);
    assert TokensOf(e) + [] == TokensOf(e);
    assert forall text: string :: text + [] == text;
  }

  lemma AssignedStep(token: Token, rest: seq<Token>, kind: Assignment, depth: nat, first: bool)
    requires Bracket(token) || Operand(token)
             || (token.kind == Word && (depth > 0 || (first && token.value !in {FROM, WHERE, OPTION})))
    ensures Assigned([token] + rest, kind, depth, first) == [token] + Assigned(rest, kind, Nested(depth, token), false)
  {
    assert ([token] + rest)[1..] == rest;
  }

  lemma AssignedGroup(inner: seq<Token>, rest: seq<Token>, kind: Assignment, depth: nat, first: bool)
    requires var more := [Sym(')')] + rest;
             Assigned(inner + more, kind, depth + 1, false) == inner + Assigned(more, kind, depth + 1, false)
    ensures Assigned([Sym('(')] + (inner + ([Sym(')')] + rest)), kind, depth, first)
            == [Sym('(')] + (inner + ([Sym(')')] + Assigned(rest, kind, depth, false)))
  {
    AssignedStep(Sym('('), inner + ([Sym(')')] + rest), kind, depth, first);
    AssignedStep(Sym(')'), rest, kind, depth + 1, false);
  }

  lemma {:induction false} AssignedExpression(e: Expression, rest: seq<Token>, kind: Assignment, depth: nat,
                                              first: bool)
    requires depth > 0 || Assignable(e, first)
    ensures Assigned(TokensOf(e) + rest, kind, depth, first) == TokensOf(e) + Assigned(rest, kind, depth, false)
  {
    Unfolded(e, rest);
    Unfolded(e, Assigned(rest, kind, depth, false));
    match e
    case Plus(left, right) =>
      var more := TokensOf(right) + rest;
      AssignedExpression(left, [Sym('+')] + more, kind, depth, first);
      AssignedStep(Sym('+'), more, kind, depth, false);
      AssignedExpression(right, rest, kind, depth, false);
    case Group(inner) =>
      AssignedExpression(inner, [Sym(')')] + rest, kind, depth + 1, false);
      AssignedGroup(TokensOf(inner), rest, kind, depth, first);
    case Computed(name, inner) =>
      AssignedExpression(inner, [Sym(')')] + rest, kind, depth + 1, false);
      AssignedGroup(TokensOf(inner), rest, kind, depth, false);
      AssignedStep(Token(Word, name), [Sym('(')] + (TokensOf(inner) + ([Sym(')')] + rest)), kind, depth, first);
    case _ =>
      AssignedStep(TokensOf(e)[0], rest, kind, depth, first);
  }

  /** The tokens of an expression in front of others. */
  function InFront(e: Expression, rest: seq<Token>): seq<Token> {
    match e
    case Plus(left, right) => InFront(left, [Sym('+')] + InFront(right, rest))
    case Group(inner) => [Sym('(')] + InFront(inner, [Sym(')')] + rest)
    case Computed(name, inner) => [Token(Word, name)] + ([Sym('(')] + InFront(inner, [Sym(')')] + rest))
    case _ => [TokensOf(e)[0]] + rest
  }

  lemma {:induction false} InFrontIsBefore(e: Expression, rest: seq<Token>)
    ensures InFront(e, rest) == TokensOf(e) + rest
  {
    Unfolded(e, rest);
    match e
    case Plus(left, right) =>
      InFrontIsBefore(right, rest);
      InFrontIsBefore(left, [Sym('+')] + InFront(right, rest));
    case Group(inner) => InFrontIsBefore(inner, [Sym(')')] + rest);
    case Computed(_, inner) => InFrontIsBefore(inner, [Sym(')')] + rest);
    case _ =>
  }

  function Length(e: Expression): nat {
    match e
    case Plus(left, right) => Length(left) + 1 + Length(right)
    case Group(inner) => Length(inner) + 2
    case Computed(_, inner) => Length(inner) + 3
    case _ => 1
  }

  lemma {:induction false} LengthOfTokens(e: Expression)
    ensures |TokensOf(e)| == Length(e)
  {
    match e
    case Plus(left, right) =>
      LengthOfTokens(left);
      LengthOfTokens(right);
    case Group(inner) => LengthOfTokens(inner);
    case Computed(_, inner) => LengthOfTokens(inner);
    case _ =>
  }

  lemma EqualsStep(token: Token, rest: seq<Token>, depth: nat)
    requires depth > 0 || token.kind != Symbol || Bracket(token)
    ensures EqualsIn([token] + rest, depth) == Later(EqualsIn(rest, Nested(depth, token)), 1)
  {
    assert ([token] + rest)[1..] == rest;
  }

  function Rise(token: Token): int { if token == Sym('(') then 1 else if token == Sym(')') then -1 else 0 }

  /** The search for the equals sign passes over the first n tokens, which open that many parentheses more. */
  ghost predicate Passes(all: seq<Token>, rest: seq<Token>, n: nat, rise: int) {
    forall depth: nat, after: nat ::
      after == depth + rise ==> EqualsIn(all, depth) == Later(EqualsIn(rest, after), n)
  }

  lemma PassesOne(token: Token, rest: seq<Token>)
    requires Operand(token) || Bracket(token) || token.kind == Word
    ensures Passes([token] + rest, rest, 1, Rise(token))
  {
    forall depth: nat, after: nat | after == depth + Rise(token)
      ensures EqualsIn([token] + rest, depth) == Later(EqualsIn(rest, after), 1) {
      EqualsStep(token, rest, depth);
    }
  }

  lemma PassesOn(all: seq<Token>, middle: seq<Token>, rest: seq<Token>, m: nat, n: nat, up: nat, rise: int)
    requires Passes(all, middle, m, up) && Passes(middle, rest, n, rise)
    ensures Passes(all, rest, m + n, up + rise)
  {
    forall depth: nat, after: nat | after == depth + up + rise
      ensures EqualsIn(all, depth) == Later(EqualsIn(rest, after), m + n) {
      assert EqualsIn(all, depth) == Later(EqualsIn(middle, depth + up), m);
    }
  }

  lemma PassesPlus(all: seq<Token>, last: seq<Token>, rest: seq<Token>, m: nat, n: nat)
    requires Passes(all, [Sym('+')] + last, m, 0) && Passes(last, rest, n, 0)
    ensures Passes(all, rest, m + 1 + n, 0)
  {
    PassesOne(Sym('+'), last);
    PassesOn(all, [Sym('+')] + last, last, m, 1, 0, 0);
    PassesOn(all, last, rest, m + 1, n, 0, 0);
  }

  lemma PassesGroup(inner: seq<Token>, rest: seq<Token>, n: nat)
    requires Passes(inner, [Sym(')')] + rest, n, 0)
    ensures Passes([Sym('(')] + inner, rest, n + 2, 0)
  {
    var all, end := [Sym('(')] + inner, [Sym(')')] + rest;
    PassesOne(Sym('('), inner);
    PassesOne(Sym(')'), rest);
    PassesOn(all, inner, end, 1, n, 1, 0);
    PassesOn(all, end, rest, n + 1, 1, 1, -1);
  }

  lemma PassesCall(name: string, inner: seq<Token>, rest: seq<Token>, n: nat)
    requires Passes(inner, [Sym(')')] + rest, n, 0)
    ensures Passes([Token(Word, name)] + ([Sym('(')] + inner), rest, n + 3, 0)
  {
    PassesGroup(inner, rest, n);
    PassesOne(Token(Word, name), [Sym('(')] + inner);
    PassesOn([Token(Word, name)] + ([Sym('(')] + inner), [Sym('(')] + inner, rest, 1, n + 2, 0, 0);
  }

  lemma {:induction false} PassesExpression(e: Expression, rest: seq<Token>)
    ensures Passes(InFront(e, rest), rest, Length(e), 0)
  {
    match e
    case Plus(left, right) =>
      PassesExpression(left, [Sym('+')] + InFront(right, rest));
      PassesExpression(right, rest);
      PassesPlus(InFront(left, [Sym('+')] + InFront(right, rest)), InFront(right, rest), rest, Length(left),
        Length(right));
    case Group(inner) =>
      PassesExpression(inner, [Sym(')')] + rest);
      PassesGroup(InFront(inner, [Sym(')')] + rest), rest, Length(inner));
    case Computed(name, inner) =>
      PassesExpression(inner, [Sym(')')] + rest);
      PassesCall(name, InFront(inner, [Sym(')')] + rest), rest, Length(inner));
    case _ =>
      PassesOne(TokensOf(e)[0], rest);
  }

  lemma EqualsBehindExpression(e: Expression, rest: seq<Token>, depth: nat)
    ensures EqualsIn(TokensOf(e) + rest, depth) == Later(EqualsIn(rest, depth), |TokensOf(e)|)
  {
    PassesExpression(e, rest);
    InFrontIsBefore(e, rest);
    LengthOfTokens(e);
  }

  lemma ClosingStep(token: Token, rest: seq<Token>, depth: int)
    requires !IsSymbol(token, ')') || depth != 1
    ensures ClosingIn([token] + rest, depth) == Later(ClosingIn(rest, Opened(depth, token)), 1)
  {
    assert ([token] + rest)[1..] == rest;
  }

  /** So does the search for the closing parenthesis, while it is not the one that is looked for. */
  ghost predicate Stays(all: seq<Token>, rest: seq<Token>, n: nat, rise: int) {
    forall depth: nat, after: nat ::
      depth > 0 && after > 0 && after == depth + rise ==> ClosingIn(all, depth) == Later(ClosingIn(rest, after), n)
  }

  lemma StaysOne(token: Token, rest: seq<Token>)
    requires Operand(token) || Bracket(token) || token.kind == Word
    ensures Stays([token] + rest, rest, 1, Rise(token))
  {
    forall depth: nat, after: nat | depth > 0 && after > 0 && after == depth + Rise(token)
      ensures ClosingIn([token] + rest, depth) == Later(ClosingIn(rest, after), 1) {
      ClosingStep(token, rest, depth);
    }
  }

  lemma StaysOn(all: seq<Token>, middle: seq<Token>, rest: seq<Token>, m: nat, n: nat, up: nat, rise: int)
    requires Stays(all, middle, m, up) && Stays(middle, rest, n, rise)
    ensures Stays(all, rest, m + n, up + rise)
  {
    forall depth: nat, after: nat | depth > 0 && after > 0 && after == depth + up + rise
      ensures ClosingIn(all, depth) == Later(ClosingIn(rest, after), m + n) {
      assert ClosingIn(all, depth) == Later(ClosingIn(middle, depth + up), m);
    }
  }

  lemma StaysPlus(all: seq<Token>, last: seq<Token>, rest: seq<Token>, m: nat, n: nat)
    requires Stays(all, [Sym('+')] + last, m, 0) && Stays(last, rest, n, 0)
    ensures Stays(all, rest, m + 1 + n, 0)
  {
    StaysOne(Sym('+'), last);
    StaysOn(all, [Sym('+')] + last, last, m, 1, 0, 0);
    StaysOn(all, last, rest, m + 1, n, 0, 0);
  }

  lemma StaysGroup(inner: seq<Token>, rest: seq<Token>, n: nat)
    requires Stays(inner, [Sym(')')] + rest, n, 0)
    ensures Stays([Sym('(')] + inner, rest, n + 2, 0)
  {
    var all, end := [Sym('(')] + inner, [Sym(')')] + rest;
    StaysOne(Sym('('), inner);
    StaysOne(Sym(')'), rest);
    StaysOn(all, inner, end, 1, n, 1, 0);
    StaysOn(all, end, rest, n + 1, 1, 1, -1);
  }

  lemma StaysCall(name: string, inner: seq<Token>, rest: seq<Token>, n: nat)
    requires Stays(inner, [Sym(')')] + rest, n, 0)
    ensures Stays([Token(Word, name)] + ([Sym('(')] + inner), rest, n + 3, 0)
  {
    StaysGroup(inner, rest, n);
    StaysOne(Token(Word, name), [Sym('(')] + inner);
    StaysOn([Token(Word, name)] + ([Sym('(')] + inner), [Sym('(')] + inner, rest, 1, n + 2, 0, 0);
  }

  lemma {:induction false} StaysExpression(e: Expression, rest: seq<Token>)
    ensures Stays(InFront(e, rest), rest, Length(e), 0)
  {
    match e
    case Plus(left, right) =>
      StaysExpression(left, [Sym('+')] + InFront(right, rest));
      StaysExpression(right, rest);
      StaysPlus(InFront(left, [Sym('+')] + InFront(right, rest)), InFront(right, rest), rest, Length(left),
        Length(right));
    case Group(inner) =>
      StaysExpression(inner, [Sym(')')] + rest);
      StaysGroup(InFront(inner, [Sym(')')] + rest), rest, Length(inner));
    case Computed(name, inner) =>
      StaysExpression(inner, [Sym(')')] + rest);
      StaysCall(name, InFront(inner, [Sym(')')] + rest), rest, Length(inner));
    case _ =>
      StaysOne(TokensOf(e)[0], rest);
  }

  lemma ClosingBehindExpression(e: Expression, rest: seq<Token>, depth: int)
    requires depth > 0
    ensures ClosingIn(TokensOf(e) + rest, depth) == Later(ClosingIn(rest, depth), |TokensOf(e)|)
  {
    StaysExpression(e, rest);
    InFrontIsBefore(e, rest);
    LengthOfTokens(e);
  }

  lemma ArgumentStep(token: Token, rest: seq<Token>, depth: nat)
    requires depth > 0 || token.kind != Symbol || token == Sym('+') || token == Sym('(')
    ensures FirstArgument([token] + rest, depth) == [token] + FirstArgument(rest, Nested(depth, token))
  {
    assert ([token] + rest)[1..] == rest;
  }

  lemma {:induction false} ArgumentOfExpression(e: Expression, rest: seq<Token>, depth: nat)
    ensures FirstArgument(TokensOf(e) + rest, depth) == TokensOf(e) + FirstArgument(rest, depth)
  {
    Unfolded(e, rest);
    Unfolded(e, FirstArgument(rest, depth));
    match e
    case Plus(left, right) =>
      var more := TokensOf(right) + rest;
      ArgumentOfExpression(left, [Sym('+')] + more, depth);
      ArgumentStep(Sym('+'), more, depth);
      ArgumentOfExpression(right, rest, depth);
    case Group(inner) =>
      var more := [Sym(')')] + rest;
      ArgumentStep(Sym('('), TokensOf(inner) + more, depth);
      ArgumentOfExpression(inner, more, depth + 1);
      ArgumentStep(Sym(')'), rest, depth + 1);
    case Computed(name, inner) =>
      var more := [Sym(')')] + rest;
      ArgumentStep(Token(Word, name), [Sym('(')] + (TokensOf(inner) + more), depth);
      ArgumentStep(Sym('('), TokensOf(inner) + more, depth);
      ArgumentOfExpression(inner, more, depth + 1);
      ArgumentStep(Sym(')'), rest, depth + 1);
    case _ =>
      ArgumentStep(TokensOf(e)[0], rest, depth);
  }

  /** An expression that no equals sign follows is no named argument. */
  lemma {:induction false} ExpressionIsUnassigned(e: Expression, rest: seq<Token>)
    requires rest != [] && !IsSymbol(rest[0], '=')
    ensures Unassigned(TokensOf(e) + rest) == TokensOf(e) + rest
  {
    if e.Plus? {
      var more := [Sym('+')] + (TokensOf(e.right) + rest);
      assert TokensOf(e) + rest == TokensOf(e.left) + more;
      ExpressionIsUnassigned(e.left, more);
    }
  }

  lemma {:induction false} ExpressionIsNeutral(e: Expression)
    requires Unreserved(e)
    ensures forall token :: token in TokensOf(e) ==> Neutral(token)
  {
    match e
    case Plus(left, right) =>
      ExpressionIsNeutral(left);
      ExpressionIsNeutral(right);
    case Group(inner) => ExpressionIsNeutral(inner);
    case Computed(_, inner) => ExpressionIsNeutral(inner);
    case _ =>
  }

  // ---------------------------------------------------------------- what is not known

  /** A literal, a plus sign, a parenthesis, or a variable whose value is known. */
  predicate KnownPart(token: Token, known: Known) {
    || token.kind == Literal || token.kind == Quoted || Bracket(token)
    || (token.kind == Variable && Held(known, token.value).Some?)
  }

  lemma {:induction false} JoinedExactly(tokens: seq<Token>, known: Known)
    ensures Joined(tokens, known).Some? <==> forall token :: token in tokens ==> KnownPart(token, known)
  {
    if tokens != [] {
      JoinedExactly(tokens[1..], known);
      assert tokens == [tokens[0]] + tokens[1..];
      JoinedStep(tokens[0], tokens[1..], known);
      PartIsKnown(tokens[0], known);
    }
  }

  lemma PartIsKnown(token: Token, known: Known)
    ensures PieceOf(token, known) != Unknown <==> KnownPart(token, known)
  {
    if token.kind == Symbol && PieceOf(token, known) == Glue {
      assert token.value == ['+'] || token.value == ['('] || token.value == [')'];
    }
  }

  /** Whatever tokens an expression consists of, the check has a value for it exactly when each of them
      is known and one of them is more than a sign or a parenthesis. */
  lemma ValueIsKnownExactly(tokens: seq<Token>, known: Known)
    ensures Concatenation(tokens, known).Some? <==>
              (exists i :: 0 <= i < |tokens| && Operand(tokens[i]))
                && forall token :: token in tokens ==> KnownPart(token, known)
  {
    JoinedExactly(tokens, known);
    assert Valued(tokens) <==> exists i :: 0 <= i < |tokens| && Operand(tokens[i]);
  }

  /** The known text in front of the first part that is not known, and whether there is no such part. */
  function Front(e: Expression, env: Known): (string, bool) {
    match e
    case Lit(text, _) => (text, true)
    case Var(name) => if Held(env, name).Some? then (Held(env, name).value, true) else ([], false)
    case Plus(left, right) =>
      var (text, all) := Front(left, env);
      if all then (text + Front(right, env).0, Front(right, env).1) else (text, false)
    case Group(inner) => Front(inner, env)
    case Computed(_, _) => ([], false)
  }

  lemma PrefixStep(token: Token, rest: seq<Token>, env: Known)
    ensures token.kind == Word ==> KnownPrefix([token] + rest, env) == []
    ensures Bracket(token) ==> KnownPrefix([token] + rest, env) == KnownPrefix(rest, env)
    ensures token.kind in {Literal, Quoted} ==> KnownPrefix([token] + rest, env) == token.value + KnownPrefix(rest, env)
    ensures token.kind == Variable ==>
              KnownPrefix([token] + rest, env) == match Held(env, token.value)
                                                  case None => []
                                                  case Some(value) => value + KnownPrefix(rest, env)
  {
    assert ([token] + rest)[1..] == rest;
  }

  lemma {:induction false} PrefixOfExpression(e: Expression, rest: seq<Token>, env: Known)
    ensures KnownPrefix(TokensOf(e) + rest, env)
            == Front(e, env).0 + if Front(e, env).1 then KnownPrefix(rest, env) else []
  {
    Unfolded(e, rest);
    match e
    case Plus(left, right) =>
      var more := TokensOf(right) + rest;
      PrefixOfExpression(left, [Sym('+')] + more, env);
      PrefixStep(Sym('+'), more, env);
      PrefixOfExpression(right, rest, env);
    case Group(inner) =>
      var more := [Sym(')')] + rest;
      PrefixStep(Sym('('), TokensOf(inner) + more, env);
      PrefixOfExpression(inner, more, env);
      PrefixStep(Sym(')'), rest, env);
    case Computed(name, inner) =>
      PrefixStep(Token(Word, name), [Sym('(')] + (TokensOf(inner) + ([Sym(')')] + rest)), env);
    case _ =>
      PrefixStep(TokensOf(e)[0], rest, env);
  }

  /** The check's prefix of an expression is the text in front of its first unknown part. */
  lemma PrefixIsFront(e: Expression, env: Known)
    ensures KnownPrefix(TokensOf(e), env) == Front(e, env).0
  {
    PrefixOfExpression(e, [], env);
    assert TokensOf(e) + [] == TokensOf(e);
  }
}
