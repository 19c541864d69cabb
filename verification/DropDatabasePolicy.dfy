/** The admin policy's check for DROP DATABASE, with constant propagation through T-SQL variables
    and recursion into dynamic SQL. The specification works on the tokens around a position. */
module DropDatabasePolicy {
  import opened Wrappers
  import opened SqlTokenizer

  const MAX_DYNAMIC_DEPTH: nat := 8

  const DROP: string := ['D', 'R', 'O', 'P']
  const DATABASE: string := ['D', 'A', 'T', 'A', 'B', 'A', 'S', 'E']
  const SET: string := ['S', 'E', 'T']
  const SELECT: string := ['S', 'E', 'L', 'E', 'C', 'T']
  const DECLARE: string := ['D', 'E', 'C', 'L', 'A', 'R', 'E']
  const FROM: string := ['F', 'R', 'O', 'M']
  const WHERE: string := ['W', 'H', 'E', 'R', 'E']
  const OPTION: string := ['O', 'P', 'T', 'I', 'O', 'N']
  const EXEC: string := ['E', 'X', 'E', 'C']
  const EXECUTE: string := ['E', 'X', 'E', 'C', 'U', 'T', 'E']
  const SP_EXECUTESQL: string := ['S', 'P', '_', 'E', 'X', 'E', 'C', 'U', 'T', 'E', 'S', 'Q', 'L']

  /** The literal values of variables; an assigned variable of unknown value maps to None. */
  type Known = map<string, Option<string>>

  datatype Assignment = BySet | BySelect | ByDeclare

  function ValueOf(known: Known, name: string): Option<string> { if name in known then known[name] else None }

  predicate IsSymbol(token: Token, c: char) { token.kind == Symbol && |token.value| == 1 && token.value[0] == c }

  predicate IsWord(token: Token, word: string) { token == Token(Word, word) }

  // ---------------------------------------------------------------- assignments

  /** The statement before the position holds a DECLARE. */
  predicate Declaring(before: seq<Token>) {
    before != [] &&
    var last := before[|before| - 1];
    !IsSymbol(last, ';') && (IsWord(last, DECLARE) || Declaring(before[..|before| - 1]))
  }

  function AssignmentAt(before: seq<Token>): Option<Assignment> {
    if before != [] && IsWord(before[|before| - 1], SET) then Some(BySet)
    else if before != [] && IsWord(before[|before| - 1], SELECT) then Some(BySelect)
    else if Declaring(before) then Some(ByDeclare)
    else None
  }

  /** max(0, depth - 1) */
  function Less(depth: nat): nat { if depth == 0 then 0 else depth - 1 }

  function Nested(depth: nat, token: Token): nat {
    if IsSymbol(token, '(') then depth + 1 else if IsSymbol(token, ')') then Less(depth) else depth
  }

  /** How far the assignment's equals sign is, unless the item or the statement ends first. */
  function EqualsIn(after: seq<Token>, depth: nat): (offset: Option<nat>)
    ensures offset.Some? ==> offset.value < |after|
  {
    if after == [] then None
    else if depth == 0 && IsSymbol(after[0], '=') then Some(0)
    else if depth == 0 && (IsSymbol(after[0], ',') || IsSymbol(after[0], ';')) then None
    else
      var rest := EqualsIn(after[1..], Nested(depth, after[0]));
      if rest.None? then None else Some(rest.value + 1)
  }

  predicate EndsAssigned(token: Token, kind: Assignment, depth: nat, first: bool) {
    depth == 0 &&
    (if token.kind == Symbol
     then IsSymbol(token, ';') || (kind != BySet && IsSymbol(token, ','))
     else token.kind == Word && (!first || (kind == BySelect && token.value in {FROM, WHERE, OPTION})))
  }

  /** The expression assigned, as far as it may be one of literals. */
  function Assigned(after: seq<Token>, kind: Assignment, depth: nat, first: bool): seq<Token> {
    if after == [] || EndsAssigned(after[0], kind, depth, first) then []
    else [after[0]] + Assigned(after[1..], kind, Nested(depth, after[0]), false)
  }

  // ---------------------------------------------------------------- values

  datatype Piece = Text(text: string) | Glue | Unknown

  function PieceOf(token: Token, known: Known): Piece {
    match token.kind
    case Literal => Text(token.value)
    case Quoted => Text(token.value)
    case Variable => if ValueOf(known, token.value).Some? then Text(ValueOf(known, token.value).value) else Unknown
    case Symbol => if token.value in {['+'], ['('], [')']} then Glue else Unknown
    case _ => Unknown
  }

  function Joined(tokens: seq<Token>, known: Known): Option<string> {
    if tokens == [] then Some([])
    else
      var rest := Joined(tokens[1..], known);
      match PieceOf(tokens[0], known)
      case Text(text) => if rest.Some? then Some(text + rest.value) else None
      case Glue => rest
      case Unknown => None
  }

  predicate Valued(tokens: seq<Token>) {
    exists i :: 0 <= i < |tokens| && tokens[i].kind in {Literal, Quoted, Variable}
  }

  /** The value of a concatenation of which every part is known. */
  function Concatenation(tokens: seq<Token>, known: Known): Option<string> {
    if Valued(tokens) then Joined(tokens, known) else None
  }

  /** The known text in front of the first part that is not known. */
  function KnownPrefix(tokens: seq<Token>, known: Known): string {
    if tokens == [] then []
    else match PieceOf(tokens[0], known)
      case Text(text) => text + KnownPrefix(tokens[1..], known)
      case Glue => KnownPrefix(tokens[1..], known)
      case Unknown => []
  }

  function Appended(previous: Option<string>, value: string): Option<string> {
    if previous.Some? then Some(previous.value + value) else None
  }

  function AssignedValue(known: Known, name: string, append: bool, value: Option<string>): Option<string> {
    if append && value.Some? then Appended(ValueOf(known, name), value.value) else value
  }

  /** The value of an assignment whose equals sign is found, and what the variable then holds. */
  function Reassigned(kind: Assignment, name: string, after: seq<Token>, offset: nat, known: Known): Known
    requires offset < |after|
  {
    var append := offset > 0 && IsSymbol(after[offset - 1], '+');
    var value := Concatenation(Assigned(after[offset + 1..], kind, 0, true), known);
    known[name := AssignedValue(known, name, append, value)]
  }

  /** What the token between `before` and `after` changes of the known values. */
  function Updated(before: seq<Token>, token: Token, after: seq<Token>, known: Known): Known {
    var kind, equals := AssignmentAt(before), EqualsIn(after, 0);
    if token.kind != Variable || kind.None? || equals.None? then known
    else Reassigned(kind.value, token.value, after, equals.value, known)
  }

  // ---------------------------------------------------------------- executed text

  function Opened(depth: int, token: Token): int {
    if IsSymbol(token, '(') then depth + 1 else if IsSymbol(token, ')') then depth - 1 else depth
  }

  /** Where the parenthesis that is open `depth` times closes. */
  function ClosingIn(tokens: seq<Token>, depth: int): (offset: Option<nat>)
    ensures offset.Some? ==> offset.value < |tokens|
  {
    if tokens == [] then None
    else if IsSymbol(tokens[0], ')') && depth == 1 then Some(0)
    else
      var rest := ClosingIn(tokens[1..], Opened(depth, tokens[0]));
      if rest.None? then None else Some(rest.value + 1)
  }

  predicate Named(token: Token) { token.kind == Word || token.kind == Identifier }

  /** The last part of a dotted name, and what follows the name. */
  function LastName(name: string, after: seq<Token>): (string, seq<Token>)
    decreases |after|
  {
    if |after| > 1 && IsSymbol(after[0], '.') && Named(after[1]) then LastName(after[1].value, after[2..])
    else (name, if |after| > 1 && IsSymbol(after[0], ';') && after[1].kind == Number then after[2..] else after)
  }

  /** A leading `@name =` of a return value or a parameter. */
  function Unassigned(tokens: seq<Token>): seq<Token> {
    if |tokens| > 1 && tokens[0].kind == Variable && IsSymbol(tokens[1], '=') then tokens[2..] else tokens
  }

  predicate EndsArgument(token: Token, depth: nat) {
    depth == 0 && (IsSymbol(token, ')') || IsSymbol(token, ',') || IsSymbol(token, ';'))
  }

  function FirstArgument(tokens: seq<Token>, depth: nat): seq<Token> {
    if tokens == [] || EndsArgument(tokens[0], depth) then []
    else [tokens[0]] + FirstArgument(tokens[1..], Nested(depth, tokens[0]))
  }

  /** The text an EXEC runs, when it runs text: its parentheses, or sp_executesql's first argument. */
  function ExecutedBy(after: seq<Token>): Option<seq<Token>> {
    var target := Unassigned(after);
    if target == [] then None
    else if IsSymbol(target[0], '(') then
      var closing := ClosingIn(target, 0);
      if closing.Some? && closing.value > 0 then Some(target[1..closing.value]) else None
    else if !Named(target[0]) then None
    else
      var (name, arguments) := LastName(target[0].value, target[1..]);
      if name != SP_EXECUTESQL || arguments == [] then None else Some(FirstArgument(Unassigned(arguments), 0))
  }

  // ---------------------------------------------------------------- the check

  predicate Executes(token: Token) { IsWord(token, EXEC) || IsWord(token, EXECUTE) }

  predicate NamesDropDatabase(tokens: seq<Token>) {
    exists i :: 0 <= i < |tokens| - 1 && IsWord(tokens[i], DROP) && IsWord(tokens[i + 1], DATABASE)
  }

  predicate Flags(a: Alphabet, tokens: seq<Token>, depth: nat)
    decreases MAX_DYNAMIC_DEPTH + 1 - depth, |tokens| + 4
  {
    depth <= MAX_DYNAMIC_DEPTH && (NamesDropDatabase(tokens) || Scans(a, [], tokens, map[], depth))
  }

  /** The dynamic text is looked at only when it is not empty. */
  predicate FlagsText(a: Alphabet, text: string, depth: nat)
    requires depth <= MAX_DYNAMIC_DEPTH
    decreases MAX_DYNAMIC_DEPTH + 1 - depth, 0
  {
    text != [] && Flags(a, Tokens(a, text), depth + 1)
  }

  predicate FlagsExpression(a: Alphabet, expression: seq<Token>, known: Known, depth: nat)
    requires depth <= MAX_DYNAMIC_DEPTH
    decreases MAX_DYNAMIC_DEPTH + 1 - depth, 1
  {
    || (Concatenation(expression, known).Some? && FlagsText(a, Concatenation(expression, known).value, depth))
    || FlagsText(a, KnownPrefix(expression, known), depth)
  }

  predicate FlagsAt(a: Alphabet, token: Token, after: seq<Token>, known: Known, depth: nat)
    requires depth <= MAX_DYNAMIC_DEPTH
    decreases MAX_DYNAMIC_DEPTH + 1 - depth, 2
  {
    Executes(token) && ExecutedBy(after).Some? && FlagsExpression(a, ExecutedBy(after).value, known, depth)
  }

  /** The scan of the tokens that are left, behind the ones that were passed. */
  predicate Scans(a: Alphabet, before: seq<Token>, after: seq<Token>, known: Known, depth: nat)
    requires depth <= MAX_DYNAMIC_DEPTH
    decreases MAX_DYNAMIC_DEPTH + 1 - depth, 3 + |after|
  {
    after != [] &&
    var now := Updated(before, after[0], after[1..], known);
    FlagsAt(a, after[0], after[1..], now, depth) || Scans(a, before + [after[0]], after[1..], now, depth)
  }
}
