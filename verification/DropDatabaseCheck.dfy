/** The check as it runs: loops over the token list, and recursion into executed text. */
module DropDatabaseCheck {
  import opened Wrappers
  import opened SqlTokenizer
  import opened DropDatabasePolicy

  function Shifted(offset: Option<nat>, start: nat): Option<nat> {
    if offset.Some? then Some(start + offset.value) else None
  }

  lemma EqualsFrom(tokens: seq<Token>, index: nat, depth: nat)
    requires index < |tokens|
    ensures Shifted(EqualsIn(tokens[index..], depth), index)
            == (if depth == 0 && IsSymbol(tokens[index], '=') then Some(index)
                else if depth == 0 && (IsSymbol(tokens[index], ',') || IsSymbol(tokens[index], ';')) then None
                else Shifted(EqualsIn(tokens[index + 1..], Nested(depth, tokens[index])), index + 1))
  {
    assert tokens[index..][1..] == tokens[index + 1..];
  }

  method FindAssignmentEquals(tokens: seq<Token>, start: nat) returns (found: Option<nat>)
    requires start <= |tokens|
    ensures found == Shifted(EqualsIn(tokens[start..], 0), start)
  {
    var depth: nat, index := 0, start;
    while index < |tokens|
      invariant start <= index <= |tokens|
      invariant Shifted(EqualsIn(tokens[start..], 0), start) == Shifted(EqualsIn(tokens[index..], depth), index)
    {
      var token := tokens[index];
      EqualsFrom(tokens, index, depth);
      if depth == 0 && IsSymbol(token, '=') {
        return Some(index);
      }
      if depth == 0 && (IsSymbol(token, ',') || IsSymbol(token, ';')) {
        return None;
      }
      depth := Nested(depth, token);
      index := index + 1;
    }
    return None;
  }

  /** One more token of the expression that starts at `start`. */
  lemma AssignedFrom(tokens: seq<Token>, start: nat, index: nat, kind: Assignment, depth: nat)
    requires start <= index < |tokens| && !EndsAssigned(tokens[index], kind, depth, index == start)
    ensures tokens[start..index] + Assigned(tokens[index..], kind, depth, index == start)
            == tokens[start..index + 1] + Assigned(tokens[index + 1..], kind, Nested(depth, tokens[index]), false)
  {
    assert tokens[index..][1..] == tokens[index + 1..];
  }

  method AssignmentExpression(tokens: seq<Token>, start: nat, kind: Assignment) returns (expression: seq<Token>)
    requires start <= |tokens|
    ensures expression == Assigned(tokens[start..], kind, 0, true)
  {
    var depth: nat, end := 0, start;
    while end < |tokens| && !EndsAssigned(tokens[end], kind, depth, end == start)
      invariant start <= end <= |tokens|
      invariant tokens[start..end] + Assigned(tokens[end..], kind, depth, end == start)
                == Assigned(tokens[start..], kind, 0, true)
    {
      AssignedFrom(tokens, start, end, kind, depth);
      depth := Nested(depth, tokens[end]);
      end := end + 1;
    }
    expression := tokens[start..end];
  }

  function Prepended(text: string, rest: Option<string>): Option<string> {
    if rest.Some? then Some(text + rest.value) else None
  }

  lemma NothingPrepended(rest: Option<string>)
    ensures Prepended([], rest) == rest
  {
    if rest.Some? {
      assert [] + rest.value == rest.value;
    }
  }

  lemma JoinedFrom(tokens: seq<Token>, index: nat, known: Known, text: string)
    requires index < |tokens|
    ensures Prepended(text, Joined(tokens[index..], known))
            == (match PieceOf(tokens[index], known)
                case Text(more) => Prepended(text + more, Joined(tokens[index + 1..], known))
                case Glue => Prepended(text, Joined(tokens[index + 1..], known))
                case Unknown => None)
  {
    var rest := Joined(tokens[index + 1..], known);
    assert tokens[index..][1..] == tokens[index + 1..];
    if PieceOf(tokens[index], known).Text? && rest.Some? {
      assert text + (PieceOf(tokens[index], known).text + rest.value)
             == text + PieceOf(tokens[index], known).text + rest.value;
    }
  }

  lemma ValuedFrom(tokens: seq<Token>, index: nat)
    requires index < |tokens|
    ensures Valued(tokens[..index + 1]) <==>
              Valued(tokens[..index]) || tokens[index].kind in {Literal, Quoted, Variable}
  {
    var front, more := tokens[..index], tokens[..index + 1];
    assert more[index] == tokens[index];
    assert forall k :: 0 <= k < index ==> more[k] == front[k];
  }

  method LiteralConcatenation(tokens: seq<Token>, known: Known) returns (value: Option<string>)
    ensures value == Concatenation(tokens, known)
  {
    var text: string, some, i := [], false, 0;
    assert tokens[0..] == tokens;
    NothingPrepended(Joined(tokens, known));
    while i < |tokens|
      invariant 0 <= i <= |tokens| && (some <==> Valued(tokens[..i]))
      invariant Joined(tokens, known) == Prepended(text, Joined(tokens[i..], known))
    {
      JoinedFrom(tokens, i, known, text);
      ValuedFrom(tokens, i);
      match PieceOf(tokens[i], known) {
        case Text(more) => text, some := text + more, true;
        case Glue =>
        case Unknown => return None;
      }
      i := i + 1;
    }
    assert tokens[..i] == tokens && tokens[i..] == [] && text + [] == text;
    value := if some then Some(text) else None;
  }

  method LiteralPrefix(tokens: seq<Token>, known: Known) returns (prefix: string)
    ensures prefix == KnownPrefix(tokens, known)
  {
    prefix := [];
    var i := 0;
    while i < |tokens| && !PieceOf(tokens[i], known).Unknown?
      invariant 0 <= i <= |tokens|
      invariant prefix + KnownPrefix(tokens[i..], known) == KnownPrefix(tokens, known)
    {
      assert tokens[i..][1..] == tokens[i + 1..];
      if PieceOf(tokens[i], known).Text? {
        prefix := prefix + PieceOf(tokens[i], known).text;
      }
      i := i + 1;
    }
  }

  /** Looks back to the start of the statement. */
  method OpensDeclaration(tokens: seq<Token>, index: nat) returns (declares: bool)
    requires index <= |tokens|
    ensures declares == Declaring(tokens[..index])
  {
    var start := index;
    while start > 0
      invariant 0 <= start <= index && Declaring(tokens[..start]) == Declaring(tokens[..index])
    {
      assert tokens[..start][..start - 1] == tokens[..start - 1];
      if IsSymbol(tokens[start - 1], ';') {
        return false;
      }
      if IsWord(tokens[start - 1], DECLARE) {
        return true;
      }
      start := start - 1;
    }
    return false;
  }

  method AssignmentKind(tokens: seq<Token>, index: nat) returns (kind: Option<Assignment>)
    requires index < |tokens|
    ensures kind == AssignmentAt(tokens[..index])
  {
    if index > 0 && IsWord(tokens[index - 1], SET) {
      return Some(BySet);
    }
    if index > 0 && IsWord(tokens[index - 1], SELECT) {
      return Some(BySelect);
    }
    var declares := OpensDeclaration(tokens, index);
    kind := if declares then Some(ByDeclare) else None;
  }

  /** The assignment, once its equals sign is found. */
  method Reassign(tokens: seq<Token>, index: nat, equals: nat, kind: Assignment, known: Known) returns (updated: Known)
    requires index < equals < |tokens|
    ensures updated == Reassigned(kind, tokens[index].value, tokens[index + 1..], equals - index - 1, known)
  {
    var append := equals > index + 1 && IsSymbol(tokens[equals - 1], '+');
    var expression := AssignmentExpression(tokens, equals + 1, kind);
    var value := LiteralConcatenation(expression, known);
    assert tokens[index + 1..][equals - index..] == tokens[equals + 1..];
    if append && value.Some? {
      var previous := ValueOf(known, tokens[index].value);
      value := if previous.Some? then Some(previous.value + value.value) else None;
    }
    updated := known[tokens[index].value := value];
  }

  method UpdateKnownVariable(tokens: seq<Token>, index: nat, known: Known) returns (updated: Known)
    requires index < |tokens|
    ensures updated == Updated(tokens[..index], tokens[index], tokens[index + 1..], known)
  {
    if tokens[index].kind != Variable {
      return known;
    }
    var kind := AssignmentKind(tokens, index);
    if kind == None {
      return known;
    }
    var equals := FindAssignmentEquals(tokens, index + 1);
    if equals == None {
      return known;
    }
    updated := Reassign(tokens, index, equals.value, kind.value, known);
  }

  lemma ClosingFrom(tokens: seq<Token>, index: nat, depth: int)
    requires index < |tokens|
    ensures Shifted(ClosingIn(tokens[index..], depth), index)
            == if IsSymbol(tokens[index], ')') && depth == 1 then Some(index)
               else Shifted(ClosingIn(tokens[index + 1..], Opened(depth, tokens[index])), index + 1)
  {
    assert tokens[index..][1..] == tokens[index + 1..];
  }

  method MatchingClosingParenthesis(tokens: seq<Token>, open: nat) returns (found: Option<nat>)
    requires open <= |tokens|
    ensures found == Shifted(ClosingIn(tokens[open..], 0), open)
  {
    var depth, index := 0, open;
    while index < |tokens|
      invariant open <= index <= |tokens|
      invariant Shifted(ClosingIn(tokens[open..], 0), open) == Shifted(ClosingIn(tokens[index..], depth), index)
    {
      ClosingFrom(tokens, index, depth);
      if IsSymbol(tokens[index], '(') {
        depth := depth + 1;
      } else if IsSymbol(tokens[index], ')') {
        depth := depth - 1;
        if depth == 0 {
          return Some(index);
        }
      }
      index := index + 1;
    }
    return None;
  }

  /** `start` follows the first part of the name. */
  method QualifiedName(tokens: seq<Token>, first: string, start: nat) returns (name: string, index: nat)
    requires start <= |tokens|
    ensures index <= |tokens| && LastName(first, tokens[start..]) == (name, tokens[index..])
  {
    name, index := first, start;
    while index + 1 < |tokens| && IsSymbol(tokens[index], '.') && Named(tokens[index + 1])
      invariant start <= index <= |tokens| && LastName(name, tokens[index..]) == LastName(first, tokens[start..])
    {
      assert tokens[index..][2..] == tokens[index + 2..];
      name := tokens[index + 1].value;
      index := index + 2;
    }
    if index + 1 < |tokens| && IsSymbol(tokens[index], ';') && tokens[index + 1].kind == Number {
      assert tokens[index..][2..] == tokens[index + 2..];
      index := index + 2;
    }
  }

  /** One more token of the argument that starts at the cursor. */
  lemma ArgumentFrom(tokens: seq<Token>, cursor: nat, index: nat, depth: nat)
    requires cursor <= index < |tokens|
    ensures tokens[cursor..index] + FirstArgument(tokens[index..], depth)
            == if EndsArgument(tokens[index], depth) then tokens[cursor..index]
               else tokens[cursor..index + 1] + FirstArgument(tokens[index + 1..], Nested(depth, tokens[index]))
  {
    assert tokens[index..][1..] == tokens[index + 1..];
  }

  method FirstArgumentExpression(tokens: seq<Token>, start: nat) returns (expression: seq<Token>)
    requires start <= |tokens|
    ensures expression == FirstArgument(Unassigned(tokens[start..]), 0)
  {
    var cursor := start;
    if cursor + 1 < |tokens| && tokens[cursor].kind == Variable && IsSymbol(tokens[cursor + 1], '=') {
      assert tokens[cursor..][2..] == tokens[cursor + 2..];
      cursor := cursor + 2;
    }
    expression := ArgumentAt(tokens, cursor);
  }

  method ArgumentAt(tokens: seq<Token>, cursor: nat) returns (expression: seq<Token>)
    requires cursor <= |tokens|
    ensures expression == FirstArgument(tokens[cursor..], 0)
  {
    var depth: nat, end := 0, cursor;
    while end < |tokens|
      invariant cursor <= end <= |tokens|
      invariant tokens[cursor..end] + FirstArgument(tokens[end..], depth) == FirstArgument(tokens[cursor..], 0)
    {
      ArgumentFrom(tokens, cursor, end, depth);
      if EndsArgument(tokens[end], depth) {
        return tokens[cursor..end];
      }
      depth := Nested(depth, tokens[end]);
      end := end + 1;
    }
    expression := tokens[cursor..end];
  }

  method ExecutedExpression(tokens: seq<Token>, index: nat) returns (expression: Option<seq<Token>>)
    requires index < |tokens|
    ensures expression == ExecutedBy(tokens[index + 1..])
  {
    var cursor := index + 1;
    if cursor + 1 < |tokens| && tokens[cursor].kind == Variable && IsSymbol(tokens[cursor + 1], '=') {
      assert tokens[cursor..][2..] == tokens[cursor + 2..];
      cursor := cursor + 2;
    }
    assert Unassigned(tokens[index + 1..]) == tokens[cursor..];
    if cursor >= |tokens| {
      return None;
    }
    if IsSymbol(tokens[cursor], '(') {
      var close := MatchingClosingParenthesis(tokens, cursor);
      assert close.Some? ==>
               close.value > cursor && tokens[cursor + 1..close.value] == tokens[cursor..][1..close.value - cursor];
      return if close.Some? then Some(tokens[cursor + 1..close.value]) else None;
    }
    if !Named(tokens[cursor]) {
      return None;
    }
    assert tokens[cursor..][1..] == tokens[cursor + 1..];
    var name, end := QualifiedName(tokens, tokens[cursor].value, cursor + 1);
    if name != SP_EXECUTESQL || end >= |tokens| {
      return None;
    }
    var argument := FirstArgumentExpression(tokens, end);
    return Some(argument);
  }

  method ContainsDropDatabaseWords(tokens: seq<Token>) returns (found: bool)
    ensures found == NamesDropDatabase(tokens)
  {
    var i := 0;
    while i + 1 < |tokens|
      invariant 0 <= i && (i < |tokens| || i == 0)
      invariant forall k :: 0 <= k < i && k < |tokens| - 1 ==>
                  !(IsWord(tokens[k], DROP) && IsWord(tokens[k + 1], DATABASE))
    {
      if IsWord(tokens[i], DROP) && IsWord(tokens[i + 1], DATABASE) {
        return true;
      }
      i := i + 1;
    }
    return false;
  }

  /** The text of a candidate, when there is one, is checked one level deeper. */
  method CandidateIsFlagged(a: Alphabet, text: string, depth: nat) returns (flagged: bool)
    requires depth <= MAX_DYNAMIC_DEPTH
    ensures flagged == FlagsText(a, text, depth)
    decreases MAX_DYNAMIC_DEPTH + 1 - depth, 0
  {
    if text == [] {
      return false;
    }
    var tokens := TokenizeSql(a, text);
    flagged := ContainsDropDatabase(a, tokens, depth + 1);
  }

  /** The text that an EXEC runs, as far as it is known. */
  method ExecutionIsFlagged(a: Alphabet, tokens: seq<Token>, index: nat, known: Known, depth: nat)
        returns (flagged: bool)
    requires index < |tokens| && depth <= MAX_DYNAMIC_DEPTH
    ensures flagged == FlagsAt(a, tokens[index], tokens[index + 1..], known, depth)
    decreases MAX_DYNAMIC_DEPTH + 1 - depth, 1, 0
  {
    flagged := false;
    if Executes(tokens[index]) {
      var expression := ExecutedExpression(tokens, index);
      if expression.Some? {
        var dynamic := LiteralConcatenation(expression.value, known);
        var prefix := LiteralPrefix(expression.value, known);
        if dynamic.Some? {
          flagged := CandidateIsFlagged(a, dynamic.value, depth);
        }
        if !flagged {
          flagged := CandidateIsFlagged(a, prefix, depth);
        }
      }
    }
  }

  lemma ScansFrom(a: Alphabet, tokens: seq<Token>, index: nat, known: Known, depth: nat)
    requires index < |tokens| && depth <= MAX_DYNAMIC_DEPTH
    ensures var now := Updated(tokens[..index], tokens[index], tokens[index + 1..], known);
            Scans(a, tokens[..index], tokens[index..], known, depth)
            == (FlagsAt(a, tokens[index], tokens[index + 1..], now, depth)
                || Scans(a, tokens[..index + 1], tokens[index + 1..], now, depth))
  {
    assert tokens[index..][1..] == tokens[index + 1..];
    assert tokens[..index + 1] == tokens[..index] + [tokens[index]];
  }

  method ContainsDropDatabase(a: Alphabet, tokens: seq<Token>, depth: nat) returns (found: bool)
    ensures found == Flags(a, tokens, depth)
    decreases MAX_DYNAMIC_DEPTH + 1 - depth, 2
  {
    if depth > MAX_DYNAMIC_DEPTH {
      return false;
    }
    found := ContainsDropDatabaseWords(tokens);
    if found {
      return true;
    }
    found := ScanStatements(a, tokens, depth);
  }

  method ScanStatements(a: Alphabet, tokens: seq<Token>, depth: nat) returns (found: bool)
    requires depth <= MAX_DYNAMIC_DEPTH
    ensures found == Scans(a, [], tokens, map[], depth)
    decreases MAX_DYNAMIC_DEPTH + 1 - depth, 1, 1
  {
    var known: Known, index := map[], 0;
    assert tokens[..0] == [] && tokens[0..] == tokens;
    while index < |tokens|
      invariant 0 <= index <= |tokens|
      invariant Scans(a, tokens[..index], tokens[index..], known, depth) == Scans(a, [], tokens, map[], depth)
    {
      ScansFrom(a, tokens, index, known, depth);
      known := UpdateKnownVariable(tokens, index, known);
      found := ExecutionIsFlagged(a, tokens, index, known, depth);
      if found {
        return true;
      }
      index := index + 1;
    }
    return false;
  }

  /** validate_sql: what the admin policy accepts. */
  method ValidateSql(a: Alphabet, sql: string) returns (accepted: bool)
    ensures accepted == !Flags(a, Tokens(a, sql), 0)
  {
    var tokens := TokenizeSql(a, sql);
    var found := ContainsDropDatabase(a, tokens, 0);
    accepted := !found;
  }
}
