/** The admin policy's tokenizer, and the printers it must read back. */
module SqlTokenizer {
  import opened Wrappers
  import opened SqlLexis

  /** The character classes of the host language; upper-casing may lengthen a text. */
  datatype Alphabet = Alphabet(space: char -> bool, alpha: char -> bool, digit: char -> bool, alnum: char -> bool,
    upper: char -> string)

  datatype Kind = Literal | Quoted | Identifier | Variable | Number | Word | Symbol

  datatype Token = Token(kind: Kind, value: string)

  function Upper(a: Alphabet, s: string): string {
    if s == [] then [] else a.upper(s[0]) + Upper(a, s[1..])
  }

  predicate InWord(a: Alphabet, c: char) { a.alnum(c) || c == '_' || c == '#' || c == '$' }

  predicate InVariable(a: Alphabet, c: char) { InWord(a, c) || c == '@' }

  predicate StartsWord(a: Alphabet, c: char) { a.alpha(c) || c == '_' || c == '#' || c == '$' }

  /** The number of leading characters that belong to the class. */
  function Run(class_: char -> bool, s: string): (n: nat)
    ensures n <= |s|
  {
    if s == [] || !class_(s[0]) then 0 else 1 + Run(class_, s[1..])
  }

  datatype Lexed = Lexed(token: Option<Token>, rest: string)

  function Delimited(kind: Kind, q: char, s: string): Lexed {
    Lexed(Some(Token(kind, Read(q, s).content)), Read(q, s).rest)
  }

  /** A token whose characters after the first are a run of the class. */
  function Spelled(a: Alphabet, kind: Kind, class_: char -> bool, s: string): (lexed: Lexed)
    requires s != []
    ensures |lexed.rest| < |s|
  {
    var n := 1 + Run(class_, s[1..]);
    Lexed(Some(Token(kind, if kind == Number then s[..n] else Upper(a, s[..n]))), s[n..])
  }

  /** A lexeme without delimiters. */
  function Bare(a: Alphabet, s: string): (lexed: Lexed)
    requires s != []
    ensures |lexed.rest| < |s|
  {
    if s[0] == '@' then Spelled(a, Variable, c => InVariable(a, c), s)
    else if a.digit(s[0]) then Spelled(a, Number, a.digit, s)
    else if StartsWord(a, s[0]) then Spelled(a, Word, c => InWord(a, c), s)
    else Lexed(Some(Token(Symbol, [s[0]])), s[1..])
  }

  /** The first lexeme of a text: a token, or trivia. */
  function Lexeme(a: Alphabet, s: string): (lexed: Lexed)
    requires s != []
    ensures |lexed.rest| < |s|
  {
    if a.space(s[0]) then Lexed(None, s[1..])
    else if Starts(s, '-', '-') then Lexed(None, SkipLine(s[2..]))
    else if Starts(s, '/', '*') then Lexed(None, SkipBlock(s[2..], 1).rest)
    else if Starts(s, 'N', '\'') || Starts(s, 'n', '\'') then Delimited(Literal, '\'', s[2..])
    else if s[0] == '\'' then Delimited(Literal, '\'', s[1..])
    else if s[0] == '"' then Delimited(Quoted, '"', s[1..])
    else if s[0] == '[' then
      var name := Read(']', s[1..]);
      Lexed(Some(Token(Identifier, Upper(a, name.content))), name.rest)
    else Bare(a, s)
  }

  function Listed(token: Option<Token>): seq<Token> { if token.Some? then [token.value] else [] }

  function Tokens(a: Alphabet, s: string): seq<Token>
    decreases |s|
  {
    if s == [] then [] else Listed(Lexeme(a, s).token) + Tokens(a, Lexeme(a, s).rest)
  }

  // ---------------------------------------------------------------- the scanner

  method SkipRun(class_: char -> bool, sql: string, start: nat) returns (index: nat)
    requires start <= |sql|
    ensures index == start + Run(class_, sql[start..])
  {
    index := start;
    while index < |sql| && class_(sql[index])
      invariant start <= index <= |sql| && index + Run(class_, sql[index..]) == start + Run(class_, sql[start..])
    {
      assert sql[index..][1..] == sql[index + 1..];
      index := index + 1;
    }
  }

  method ReadSpelled(a: Alphabet, kind: Kind, class_: char -> bool, sql: string, start: nat)
        returns (token: Token, index: nat)
    requires start < |sql|
    ensures start < index <= |sql| && Spelled(a, kind, class_, sql[start..]) == Lexed(Some(token), sql[index..])
  {
    var s := sql[start..];
    assert s[1..] == sql[start + 1..];
    index := SkipRun(class_, sql, start + 1);
    assert s[..index - start] == sql[start..index] && s[index - start..] == sql[index..];
    token := Token(kind, if kind == Number then sql[start..index] else Upper(a, sql[start..index]));
  }

  method ReadBare(a: Alphabet, sql: string, start: nat) returns (token: Token, index: nat)
    requires start < |sql|
    ensures start < index <= |sql| && Bare(a, sql[start..]) == Lexed(Some(token), sql[index..])
  {
    var c := sql[start];
    if c == '@' {
      token, index := ReadSpelled(a, Variable, c => InVariable(a, c), sql, start);
    } else if a.digit(c) {
      token, index := ReadSpelled(a, Number, a.digit, sql, start);
    } else if StartsWord(a, c) {
      token, index := ReadSpelled(a, Word, c => InWord(a, c), sql, start);
    } else {
      token, index := Token(Symbol, [c]), start + 1;
    }
  }

  /** One turn of the scanner's loop. */
  method ReadLexeme(a: Alphabet, sql: string, start: nat) returns (token: Option<Token>, index: nat)
    requires start < |sql|
    ensures start < index <= |sql| && Lexeme(a, sql[start..]) == Lexed(token, sql[index..])
  {
    var c, s := sql[start], sql[start..];
    assert s[1..] == sql[start + 1..];
    token := None;
    var value: string;
    if a.space(c) {
      index := start + 1;
    } else if Starts(s, '-', '-') {
      assert s[2..] == sql[start + 2..];
      index := SkipLineComment(sql, start + 2);
    } else if Starts(s, '/', '*') {
      assert s[2..] == sql[start + 2..];
      index := SkipBlockComment(sql, start + 2);
    } else if (c == 'N' || c == 'n') && start + 1 < |sql| && sql[start + 1] == '\'' {
      assert s[2..] == sql[start + 2..];
      value, index := ReadDelimited(sql, start + 2, '\'');
      token := Some(Token(Literal, value));
    } else if c == '\'' || c == '"' {
      value, index := ReadDelimited(sql, start + 1, c);
      token := Some(Token(if c == '"' then Quoted else Literal, value));
    } else if c == '[' {
      value, index := ReadDelimited(sql, start + 1, ']');
      token := Some(Token(Identifier, Upper(a, value)));
    } else {
      var bare: Token;
      bare, index := ReadBare(a, sql, start);
      token := Some(bare);
    }
  }

  lemma Spliced(front: seq<Token>, token: Option<Token>, more: seq<Token>)
    ensures front + (Listed(token) + more) == (if token.Some? then front + [token.value] else front) + more
  {
  }

  /** One turn of the scanner's loop, with the tokens it has found before. */
  lemma TokensFrom(a: Alphabet, front: seq<Token>, s: string, token: Option<Token>, rest: string)
    requires s != [] && Lexeme(a, s) == Lexed(token, rest)
    ensures front + Tokens(a, s) == (if token.Some? then front + [token.value] else front) + Tokens(a, rest)
  {
    var all, more := Tokens(a, s), Tokens(a, rest);
    assert all == Listed(token) + more;
    Spliced(front, token, more);
  }

  lemma TokensAtEnds(a: Alphabet, front: seq<Token>, s: string)
    ensures [] + Tokens(a, s) == Tokens(a, s) && s[0..] == s && front + Tokens(a, s[|s|..]) == front
  {
  }

  method TokenizeSql(a: Alphabet, sql: string) returns (tokens: seq<Token>)
    ensures tokens == Tokens(a, sql)
  {
    tokens := [];
    var index := 0;
    ghost var whole := Tokens(a, sql);
    TokensAtEnds(a, [], sql);
    while index < |sql|
      invariant 0 <= index <= |sql| && tokens + Tokens(a, sql[index..]) == whole
    {
      var token, next := ReadLexeme(a, sql, index);
      TokensFrom(a, tokens, sql[index..], token, sql[next..]);
      if token.Some? {
        tokens := tokens + [token.value];
      }
      index := next;
    }
    TokensAtEnds(a, tokens, sql);
  }

  // ---------------------------------------------------------------- printers

  /** quote_identifier */
  function Bracketed(name: string): string { ['['] + Doubled(']', name) + [']'] }

  /** A national string literal. */
  function NationalLiteral(text: string): string { ['N', '\''] + Doubled('\'', text) + ['\''] }

  function PlainLiteral(text: string): string { ['\''] + Doubled('\'', text) + ['\''] }

  /** What names may contain besides letters and digits. */
  predicate Marks(c: char) { c == '_' || c == '#' || c == '$' }

  /** What the proofs need of the host's character classes; all of it holds of Unicode. */
  ghost predicate Standard(a: Alphabet) {
    && (forall c :: 'A' <= c <= 'Z' ==> a.alpha(c) && a.upper(c) == [c])
    && a.alpha('n') && (forall c :: a.alpha(c) || a.digit(c) ==> a.alnum(c))
    && (forall c :: a.alpha(c) || Marks(c) ==> !a.digit(c))
    && (forall c :: a.space(c) ==> !a.alnum(c) && !Marks(c) && c != '@')
    && (forall c :: c in {' ', '\r', '\n'} ==> a.space(c))
    && forall c :: c in PUNCTUATION ==> !a.space(c) && !a.alnum(c)
  }

  const PUNCTUATION: set<char> := {'\'', '"', '[', ']', '@', '-', '/', '*', '(', ')', '=', '+', ';', '.', ','}

  predicate Apart(q: char, rest: string) { rest == [] || rest[0] != q }

  lemma TokensStep(a: Alphabet, s: string, token: Token, rest: string)
    requires s != [] && Lexeme(a, s) == Lexed(Some(token), rest)
    ensures Tokens(a, s) == [token] + Tokens(a, rest)
  {
  }

  lemma OpenedBracket(a: Alphabet, body: string)
    requires Standard(a)
    ensures Lexeme(a, ['['] + body)
            == Lexed(Some(Token(Identifier, Upper(a, Read(']', body).content))), Read(']', body).rest)
  {
    assert '[' in PUNCTUATION;
    assert (['['] + body)[1..] == body;
  }

  /** What the opening of a literal leads to. */
  lemma OpenedLexeme(a: Alphabet, body: string)
    requires Standard(a)
    ensures Lexeme(a, ['\''] + body) == Delimited(Literal, '\'', body)
    ensures Lexeme(a, ['N', '\''] + body) == Delimited(Literal, '\'', body)
    ensures Lexeme(a, ['n', '\''] + body) == Delimited(Literal, '\'', body)
  {
    assert '\'' in PUNCTUATION && a.alpha('N') && a.alpha('n');
    assert (['\''] + body)[1..] == body && (['N', '\''] + body)[2..] == body;
    assert (['n', '\''] + body)[2..] == body;
  }

  lemma BracketedLexeme(a: Alphabet, name: string, rest: string)
    requires Standard(a) && Apart(']', rest)
    ensures Lexeme(a, Bracketed(name) + rest) == Lexed(Some(Token(Identifier, Upper(a, name))), rest)
  {
    OpenedBracket(a, Doubled(']', name) + [']'] + rest);
    BracketedForm(name, rest);
  }

  lemma BracketedForm(name: string, rest: string)
    requires Apart(']', rest)
    ensures Bracketed(name) + rest == ['['] + (Doubled(']', name) + [']'] + rest)
    ensures Read(']', Doubled(']', name) + [']'] + rest) == Reading(name, rest, true)
  {
    ReadDoubled(']', name, rest);
  }

  /** An identifier in brackets is read back as one token, upper-cased, whatever it contains. */
  lemma BracketedReadsBack(a: Alphabet, name: string, rest: string)
    requires Standard(a) && Apart(']', rest)
    ensures Tokens(a, Bracketed(name) + rest) == [Token(Identifier, Upper(a, name))] + Tokens(a, rest)
    ensures Read(']', Doubled(']', name) + [']'] + rest) == Reading(name, rest, true)
  {
    BracketedLexeme(a, name, rest);
    TokensStep(a, Bracketed(name) + rest, Token(Identifier, Upper(a, name)), rest);
    ReadDoubled(']', name, rest);
  }

  lemma DelimitedLiteral(text: string, rest: string)
    requires Apart('\'', rest)
    ensures Delimited(Literal, '\'', Doubled('\'', text) + ['\''] + rest) == Lexed(Some(Token(Literal, text)), rest)
  {
    ReadDoubled('\'', text, rest);
  }

  lemma LiteralForms(text: string, rest: string)
    ensures NationalLiteral(text) + rest == ['N', '\''] + (Doubled('\'', text) + ['\''] + rest)
    ensures PlainLiteral(text) + rest == ['\''] + (Doubled('\'', text) + ['\''] + rest)
    ensures ['n'] + PlainLiteral(text) + rest == ['n', '\''] + (Doubled('\'', text) + ['\''] + rest)
  {
  }

  lemma LiteralLexeme(a: Alphabet, text: string, rest: string)
    requires Standard(a) && Apart('\'', rest)
    ensures Lexeme(a, NationalLiteral(text) + rest) == Lexed(Some(Token(Literal, text)), rest)
    ensures Lexeme(a, PlainLiteral(text) + rest) == Lexed(Some(Token(Literal, text)), rest)
    ensures Lexeme(a, ['n'] + PlainLiteral(text) + rest) == Lexed(Some(Token(Literal, text)), rest)
  {
    OpenedLexeme(a, Doubled('\'', text) + ['\''] + rest);
    DelimitedLiteral(text, rest);
    LiteralForms(text, rest);
  }

  /** A national literal is read back as exactly the text it was printed from. */
  lemma LiteralReadsBack(a: Alphabet, text: string, rest: string)
    requires Standard(a) && Apart('\'', rest)
    ensures Tokens(a, NationalLiteral(text) + rest) == [Token(Literal, text)] + Tokens(a, rest)
    ensures Read('\'', Doubled('\'', text) + ['\''] + rest) == Reading(text, rest, true)
  {
    LiteralLexeme(a, text, rest);
    TokensStep(a, NationalLiteral(text) + rest, Token(Literal, text), rest);
    ReadDoubled('\'', text, rest);
  }

  // ---------------------------------------------------------------- trivia

  /** White space, closed block comments (nested or not) and ended line comments, in any order. */
  predicate Gap(a: Alphabet, s: string)
    decreases |s|
  {
    || s == []
    || (a.space(s[0]) && Gap(a, s[1..]))
    || (!a.space(s[0]) && Starts(s, '-', '-') && SkipLine(s[2..]) != [] && Gap(a, SkipLine(s[2..])))
    || (!a.space(s[0]) && Starts(s, '/', '*') && SkipBlock(s[2..], 1).depth == 0 && Gap(a, SkipBlock(s[2..], 1).rest))
  }

  lemma SkipLineAppend(s: string, t: string)
    requires SkipLine(s) != []
    ensures SkipLine(s + t) == SkipLine(s) + t
  {
    if s != [] && !EndsLine(s[0]) {
      assert (s + t)[1..] == s[1..] + t;
    }
  }

  /** The first lexeme of a gap is trivia, also when a text follows the gap. */
  lemma GapLexeme(a: Alphabet, gap: string, rest: string)
    requires gap != [] && Gap(a, gap)
    ensures var lexed := Lexeme(a, gap); Gap(a, lexed.rest) && Lexeme(a, gap + rest) == Lexed(None, lexed.rest + rest)
  {
    if a.space(gap[0]) {
      assert (gap + rest)[1..] == gap[1..] + rest;
    } else {
      assert (gap + rest)[2..] == gap[2..] + rest;
      if Starts(gap, '-', '-') {
        SkipLineAppend(gap[2..], rest);
      } else {
        SkipBlockAppend(gap[2..], 1, rest);
      }
    }
  }

  /** A gap in front of a text changes no token. */
  lemma {:induction false} GapVanishes(a: Alphabet, gap: string, rest: string)
    requires Gap(a, gap)
    ensures Tokens(a, gap + rest) == Tokens(a, rest)
    decreases |gap|
  {
    if gap == [] {
      assert gap + rest == rest;
    } else {
      GapLexeme(a, gap, rest);
      GapVanishes(a, Lexeme(a, gap).rest, rest);
    }
  }

  lemma {:induction false} RunStops(class_: char -> bool, s: string, rest: string)
    requires forall c :: c in s ==> class_(c)
    requires rest == [] || !class_(rest[0])
    ensures Run(class_, s + rest) == |s|
  {
    if s == [] {
      assert s + rest == rest;
    } else {
      assert (s + rest)[1..] == s[1..] + rest;
      RunStops(class_, s[1..], rest);
    }
  }

  lemma SpelledReads(a: Alphabet, kind: Kind, class_: char -> bool, s: string, rest: string)
    requires s != [] && (forall c :: c in s[1..] ==> class_(c)) && (rest == [] || !class_(rest[0]))
    ensures Spelled(a, kind, class_, s + rest)
            == Lexed(Some(Token(kind, if kind == Number then s else Upper(a, s))), rest)
  {
    RunStops(class_, s[1..], rest);
    assert (s + rest)[1..] == s[1..] + rest;
    assert (s + rest)[..|s|] == s && (s + rest)[|s|..] == rest;
  }

  predicate NameChar(a: Alphabet, c: char) { a.alnum(c) || Marks(c) }

  /** A spelling of an unquoted word. */
  predicate Spelling(a: Alphabet, s: string) {
    s != [] && (a.alpha(s[0]) || Marks(s[0])) && forall c :: c in s ==> NameChar(a, c)
  }

  predicate EndsWord(a: Alphabet, rest: string) { rest == [] || (!NameChar(a, rest[0]) && rest[0] != '\'') }

  lemma WordIsNoLiteral(a: Alphabet, s: string, rest: string)
    requires Standard(a) && Spelling(a, s) && EndsWord(a, rest)
    ensures !Starts(s + rest, (s + rest)[0], '\'')
  {
    var t := s + rest;
    assert '\'' in PUNCTUATION;
    if |s| > 1 {
      assert t[1] == s[1] && s[1] in s;
    }
  }

  lemma WordReads(a: Alphabet, s: string, rest: string)
    requires Standard(a) && Spelling(a, s) && EndsWord(a, rest)
    ensures Tokens(a, s + rest) == [Token(Word, Upper(a, s))] + Tokens(a, rest)
  {
    forall c | c in s[1..] ensures InWord(a, c) {
      assert c in s;
    }
    SpelledReads(a, Word, c => InWord(a, c), s, rest);
    WordIsNoLiteral(a, s, rest);
    var t := s + rest;
    assert t[0] == s[0] && s[0] !in PUNCTUATION && !a.space(s[0]);
    TokensStep(a, t, Token(Word, Upper(a, s)), rest);
  }

  /** What comes after a word may be set apart by any gap at all. */
  lemma GapEndsWord(a: Alphabet, gap: string, rest: string)
    requires Standard(a) && gap != [] && Gap(a, gap)
    ensures EndsWord(a, gap + rest)
  {
    assert '-' in PUNCTUATION && '/' in PUNCTUATION && '\'' in PUNCTUATION;
    assert (gap + rest)[0] == gap[0];
  }

  lemma WordThenGap(a: Alphabet, word: string, gap: string, rest: string)
    requires Standard(a) && Spelling(a, word) && gap != [] && Gap(a, gap)
    ensures Tokens(a, word + (gap + rest)) == [Token(Word, Upper(a, word))] + Tokens(a, rest)
  {
    var tail := gap + rest;
    GapEndsWord(a, gap, rest);
    WordReads(a, word, tail);
    GapVanishes(a, gap, rest);
  }

  /** Between a word and what follows it, every non-empty gap reads the same. */
  lemma GapsAreInterchangeable(a: Alphabet, word: string, gap: string, other: string, rest: string)
    requires Standard(a) && Spelling(a, word)
    requires gap != [] && Gap(a, gap) && other != [] && Gap(a, other)
    ensures Tokens(a, word + (gap + rest)) == Tokens(a, word + (other + rest))
            == [Token(Word, Upper(a, word))] + Tokens(a, rest)
  {
    WordThenGap(a, word, gap, rest);
    WordThenGap(a, word, other, rest);
  }

  lemma {:induction false} UpperAppends(a: Alphabet, s: string, t: string)
    ensures Upper(a, s + t) == Upper(a, s) + Upper(a, t)
  {
    if s == [] {
      assert s + t == t;
    } else {
      assert (s + t)[1..] == s[1..] + t;
      UpperAppends(a, s[1..], t);
    }
  }

  /** Letter case does not matter: whatever is written with letters that are upper-cased to a word reads as it. */
  lemma {:induction false} LetterCaseIsIgnored(a: Alphabet, text: string, word: string)
    requires |text| == |word| && forall i :: 0 <= i < |text| ==> a.upper(text[i]) == [word[i]]
    ensures Upper(a, text) == word
  {
    if text != [] {
      LetterCaseIsIgnored(a, text[1..], word[1..]);
      assert word == [word[0]] + word[1..];
    }
  }

  // ---------------------------------------------------------------- commented text

  /** The lines of a text; `breaks` are the host's line boundaries, a CR LF pair being one. */
  function Lines(breaks: char -> bool, s: string): seq<string>
    decreases |s|
  {
    if s == [] then []
    else
      var n := Run(c => !breaks(c), s);
      if n == |s| then [s]
      else [s[..n]] + Lines(breaks, s[n + (if Starts(s[n..], '\r', '\n') then 2 else 1)..])
  }

  function CommentLine(line: string): string {
    ['-', '-'] + if line == [] then [] else [' '] + line
  }

  /** The lines joined by line feeds. */
  function Commented(lines: seq<string>): string {
    if lines == [] then []
    else if |lines| == 1 then CommentLine(lines[0])
    else CommentLine(lines[0]) + ['\n'] + Commented(lines[1..])
  }

  function CommentSql(breaks: char -> bool, text: string): string { Commented(Lines(breaks, text)) }

  lemma {:induction false} RunIsInClass(class_: char -> bool, s: string)
    ensures forall c :: c in s[..Run(class_, s)] ==> class_(c)
  {
    if s != [] && class_(s[0]) {
      RunIsInClass(class_, s[1..]);
      var n := Run(class_, s);
      assert s[..n] == [s[0]] + s[1..][..n - 1];
    }
  }

  /** A line and what ends it: CR LF, or one boundary character. */
  datatype Ended = Ended(line: string, end: string)

  function TextOf(lines: seq<Ended>): string {
    if lines == [] then [] else lines[0].line + (lines[0].end + TextOf(lines[1..]))
  }

  predicate Unbroken(breaks: char -> bool, line: string) { forall c :: c in line ==> !breaks(c) }

  predicate EndsLineBy(breaks: char -> bool, end: string, rest: string) {
    || (end == ['\r', '\n'] && breaks('\r'))
    || (|end| == 1 && breaks(end[0]) && !(end[0] == '\r' && rest != [] && rest[0] == '\n'))
  }

  /** Only the last line may go without an end, and then it is not empty. */
  predicate WellEnded(breaks: char -> bool, lines: seq<Ended>) {
    lines == [] ||
    (&& Unbroken(breaks, lines[0].line) && WellEnded(breaks, lines[1..])
     && (EndsLineBy(breaks, lines[0].end, TextOf(lines[1..]))
         || (|lines| == 1 && lines[0].end == [] && lines[0].line != [])))
  }

  lemma FirstLine(breaks: char -> bool, line: string, end: string, rest: string)
    requires Unbroken(breaks, line) && EndsLineBy(breaks, end, rest)
    ensures Lines(breaks, line + (end + rest)) == [line] + Lines(breaks, rest)
  {
    var s := line + (end + rest);
    RunStops(c => !breaks(c), line, end + rest);
    assert s[..|line|] == line && s[|line|..] == end + rest;
    assert s[|line| + |end|..] == rest;
  }

  /** The lines are exactly those between the line boundaries. */
  lemma {:induction false} LinesReadBack(breaks: char -> bool, lines: seq<Ended>)
    requires WellEnded(breaks, lines)
    ensures Lines(breaks, TextOf(lines)) == Bodies(lines)
  {
    if lines != [] {
      LinesReadBack(breaks, lines[1..]);
      if EndsLineBy(breaks, lines[0].end, TextOf(lines[1..])) {
        FirstLine(breaks, lines[0].line, lines[0].end, TextOf(lines[1..]));
      } else {
        LastLine(breaks, lines[0].line);
        assert lines[1..] == [] && TextOf(lines) == lines[0].line;
      }
    }
  }

  function Bodies(lines: seq<Ended>): seq<string> {
    if lines == [] then [] else [lines[0].line] + Bodies(lines[1..])
  }

  lemma LastLine(breaks: char -> bool, line: string)
    requires Unbroken(breaks, line) && line != []
    ensures Lines(breaks, line) == [line]
  {
    RunStops(c => !breaks(c), line, []);
    assert line + [] == line;
  }

  lemma CommentLineIsUnbroken(breaks: char -> bool, line: string)
    requires Unbroken(breaks, line) && !breaks('-') && !breaks(' ')
    ensures Unbroken(breaks, CommentLine(line)) && CommentLine(line) != []
    ensures CommentLine(line) == if line == [] then ['-', '-'] else ['-', '-', ' '] + line
  {
  }

  lemma {:induction false} CommentedLines(breaks: char -> bool, lines: seq<string>)
    requires breaks('\n') && !breaks('-') && !breaks(' ') && forall line :: line in lines ==> Unbroken(breaks, line)
    ensures Lines(breaks, Commented(lines))
            == Behind(lines)
  {
    if lines != [] {
      assert lines[0] in lines;
      var first := CommentLine(lines[0]);
      CommentLineIsUnbroken(breaks, lines[0]);
      assert Behind(lines) == [first] + Behind(lines[1..]);
      if |lines| == 1 {
        LastLine(breaks, first);
        assert Behind(lines[1..]) == [];
      } else {
        CommentedLines(breaks, lines[1..]);
        FirstLine(breaks, first, ['\n'], Commented(lines[1..]));
        CommentedSplits(lines);
      }
    }
  }

  lemma CommentedSplits(lines: seq<string>)
    requires |lines| > 1
    ensures Commented(lines) == CommentLine(lines[0]) + (['\n'] + Commented(lines[1..]))
  {
  }

  /** Each line behind the comment mark. */
  function Behind(lines: seq<string>): seq<string> {
    if lines == [] then []
    else [if lines[0] == [] then ['-', '-'] else ['-', '-', ' '] + lines[0]] + Behind(lines[1..])
  }

  lemma {:induction false} BehindAt(lines: seq<string>, i: nat)
    requires i < |lines|
    ensures |Behind(lines)| == |lines|
    ensures Behind(lines)[i] == if lines[i] == [] then ['-', '-'] else ['-', '-', ' '] + lines[i]
  {
    if |lines| > 1 {
      BehindAt(lines[1..], if i == 0 then 0 else i - 1);
    }
  }

  lemma {:induction false} LinesAreUnbroken(breaks: char -> bool, s: string, line: string)
    requires line in Lines(breaks, s)
    ensures Unbroken(breaks, line)
    decreases |s|
  {
    var n := Run(c => !breaks(c), s);
    RunIsInClass(c => !breaks(c), s);
    if n == |s| {
      assert s[..n] == s;
    } else if line != s[..n] {
      LinesAreUnbroken(breaks, s[n + (if Starts(s[n..], '\r', '\n') then 2 else 1)..], line);
    }
  }

  /** Commenting out keeps the text: it has the same lines, each behind the comment mark. */
  lemma CommentsKeepTheText(breaks: char -> bool, text: string)
    requires breaks('\n') && !breaks('-') && !breaks(' ')
    ensures var lines, commented := Lines(breaks, text), Lines(breaks, CommentSql(breaks, text));
            && |commented| == |lines|
            && forall i :: 0 <= i < |lines| ==>
                 commented[i] == if lines[i] == [] then ['-', '-'] else ['-', '-', ' '] + lines[i]
  {
    forall line | line in Lines(breaks, text) ensures Unbroken(breaks, line) {
      LinesAreUnbroken(breaks, text, line);
    }
    CommentedLines(breaks, Lines(breaks, text));
    forall i | 0 <= i < |Lines(breaks, text)|
      ensures |Behind(Lines(breaks, text))| == |Lines(breaks, text)|
              && Behind(Lines(breaks, text))[i]
                 == if Lines(breaks, text)[i] == [] then ['-', '-'] else ['-', '-', ' '] + Lines(breaks, text)[i] {
      BehindAt(Lines(breaks, text), i);
    }
  }

  predicate OneLine(line: string) { forall c :: c in line ==> !EndsLine(c) }

  lemma LinesHoldNoBreak(breaks: char -> bool, s: string, line: string)
    requires breaks('\r') && breaks('\n') && line in Lines(breaks, s)
    ensures OneLine(line)
  {
    LinesAreUnbroken(breaks, s, line);
  }

  lemma TriviaStep(a: Alphabet, s: string, rest: string)
    requires s != [] && Lexeme(a, s) == Lexed(None, rest)
    ensures Tokens(a, s) == Tokens(a, rest)
  {
  }

  lemma CommentLexeme(a: Alphabet, body: string, rest: string)
    requires Standard(a) && OneLine(body) && (rest == [] || EndsLine(rest[0]))
    ensures Lexeme(a, ['-', '-'] + body + rest) == Lexed(None, rest)
  {
    SkipLineBody(body, rest);
    assert '-' in PUNCTUATION;
    assert (['-', '-'] + body + rest)[2..] == body + rest;
  }

  lemma CommentLineReads(a: Alphabet, line: string, rest: string)
    requires Standard(a) && OneLine(line) && (rest == [] || EndsLine(rest[0]))
    ensures Tokens(a, CommentLine(line) + rest) == Tokens(a, rest)
  {
    var body := if line == [] then [] else [' '] + line;
    CommentLexeme(a, body, rest);
    TriviaStep(a, ['-', '-'] + body + rest, rest);
  }

  lemma FirstCommentReads(a: Alphabet, line: string, rest: string)
    requires Standard(a) && OneLine(line)
    ensures Tokens(a, CommentLine(line) + (['\n'] + rest)) == Tokens(a, rest)
  {
    CommentLineReads(a, line, ['\n'] + rest);
    LineFeedReads(a, rest);
  }

  lemma {:induction false} CommentedReads(a: Alphabet, lines: seq<string>)
    requires Standard(a) && forall line :: line in lines ==> OneLine(line)
    ensures Tokens(a, Commented(lines)) == []
  {
    if |lines| == 1 {
      CommentLineReads(a, lines[0], []);
      assert CommentLine(lines[0]) + [] == CommentLine(lines[0]);
    } else if |lines| > 1 {
      CommentedReads(a, lines[1..]);
      FirstCommentReads(a, lines[0], Commented(lines[1..]));
      CommentedSplits(lines);
    }
  }

  lemma LineFeedReads(a: Alphabet, rest: string)
    requires Standard(a)
    ensures Tokens(a, ['\n'] + rest) == Tokens(a, rest)
  {
    assert a.space('\n') && (['\n'] + rest)[1..] == rest;
    TriviaStep(a, ['\n'] + rest, rest);
  }

  /** Commented-out text has no tokens: nothing in it can ever be run. */
  lemma CommentsAreInert(a: Alphabet, breaks: char -> bool, text: string)
    requires Standard(a) && breaks('\r') && breaks('\n')
    ensures Tokens(a, CommentSql(breaks, text)) == []
  {
    forall line | line in Lines(breaks, text) ensures OneLine(line) {
      LinesHoldNoBreak(breaks, text, line);
    }
    CommentedReads(a, Lines(breaks, text));
  }
}
