/** Texts laid out from lexemes: any letter case, any literal prefix, any comments and spaces in
    between. The tokenizer reads every such text back as the tokens it was laid out from. */
module SqlLayout {
  import opened Wrappers
  import opened SqlLexis
  import opened SqlTokenizer

  /** A lexeme as it is written. */
  datatype Atom =
    | Keyword(text: string)
    | Quote(text: string, prefix: string)
    | At(text: string)
    | Name(name: string)
    | Double(text: string)
    | Digits(text: string)
    | Mark(mark: char)

  function DoubleQuoted(text: string): string { ['"'] + Doubled('"', text) + ['"'] }

  function Written(atom: Atom): string {
    match atom
    case Keyword(text) => text
    case Quote(text, prefix) => prefix + PlainLiteral(text)
    case At(text) => text
    case Name(name) => Bracketed(name)
    case Double(text) => DoubleQuoted(text)
    case Digits(text) => text
    case Mark(mark) => [mark]
  }

  function Meaning(a: Alphabet, atom: Atom): Token {
    match atom
    case Keyword(text) => Token(Word, Upper(a, text))
    case Quote(text, _) => Token(Literal, text)
    case At(text) => Token(Variable, Upper(a, text))
    case Name(name) => Token(Identifier, Upper(a, name))
    case Double(text) => Token(Quoted, text)
    case Digits(text) => Token(Number, text)
    case Mark(mark) => Token(Symbol, [mark])
  }

  predicate Sensible(a: Alphabet, atom: Atom) {
    match atom
    case Keyword(text) => Spelling(a, text)
    case At(text) => text != [] && text[0] == '@' && forall c :: c in text[1..] ==> NameChar(a, c) || c == '@'
    case Quote(_, prefix) => prefix == [] || prefix == ['N'] || prefix == ['n']
    case Digits(text) => text != [] && forall c :: c in text ==> a.digit(c)
    case Mark(mark) => mark in MARKS
    case _ => true
  }

  const MARKS: set<char> := {'(', ')', '=', '+', ';', '.', ','}

  /** The text that follows does not run on into the lexeme. */
  predicate Stops(a: Alphabet, atom: Atom, rest: string) {
    match atom
    case Keyword(_) => EndsWord(a, rest)
    case Quote(_, _) => SqlTokenizer.Apart('\'', rest)
    case At(_) => rest == [] || (!NameChar(a, rest[0]) && rest[0] != '@')
    case Name(_) => SqlTokenizer.Apart(']', rest)
    case Double(_) => SqlTokenizer.Apart('"', rest)
    case Digits(_) => rest == [] || !a.digit(rest[0])
    case Mark(_) => true
  }

  /** Each lexeme followed by its gap. */
  function Layout(atoms: seq<Atom>, gaps: seq<string>): string
    requires |atoms| == |gaps|
  {
    if atoms == [] then [] else Written(atoms[0]) + (gaps[0] + Layout(atoms[1..], gaps[1..]))
  }

  predicate WellLaid(a: Alphabet, atoms: seq<Atom>, gaps: seq<string>)
    requires |atoms| == |gaps|
  {
    atoms == [] ||
    (&& Sensible(a, atoms[0]) && Gap(a, gaps[0]) && Stops(a, atoms[0], gaps[0] + Layout(atoms[1..], gaps[1..]))
     && WellLaid(a, atoms[1..], gaps[1..]))
  }

  function Meanings(a: Alphabet, atoms: seq<Atom>): seq<Token> {
    if atoms == [] then [] else [Meaning(a, atoms[0])] + Meanings(a, atoms[1..])
  }

  ghost predicate SpelledBy(a: Alphabet, text: string, tokens: seq<Token>, atoms: seq<Atom>, gaps: seq<string>) {
    |atoms| == |gaps| && WellLaid(a, atoms, gaps) && text == Layout(atoms, gaps) && tokens == Meanings(a, atoms)
  }

  /** The text is one way to write these tokens. */
  ghost predicate Spells(a: Alphabet, text: string, tokens: seq<Token>) {
    exists atoms, gaps :: SpelledBy(a, text, tokens, atoms, gaps)
  }

  lemma AtLexeme(a: Alphabet, text: string, rest: string)
    requires Standard(a) && Sensible(a, At(text)) && Stops(a, At(text), rest)
    ensures Lexeme(a, text + rest) == Lexed(Some(Token(Variable, Upper(a, text))), rest)
  {
    SpelledReads(a, Variable, c => InVariable(a, c), text, rest);
    assert '@' in PUNCTUATION;
    assert (text + rest)[0] == '@';
  }

  lemma MarkLexeme(a: Alphabet, mark: char, rest: string)
    requires Standard(a) && mark in MARKS
    ensures Lexeme(a, [mark] + rest) == Lexed(Some(Token(Symbol, [mark])), rest)
  {
    assert mark in PUNCTUATION;
    assert ([mark] + rest)[1..] == rest;
  }

  /** A literal reads the same without a prefix and with either letter. */
  lemma QuoteLexeme(a: Alphabet, text: string, prefix: string, rest: string)
    requires Standard(a) && SqlTokenizer.Apart('\'', rest) && (prefix == [] || prefix == ['N'] || prefix == ['n'])
    ensures Lexeme(a, prefix + PlainLiteral(text) + rest) == Lexed(Some(Token(Literal, text)), rest)
  {
    LiteralLexeme(a, text, rest);
    if prefix == ['N'] {
      assert prefix + PlainLiteral(text) == NationalLiteral(text);
    } else if prefix == [] {
      assert prefix + PlainLiteral(text) == PlainLiteral(text);
    }
  }

  lemma DoubleLexeme(a: Alphabet, text: string, rest: string)
    requires Standard(a) && SqlTokenizer.Apart('"', rest)
    ensures Lexeme(a, DoubleQuoted(text) + rest) == Lexed(Some(Token(Quoted, text)), rest)
  {
    var body := Doubled('"', text) + ['"'] + rest;
    ReadDoubled('"', text, rest);
    assert '"' in PUNCTUATION;
    assert DoubleQuoted(text) + rest == ['"'] + body && (['"'] + body)[1..] == body;
  }

  lemma DigitsLexeme(a: Alphabet, text: string, rest: string)
    requires Standard(a) && Sensible(a, Digits(text)) && Stops(a, Digits(text), rest)
    ensures Lexeme(a, text + rest) == Lexed(Some(Token(Number, text)), rest)
  {
    SpelledReads(a, Number, a.digit, text, rest);
    var c := text[0];
    assert c in text && a.digit(c) && (text + rest)[0] == c;
    assert c !in PUNCTUATION && c != 'N' && c != 'n' && !a.space(c) by {
      assert a.alpha('N') && a.alnum(c);
    }
    assert '-' in PUNCTUATION && '/' in PUNCTUATION && '\'' in PUNCTUATION && '"' in PUNCTUATION && '[' in PUNCTUATION
           && '@' in PUNCTUATION;
  }

  lemma AtomReads(a: Alphabet, atom: Atom, rest: string)
    requires Standard(a) && Sensible(a, atom) && Stops(a, atom, rest)
    ensures Tokens(a, Written(atom) + rest) == [Meaning(a, atom)] + Tokens(a, rest)
  {
    match atom
    case Keyword(text) => WordReads(a, text, rest);
    case Quote(text, prefix) =>
      QuoteLexeme(a, text, prefix, rest);
      TokensStep(a, Written(atom) + rest, Meaning(a, atom), rest);
    case At(text) =>
      AtLexeme(a, text, rest);
      TokensStep(a, text + rest, Meaning(a, atom), rest);
    case Name(name) => BracketedReadsBack(a, name, rest);
    case Double(text) =>
      DoubleLexeme(a, text, rest);
      TokensStep(a, DoubleQuoted(text) + rest, Meaning(a, atom), rest);
    case Digits(text) =>
      DigitsLexeme(a, text, rest);
      TokensStep(a, text + rest, Meaning(a, atom), rest);
    case Mark(mark) =>
      MarkLexeme(a, mark, rest);
      TokensStep(a, [mark] + rest, Meaning(a, atom), rest);
  }

  /** Reading is the inverse of laying out. */
  lemma {:induction false} LayoutReadsBack(a: Alphabet, atoms: seq<Atom>, gaps: seq<string>)
    requires Standard(a) && |atoms| == |gaps| && WellLaid(a, atoms, gaps)
    ensures Tokens(a, Layout(atoms, gaps)) == Meanings(a, atoms)
  {
    if atoms != [] {
      var rest := Layout(atoms[1..], gaps[1..]);
      LayoutReadsBack(a, atoms[1..], gaps[1..]);
      AtomReads(a, atoms[0], gaps[0] + rest);
      GapVanishes(a, gaps[0], rest);
    }
  }

  lemma SpelledTextReadsBack(a: Alphabet, text: string, tokens: seq<Token>)
    requires Standard(a) && Spells(a, text, tokens)
    ensures Tokens(a, text) == tokens
  {
    var atoms, gaps :| SpelledBy(a, text, tokens, atoms, gaps);
    LayoutReadsBack(a, atoms, gaps);
  }
}
