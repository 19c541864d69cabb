/** Lexical primitives that the redaction scanner and the admin-policy tokenizer share:
    delimited text with doubled delimiters, nested block comments and line comments.
    Specifications work on the text that is still to be read; the methods move an index. */
module SqlLexis {

  /** What a reader found: the decoded content, the unread text, and whether the delimiter closed. */
  datatype Reading = Reading(content: string, rest: string, closed: bool)

  /** What is left after a block comment, and how many comments are still open there. */
  datatype Skipped = Skipped(rest: string, depth: nat)

  predicate Starts(s: string, a: char, b: char) { 1 < |s| && s[0] == a && s[1] == b }

  /** The printers' escape: every delimiter is written twice. */
  function Doubled(q: char, s: string): string {
    if s == [] then [] else (if s[0] == q then [q, q] else [s[0]]) + Doubled(q, s[1..])
  }

  /** Reads up to the first delimiter that is not doubled; s follows the opening delimiter. */
  function Read(q: char, s: string): (r: Reading)
    ensures |r.rest| <= |s|
    ensures r.closed ==> |r.rest| < |s|
    decreases |s|
  {
    if s == [] then Reading([], [], false)
    else if s[0] != q then
      var r := Read(q, s[1..]);
      r.(content := [s[0]] + r.content)
    else if 1 < |s| && s[1] == q then
      var r := Read(q, s[2..]);
      r.(content := [q] + r.content)
    else Reading([], s[1..], true)
  }

  /** Skips nested block comments; s is inside `depth` open comments. */
  function SkipBlock(s: string, depth: nat): (r: Skipped)
    ensures |r.rest| <= |s|
    decreases |s|
  {
    if depth == 0 || s == [] then Skipped(s, depth)
    else if Starts(s, '/', '*') then SkipBlock(s[2..], depth + 1)
    else if Starts(s, '*', '/') then SkipBlock(s[2..], depth - 1)
    else SkipBlock(s[1..], depth)
  }

  predicate EndsLine(c: char) { c == '\r' || c == '\n' }

  /** The text from the first line end on. */
  function SkipLine(s: string): (rest: string)
    ensures |rest| <= |s|
  {
    if s == [] || EndsLine(s[0]) then s else SkipLine(s[1..])
  }

  lemma Associate(a: string, b: string, c: string)
    ensures a + (b + c) == (a + b) + c
  {
  }

  /** One more doubled character in front of a text. */
  lemma DoubledStep(q: char, v: string, tail: string)
    requires v != []
    ensures Doubled(q, v) + tail == (if v[0] == q then [q, q] else [v[0]]) + (Doubled(q, v[1..]) + tail)
  {
  }

  lemma {:induction false} ReadDoubled(q: char, v: string, rest: string)
    requires rest == [] || rest[0] != q
    ensures Read(q, Doubled(q, v) + [q] + rest) == Reading(v, rest, true)
  {
    var s := Doubled(q, v) + [q] + rest;
    if v == [] {
      assert s == [q] + rest;
      assert s[1..] == rest;
    } else {
      var inner := Doubled(q, v[1..]) + [q] + rest;
      ReadDoubled(q, v[1..], rest);
      DoubledStep(q, v, [q] + rest);
      assert Doubled(q, v) + ([q] + rest) == s;
      assert Doubled(q, v[1..]) + ([q] + rest) == inner;
      assert v == [v[0]] + v[1..];
      if v[0] == q {
        assert s == [q, q] + inner;
        assert s[2..] == inner;
      } else {
        assert s == [v[0]] + inner;
        assert s[1..] == inner;
      }
    }
  }

  lemma {:induction false} ReadUnclosed(q: char, v: string)
    ensures Read(q, Doubled(q, v)) == Reading(v, [], false)
  {
    if v != [] {
      ReadUnclosed(q, v[1..]);
      var s := Doubled(q, v);
      assert v == [v[0]] + v[1..];
      if v[0] == q {
        assert s[2..] == Doubled(q, v[1..]);
      } else {
        assert s[1..] == Doubled(q, v[1..]);
      }
    }
  }

  /** The text a reading was read from. */
  function Restored(q: char, reading: Reading): string {
    Doubled(q, reading.content) + ((if reading.closed then [q] else []) + reading.rest)
  }

  lemma RestoredStep(q: char, c: char, reading: Reading)
    ensures Restored(q, reading.(content := [c] + reading.content))
            == (if c == q then [q, q] else [c]) + Restored(q, reading)
  {
    assert ([c] + reading.content)[1..] == reading.content;
    DoubledStep(q, [c] + reading.content, (if reading.closed then [q] else []) + reading.rest);
  }

  lemma {:induction false} ReadIsRestored(q: char, s: string)
    ensures var r := Read(q, s);
            && Restored(q, r) == s && (if r.closed then r.rest == [] || r.rest[0] != q else r.rest == [])
    decreases |s|
  {
    if s == [] {
    } else if s[0] != q {
      ReadIsRestored(q, s[1..]);
      RestoredStep(q, s[0], Read(q, s[1..]));
    } else if 1 < |s| && s[1] == q {
      ReadIsRestored(q, s[2..]);
      RestoredStep(q, q, Read(q, s[2..]));
    }
  }

  /** Reading loses nothing: the text is the doubled content, the delimiter if any, and the rest. */
  lemma ReadRestores(q: char, s: string)
    ensures var r := Read(q, s);
            && (r.closed ==> s == Doubled(q, r.content) + [q] + r.rest && (r.rest == [] || r.rest[0] != q))
            && (!r.closed ==> r.rest == [] && s == Doubled(q, r.content))
  {
    ReadIsRestored(q, s);
    var r := Read(q, s);
    if r.closed {
      Associate(Doubled(q, r.content), [q], r.rest);
    }
  }

  /** A comment that closes inside s closes at the same place whatever follows. */
  lemma {:induction false} SkipBlockAppend(s: string, depth: nat, t: string)
    requires SkipBlock(s, depth).depth == 0
    ensures SkipBlock(s + t, depth) == Skipped(SkipBlock(s, depth).rest + t, 0)
    decreases |s|
  {
    if depth > 0 && s != [] {
      if Starts(s, '/', '*') {
        assert (s + t)[2..] == s[2..] + t;
        SkipBlockAppend(s[2..], depth + 1, t);
      } else if Starts(s, '*', '/') {
        assert (s + t)[2..] == s[2..] + t;
        SkipBlockAppend(s[2..], depth - 1, t);
      } else {
        assert s[1..] != [];
        assert (s + t)[1..] == s[1..] + t;
        SkipBlockAppend(s[1..], depth, t);
      }
    }
  }

  lemma SkipMarks(s: string, depth: nat)
    requires depth > 0
    ensures SkipBlock(['/', '*'] + s, depth) == SkipBlock(s, depth + 1)
    ensures SkipBlock(['*', '/'] + s, depth) == SkipBlock(s, depth - 1)
  {
    assert (['/', '*'] + s)[2..] == s && (['*', '/'] + s)[2..] == s;
  }

  /** What a skipper passed over is closed on its own. */
  lemma {:induction false} SkipBlockPassed(s: string, depth: nat) returns (passed: string)
    ensures var r := SkipBlock(s, depth);
            && (r.depth > 0 ==> r.rest == [])
            && (r.depth == 0 ==> s == passed + r.rest && SkipBlock(passed, depth) == Skipped([], 0))
    decreases |s|
  {
    passed := [];
    if depth > 0 && s != [] {
      var rest := SkipBlock(s, depth).rest;
      if Starts(s, '/', '*') {
        var p := SkipBlockPassed(s[2..], depth + 1);
        SkipMarks(p, depth);
        passed := ['/', '*'] + p;
        assert s == ['/', '*'] + s[2..];
        Associate(['/', '*'], p, rest);
      } else if Starts(s, '*', '/') {
        var p := SkipBlockPassed(s[2..], depth - 1);
        SkipMarks(p, depth);
        passed := ['*', '/'] + p;
        assert s == ['*', '/'] + s[2..];
        Associate(['*', '/'], p, rest);
      } else {
        var p := SkipBlockPassed(s[1..], depth);
        passed := [s[0]] + p;
        Associate([s[0]], p, rest);
        if SkipBlock(s, depth).depth == 0 {
          PassedOne(s, p, rest, depth);
        }
      }
    }
  }

  lemma PassedOne(s: string, p: string, rest: string, depth: nat)
    requires s != [] && depth > 0 && !Starts(s, '/', '*') && !Starts(s, '*', '/')
    requires s[1..] == p + rest && SkipBlock(p, depth) == Skipped([], 0)
    ensures s == [s[0]] + p + rest && SkipBlock([s[0]] + p, depth) == Skipped([], 0)
  {
    var passed := [s[0]] + p;
    assert p != [] && s[1] == p[0];
    assert passed[1..] == p;
  }

  /** What a block comment holds: text without comment marks, and comments of its own. */
  datatype Inside = Words(text: string) | Comment(inner: seq<Inside>)

  /** No comment mark, and nothing that begins one at the end. */
  predicate Unmarked(text: string) {
    && (forall i :: 0 <= i < |text| - 1 ==>
          !(text[i] == '/' && text[i + 1] == '*') && !(text[i] == '*' && text[i + 1] == '/'))
    && (text != [] ==> text[|text| - 1] != '/' && text[|text| - 1] != '*')
  }

  predicate AllUnmarked(insides: seq<Inside>) {
    insides == [] || (Clean(insides[0]) && AllUnmarked(insides[1..]))
  }

  predicate Clean(inside: Inside) {
    match inside case Words(text) => Unmarked(text) case Comment(inner) => AllUnmarked(inner)
  }

  function Spell(insides: seq<Inside>): string {
    if insides == [] then [] else SpellOne(insides[0]) + Spell(insides[1..])
  }

  function SpellOne(inside: Inside): string {
    match inside case Words(text) => text case Comment(inner) => ['/', '*'] + (Spell(inner) + ['*', '/'])
  }

  lemma {:induction false} WordsAreSkipped(text: string, rest: string, depth: nat)
    requires Unmarked(text) && depth > 0
    ensures SkipBlock(text + rest, depth) == SkipBlock(rest, depth)
  {
    if text == [] {
      assert text + rest == rest;
    } else {
      assert (text + rest)[1..] == text[1..] + rest;
      WordsAreSkipped(text[1..], rest, depth);
    }
  }

  lemma {:induction false} InsideIsSkipped(inside: Inside, rest: string, depth: nat)
    requires Clean(inside) && depth > 0
    ensures SkipBlock(SpellOne(inside) + rest, depth) == SkipBlock(rest, depth)
    decreases inside, 0
  {
    match inside
    case Words(text) => WordsAreSkipped(text, rest, depth);
    case Comment(inner) =>
      var more := ['*', '/'] + rest;
      assert SpellOne(inside) + rest == ['/', '*'] + (Spell(inner) + more);
      SkipMarks(Spell(inner) + more, depth);
      AllInsideIsSkipped(inner, more, depth + 1);
      SkipMarks(rest, depth + 1);
  }

  lemma {:induction false} AllInsideIsSkipped(insides: seq<Inside>, rest: string, depth: nat)
    requires AllUnmarked(insides) && depth > 0
    ensures SkipBlock(Spell(insides) + rest, depth) == SkipBlock(rest, depth)
    decreases insides, |insides|
  {
    if insides == [] {
      assert Spell(insides) + rest == rest;
    } else {
      assert Spell(insides) + rest == SpellOne(insides[0]) + (Spell(insides[1..]) + rest);
      InsideIsSkipped(insides[0], Spell(insides[1..]) + rest, depth);
      AllInsideIsSkipped(insides[1..], rest, depth);
    }
  }

  /** A block comment ends at its own mark, whatever comments are nested in it; without its mark it
      takes up the whole text. */
  lemma NestedCommentEnds(insides: seq<Inside>, rest: string)
    requires AllUnmarked(insides)
    ensures SkipBlock(Spell(insides) + ['*', '/'] + rest, 1) == Skipped(rest, 0)
    ensures SkipBlock(Spell(insides), 1) == Skipped([], 1)
  {
    Associate(Spell(insides), ['*', '/'], rest);
    AllInsideIsSkipped(insides, ['*', '/'] + rest, 1);
    SkipMarks(rest, 1);
    AllInsideIsSkipped(insides, [], 1);
    assert Spell(insides) + [] == Spell(insides);
  }

  /** A line comment ends at the first carriage return or line feed, and nowhere else. */
  lemma {:induction false} LineCommentEnds(body: string, end: char, rest: string)
    requires (forall i :: 0 <= i < |body| ==> body[i] != '\r' && body[i] != '\n') && (end == '\r' || end == '\n')
    ensures SkipLine(body + [end] + rest) == [end] + rest
    ensures SkipLine(body) == []
  {
    if body == [] {
      assert body + [end] + rest == [end] + rest;
    } else {
      assert body + [end] + rest == [body[0]] + (body[1..] + [end] + rest);
      assert (body + [end] + rest)[1..] == body[1..] + [end] + rest;
      LineCommentEnds(body[1..], end, rest);
    }
  }

  lemma {:induction false} SkipLineBody(body: string, rest: string)
    requires forall c :: c in body ==> !EndsLine(c)
    requires rest == [] || EndsLine(rest[0])
    ensures SkipLine(body + rest) == rest
  {
    if body == [] {
      assert body + rest == rest;
    } else {
      assert (body + rest)[1..] == body[1..] + rest;
      SkipLineBody(body[1..], rest);
    }
  }

  lemma {:induction false} SkipLinePassed(s: string)
    ensures var rest := SkipLine(s); var n := |s| - |rest|;
            && s[n..] == rest && (rest == [] || EndsLine(rest[0]))
            && forall c :: c in s[..n] ==> !EndsLine(c)
  {
    if s != [] && !EndsLine(s[0]) {
      SkipLinePassed(s[1..]);
      var n := |s| - |SkipLine(s)|;
      assert s[..n] == [s[0]] + s[1..][..n - 1];
      assert s[n..] == s[1..][n - 1..];
    }
  }

  // The readers and skippers of the source, each moving an index through the whole text.

  method SkipLineComment(sql: string, start: nat) returns (index: nat)
    requires start <= |sql|
    ensures start <= index <= |sql| && sql[index..] == SkipLine(sql[start..])
  {
    index := start;
    while index < |sql| && !EndsLine(sql[index])
      invariant start <= index <= |sql| && SkipLine(sql[index..]) == SkipLine(sql[start..])
    {
      assert sql[index..][1..] == sql[index + 1..];
      index := index + 1;
    }
  }

  method SkipBlockComment(sql: string, start: nat) returns (index: nat)
    requires start <= |sql|
    ensures start <= index <= |sql| && sql[index..] == SkipBlock(sql[start..], 1).rest
  {
    index := start;
    var depth: nat := 1;
    while index < |sql| && depth > 0
      invariant start <= index <= |sql|
      invariant SkipBlock(sql[index..], depth) == SkipBlock(sql[start..], 1)
    {
      if Starts(sql[index..], '/', '*') {
        assert sql[index..][2..] == sql[index + 2..];
        depth, index := depth + 1, index + 2;
      } else if Starts(sql[index..], '*', '/') {
        assert sql[index..][2..] == sql[index + 2..];
        depth, index := depth - 1, index + 2;
      } else {
        assert sql[index..][1..] == sql[index + 1..];
        index := index + 1;
      }
    }
  }

  function Prefixed(content: string, reading: Reading): Reading { reading.(content := content + reading.content) }

  /** One turn of the reader's loop, with what it has read before. */
  lemma ReadFrom(q: char, content: string, sql: string, index: nat)
    requires index < |sql|
    ensures Prefixed(content, Read(q, sql[index..]))
            == (if sql[index] != q then Prefixed(content + [sql[index]], Read(q, sql[index + 1..]))
                else if index + 1 < |sql| && sql[index + 1] == q then Prefixed(content + [q], Read(q, sql[index + 2..]))
                else Reading(content, sql[index + 1..], true))
  {
    var s := sql[index..];
    assert s[1..] == sql[index + 1..];
    if s[0] != q {
      Associate(content, [s[0]], Read(q, s[1..]).content);
    } else if 1 < |s| && s[1] == q {
      assert s[2..] == sql[index + 2..];
      Associate(content, [q], Read(q, s[2..]).content);
    } else {
      assert content + [] == content;
    }
  }

  /** `start` follows the opening delimiter. */
  method ReadDelimited(sql: string, start: nat, q: char) returns (content: string, index: nat)
    requires start <= |sql|
    ensures start <= index <= |sql|
    ensures content == Read(q, sql[start..]).content && sql[index..] == Read(q, sql[start..]).rest
  {
    index := start;
    content := [];
    ghost var whole := Read(q, sql[start..]);
    assert [] + whole.content == whole.content;
    while index < |sql|
      invariant start <= index <= |sql| && whole == Prefixed(content, Read(q, sql[index..]))
    {
      ReadFrom(q, content, sql, index);
      if sql[index] != q {
        content := content + [sql[index]];
        index := index + 1;
      } else if index + 1 < |sql| && sql[index + 1] == q {
        content := content + [q];
        index := index + 2;
      } else {
        return content, index + 1;
      }
    }
    assert content + [] == content;
  }
}
