/** The SQL literal redaction scanner.  A text has exactly one lexical reading as a list of
    segments; the scanner is proved to replace the body of each segment by a fixed marker and
    to keep everything else, which gives idempotence and independence of the redacted content. */
module Redaction {
  import opened SqlLexis

  /** `tail` of a block comment is everything after its opening mark, the closing mark included. */
  datatype Segment =
    | Plain(c: char)
    | Line(body: string)
    | Block(tail: string, closed: bool)
    | Literal(content: string, terminated: bool)

  /** A marker that cannot be mistaken for the end of a literal, a line or a comment. */
  predicate IsMarker(m: string) { forall c :: c in m ==> c != '\'' && c != '*' && c != '/' && !EndsLine(c) }

  type Marker = m: string | IsMarker(m) witness []

  const MARKER: Marker := "[REDACTED]"

  function Text(segment: Segment): string {
    match segment
    case Plain(c) => [c]
    case Line(body) => ['-', '-'] + body
    case Block(tail, _) => ['/', '*'] + tail
    case Literal(content, terminated) => ['\''] + Doubled('\'', content) + if terminated then ['\''] else []
  }

  function Print(segments: seq<Segment>): string {
    if segments == [] then [] else Text(segments[0]) + Print(segments[1..])
  }

  /** When `after` follows, the text of the segment is read as exactly this segment. */
  predicate Fits(segment: Segment, after: string) {
    match segment
    case Plain(c) =>
      c != '\'' && !Starts([c] + after, '-', '-') && !Starts([c] + after, '/', '*')
    case Line(body) => (forall c :: c in body ==> !EndsLine(c)) && (after == [] || EndsLine(after[0]))
    case Block(tail, closed) =>
      if closed then SkipBlock(tail, 1) == Skipped([], 0)
      else SkipBlock(tail, 1).depth > 0 && after == []
    case Literal(_, terminated) => if terminated then after == [] || after[0] != '\'' else after == []
  }

  predicate WellFormed(segments: seq<Segment>) {
    segments == [] || (Fits(segments[0], Print(segments[1..])) && WellFormed(segments[1..]))
  }

  /** The same segment with its body hidden: what a reader of the output may learn. */
  function Masked(segment: Segment, marker: Marker): Segment {
    match segment
    case Plain(c) => segment
    case Line(_) => Line(marker)
    case Block(_, _) => Block(marker + ['*', '/'], true)
    case Literal(_, _) => Literal(marker, true)
  }

  function MaskAll(segments: seq<Segment>, marker: Marker): (masked: seq<Segment>)
    ensures |masked| == |segments|
  {
    seq(|segments|, i requires 0 <= i < |segments| => Masked(segments[i], marker))
  }

  /** One segment of the scanner's work: the segment it recognises and the unread text. */
  function First(s: string): (r: (Segment, string))
    requires s != []
    ensures |r.1| < |s|
  {
    if Starts(s, '-', '-') then
      var rest := SkipLine(s[2..]);
      (Line(s[2..|s| - |rest|]), rest)
    else if Starts(s, '/', '*') then
      var skipped := SkipBlock(s[2..], 1);
      (Block(s[2..|s| - |skipped.rest|], skipped.depth == 0), skipped.rest)
    else if s[0] != '\'' then
      (Plain(s[0]), s[1..])
    else
      var r := Read('\'', s[1..]);
      (Literal(r.content, r.closed), r.rest)
  }

  function Segments(s: string): seq<Segment>
    decreases |s|
  {
    if s == [] then [] else [First(s).0] + Segments(First(s).1)
  }

  /** The output of the scanner on the text that is still to be read. */
  function Redacted(s: string, marker: Marker): string
    decreases |s|
  {
    if s == [] then []
    else if Starts(s, '-', '-') then (['-', '-'] + marker) + Redacted(SkipLine(s[2..]), marker)
    else if Starts(s, '/', '*') then
      (['/', '*'] + marker + ['*', '/']) + Redacted(SkipBlock(s[2..], 1).rest, marker)
    else if s[0] != '\'' then [s[0]] + Redacted(s[1..], marker)
    else (['\''] + marker + ['\'']) + Redacted(Read('\'', s[1..]).rest, marker)
  }

  method RedactWith(sql: string, marker: Marker) returns (redacted: string)
    ensures redacted == Redacted(sql, marker)
  {
    redacted := [];
    var index := 0;
    while index < |sql|
      invariant 0 <= index <= |sql|
      invariant Redacted(sql, marker) == redacted + Redacted(sql[index..], marker)
      decreases |sql| - index
    {
      var piece, next;
      if index + 1 < |sql| && sql[index] == '-' && sql[index + 1] == '-' {
        assert sql[index..][2..] == sql[index + 2..];
        piece := ['-', '-'] + marker;
        next := SkipLineComment(sql, index + 2);
      } else if index + 1 < |sql| && sql[index] == '/' && sql[index + 1] == '*' {
        assert sql[index..][2..] == sql[index + 2..];
        piece := ['/', '*'] + marker + ['*', '/'];
        next := SkipBlockComment(sql, index + 2);
      } else if sql[index] != '\'' {
        assert sql[index..][1..] == sql[index + 1..];
        piece, next := [sql[index]], index + 1;
      } else {
        assert sql[index..][1..] == sql[index + 1..];
        piece := ['\''] + marker + ['\''];
        var _, after := ReadDelimited(sql, index + 1, '\'');
        next := after;
      }
      Associate(redacted, piece, Redacted(sql[next..], marker));
      redacted, index := redacted + piece, next;
    }
  }

  method RedactSqlLiterals(sql: string) returns (redacted: string)
    ensures redacted == Redacted(sql, MARKER)
  {
    redacted := RedactWith(sql, MARKER);
  }

  // ---------------------------------------------------------------- reading and printing

  /** The text of a fitting segment is read back as that segment, whatever follows. */
  lemma FirstOfPrinted(segment: Segment, after: string)
    requires Fits(segment, after)
    ensures Text(segment) + after != [] && First(Text(segment) + after) == (segment, after)
  {
    match segment {
      case Plain(c) => assert ([c] + after)[1..] == after;
      case Line(body) => FirstOfLine(body, after);
      case Block(tail, closed) => FirstOfBlock(tail, closed, after);
      case Literal(content, terminated) => FirstOfLiteral(content, terminated, after);
    }
  }

  lemma FirstOfLine(body: string, after: string)
    requires Fits(Line(body), after)
    ensures First(['-', '-'] + body + after) == (Line(body), after)
  {
    var s := ['-', '-'] + body + after;
    assert s[2..] == body + after;
    SkipLineBody(body, after);
    assert s[2..|s| - |after|] == body;
  }

  lemma FirstOfBlock(tail: string, closed: bool, after: string)
    requires Fits(Block(tail, closed), after)
    ensures First(['/', '*'] + tail + after) == (Block(tail, closed), after)
  {
    var s := ['/', '*'] + tail + after;
    assert s[2..] == tail + after;
    if closed {
      SkipBlockAppend(tail, 1, after);
    } else {
      assert tail + after == tail;
      var _ := SkipBlockPassed(tail, 1);
    }
    assert SkipBlock(tail, 1).rest + after == after;
    assert s[2..|s| - |after|] == tail;
  }

  lemma FirstOfLiteral(content: string, terminated: bool, after: string)
    requires Fits(Literal(content, terminated), after)
    ensures var s := Text(Literal(content, terminated)) + after;
            s != [] && First(s) == (Literal(content, terminated), after)
  {
    var s := Text(Literal(content, terminated)) + after;
    if terminated {
      assert s[1..] == Doubled('\'', content) + ['\''] + after;
      ReadDoubled('\'', content, after);
    } else {
      assert s[1..] == Doubled('\'', content);
      ReadUnclosed('\'', content);
    }
  }

  /** A recognised segment fits in front of what follows, and no character is lost. */
  lemma FirstFits(s: string)
    requires s != []
    ensures Fits(First(s).0, First(s).1) && Text(First(s).0) + First(s).1 == s
  {
    if Starts(s, '-', '-') {
      LineFits(s);
    } else if Starts(s, '/', '*') {
      BlockFits(s);
    } else if s[0] != '\'' {
      assert s == [s[0]] + s[1..];
    } else {
      ReadRestores('\'', s[1..]);
      assert s == [s[0]] + s[1..];
    }
  }

  lemma LineFits(s: string)
    requires Starts(s, '-', '-')
    ensures Fits(First(s).0, First(s).1) && Text(First(s).0) + First(s).1 == s
  {
    SkipLinePassed(s[2..]);
    var n := |s| - |First(s).1|;
    assert s[2..n] == s[2..][..n - 2];
    assert s == ['-', '-'] + s[2..n] + s[n..];
  }

  lemma BlockFits(s: string)
    requires Starts(s, '/', '*')
    ensures Fits(First(s).0, First(s).1) && Text(First(s).0) + First(s).1 == s
  {
    var passed := SkipBlockPassed(s[2..], 1);
    var n := |s| - |First(s).1|;
    if SkipBlock(s[2..], 1).depth == 0 {
      assert s[2..n] == passed;
    } else {
      assert s[2..n] == s[2..];
    }
    assert s == ['/', '*'] + s[2..n] + First(s).1;
  }

  /** Every text has a well-formed reading that prints back to it. */
  lemma {:induction false} EveryTextReads(s: string)
    ensures WellFormed(Segments(s)) && Print(Segments(s)) == s
    decreases |s|
  {
    if s != [] {
      FirstFits(s);
      EveryTextReads(First(s).1);
      assert Segments(s)[1..] == Segments(First(s).1);
    }
  }

  /** The reading is unique: a well-formed list of segments is read back from its own text. */
  lemma {:induction false} ReadingIsUnique(segments: seq<Segment>)
    requires WellFormed(segments)
    ensures Segments(Print(segments)) == segments
  {
    if segments != [] {
      FirstOfPrinted(segments[0], Print(segments[1..]));
      ReadingIsUnique(segments[1..]);
    }
  }

  // ---------------------------------------------------------------- masking

  /** Masking keeps whether a text is empty and its first character. */
  lemma MaskingKeepsFirst(segments: seq<Segment>, marker: Marker)
    ensures Print(segments) == [] <==> segments == []
    ensures segments != [] ==>
              var masked := Print(MaskAll(segments, marker)); masked != [] && masked[0] == Print(segments)[0]
  {
    if segments != [] {
      assert MaskAll(segments, marker)[0] == Masked(segments[0], marker);
    }
  }

  lemma {:induction false} MarkerIsOneComment(marker: string)
    requires IsMarker(marker)
    ensures SkipBlock(marker + ['*', '/'], 1) == Skipped([], 0)
  {
    var s := marker + ['*', '/'];
    if marker == [] {
      assert s == ['*', '/'];
    } else {
      assert s[0] == marker[0] && marker[0] in marker && forall c :: c in marker[1..] ==> c in marker;
      assert s[1..] == marker[1..] + ['*', '/'];
      MarkerIsOneComment(marker[1..]);
    }
  }

  lemma {:induction false} DoubledWithout(q: char, s: string)
    requires q !in s
    ensures Doubled(q, s) == s
  {
    if s != [] {
      DoubledWithout(q, s[1..]);
      assert s == [s[0]] + s[1..];
    }
  }

  lemma MaskedFits(segment: Segment, after: string, masked: string, marker: Marker)
    requires Fits(segment, after)
    requires after == [] <==> masked == []
    requires after != [] ==> masked[0] == after[0]
    ensures Fits(Masked(segment, marker), masked)
  {
    match segment {
      case Plain(c) =>
        if masked != [] {
          assert ([c] + after)[1] == after[0] && ([c] + masked)[1] == masked[0];
        }
      case Block(_, _) => MarkerIsOneComment(marker);
      case _ =>
    }
  }

  /** One masked segment in front of a masked rest. */
  lemma MaskedHeadFits(segments: seq<Segment>, marker: Marker)
    requires segments != [] && Fits(segments[0], Print(segments[1..]))
    ensures Fits(Masked(segments[0], marker), Print(MaskAll(segments[1..], marker)))
  {
    MaskingKeepsFirst(segments[1..], marker);
    MaskedFits(segments[0], Print(segments[1..]), Print(MaskAll(segments[1..], marker)), marker);
  }

  lemma MaskedTail(segments: seq<Segment>, marker: Marker)
    requires segments != []
    ensures MaskAll(segments, marker)[0] == Masked(segments[0], marker)
    ensures MaskAll(segments, marker)[1..] == MaskAll(segments[1..], marker)
  {
  }

  lemma {:induction false} MaskedIsWellFormed(segments: seq<Segment>, marker: Marker)
    requires WellFormed(segments)
    ensures WellFormed(MaskAll(segments, marker))
  {
    if segments != [] {
      MaskedIsWellFormed(segments[1..], marker);
      MaskedHeadFits(segments, marker);
      MaskedTail(segments, marker);
    }
  }

  /** The scanner emits the masked form of the segment it recognises and goes on behind it. */
  lemma RedactedStep(s: string, marker: Marker)
    requires s != []
    ensures Redacted(s, marker) == Text(Masked(First(s).0, marker)) + Redacted(First(s).1, marker)
  {
    var next := Redacted(First(s).1, marker);
    match First(s).0 {
      case Literal(_, _) =>
        DoubledWithout('\'', marker);
      case Block(_, _) =>
        assert ['/', '*'] + (marker + ['*', '/']) == ['/', '*'] + marker + ['*', '/'];
      case _ =>
    }
  }

  lemma MaskedStep(segments: seq<Segment>, marker: Marker)
    requires segments != []
    ensures Print(MaskAll(segments, marker))
            == Text(Masked(segments[0], marker)) + Print(MaskAll(segments[1..], marker))
  {
    assert MaskAll(segments, marker)[1..] == MaskAll(segments[1..], marker);
  }

  /** The scanner replaces every segment by its masked form. */
  lemma {:induction false} RedactsEverySegment(segments: seq<Segment>, marker: Marker)
    requires WellFormed(segments)
    ensures Redacted(Print(segments), marker) == Print(MaskAll(segments, marker))
  {
    if segments != [] {
      FirstOfPrinted(segments[0], Print(segments[1..]));
      RedactedStep(Print(segments), marker);
      RedactsEverySegment(segments[1..], marker);
      MaskedStep(segments, marker);
    }
  }

  /** The lexical reading of the output is the masked reading of the input. */
  lemma OutputReading(sql: string, marker: Marker)
    ensures Redacted(sql, marker) == Print(MaskAll(Segments(sql), marker))
    ensures Segments(Redacted(sql, marker)) == MaskAll(Segments(sql), marker)
  {
    EveryTextReads(sql);
    RedactsEverySegment(Segments(sql), marker);
    MaskedIsWellFormed(Segments(sql), marker);
    ReadingIsUnique(MaskAll(Segments(sql), marker));
  }

  lemma MaskTwice(segments: seq<Segment>, marker: Marker)
    ensures MaskAll(MaskAll(segments, marker), marker) == MaskAll(segments, marker)
  {
  }

  /** Redacting twice is redacting once. */
  lemma RedactionIsIdempotent(sql: string, marker: Marker)
    ensures Redacted(Redacted(sql, marker), marker) == Redacted(sql, marker)
  {
    OutputReading(sql, marker);
    OutputReading(Redacted(sql, marker), marker);
    MaskTwice(Segments(sql), marker);
  }

  /** Two texts redact to the same output exactly when their segments differ in nothing but
      the bodies of literals and comments (and in whether the last one is closed). */
  lemma RedactionHidesExactlyTheBodies(sql: string, other: string, marker: Marker)
    ensures Redacted(sql, marker) == Redacted(other, marker)
            <==> MaskAll(Segments(sql), marker) == MaskAll(Segments(other), marker)
  {
    OutputReading(sql, marker);
    OutputReading(other, marker);
  }

  /** Any two choices of bodies in the same frame are indistinguishable after redaction. */
  lemma ContentIndependence(segments: seq<Segment>, others: seq<Segment>, marker: Marker)
    requires WellFormed(segments) && WellFormed(others) && |segments| == |others|
    requires forall i :: 0 <= i < |segments| ==> Masked(segments[i], marker) == Masked(others[i], marker)
    ensures Redacted(Print(segments), marker) == Redacted(Print(others), marker)
  {
    RedactsEverySegment(segments, marker);
    RedactsEverySegment(others, marker);
    assert MaskAll(segments, marker) == MaskAll(others, marker);
  }
}
