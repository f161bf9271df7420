/** scripts/i18n-fill-translations.py prints one field of a .po entry and reads it
    back (parse_pot); scripts/i18n-lint.py reads the same text a second way
    (join_quoted). */
module PoField {
  import opened Options
  import opened Text

  // ---------------------------------------------------------------- printing

  /** str.replace for a one-character pattern. */
  function Replace(s: string, c: char, sub: string): string
  {
    if s == "" then "" else (if s[0] == c then sub else [s[0]]) + Replace(s[1..], c, sub)
  }

  /** Five passes: the backslash goes first, so no later pass sees its own output escaped again. */
  function Escape(s: string): string
  {
    Replace(Replace(Replace(Replace(Replace(s,
      '\\', "\\\\"), '"', "\\\""), '\n', "\\n"), '\t', "\\t"), '\r', "\\r")
  }

  function EscapeChar(c: char): string
  {
    match c
    case '\\' => "\\\\"
    case '"' => "\\\""
    case '\n' => "\\n"
    case '\t' => "\\t"
    case '\r' => "\\r"
    case _ => [c]
  }

  /** One pass, one character at a time. */
  function EscapeAll(s: string): string
  {
    if s == "" then "" else EscapeChar(s[0]) + EscapeAll(s[1..])
  }

  lemma {:induction false} ReplaceAppend(a: string, b: string, c: char, sub: string)
    ensures Replace(a + b, c, sub) == Replace(a, c, sub) + Replace(b, c, sub)
  {
    if a == "" {
      assert a + b == b;
    } else {
      assert (a + b)[1..] == a[1..] + b;
      ReplaceAppend(a[1..], b, c, sub);
    }
  }

  lemma ReplaceShort(s: string, c: char, sub: string)
    requires |s| == 2
    ensures Replace(s, c, sub) == (if s[0] == c then sub else [s[0]]) + (if s[1] == c then sub else [s[1]])
  {
    assert Replace(s[1..], c, sub) == (if s[1] == c then sub else [s[1]]) + Replace("", c, sub);
  }

  lemma EscapeOne(c: char)
    ensures Escape([c]) == EscapeChar(c)
  {
    var afterBackslash := Replace([c], '\\', "\\\\");
    if c == '\\' {
      assert afterBackslash == "\\\\";
      ReplaceShort("\\\\", '"', "\\\"");
      ReplaceShort("\\\\", '\n', "\\n");
      ReplaceShort("\\\\", '\t', "\\t");
      ReplaceShort("\\\\", '\r', "\\r");
    } else if c == '"' {
      ReplaceShort("\\\"", '\n', "\\n");
      ReplaceShort("\\\"", '\t', "\\t");
      ReplaceShort("\\\"", '\r', "\\r");
    } else if c == '\n' {
      ReplaceShort("\\n", '\t', "\\t");
      ReplaceShort("\\n", '\r', "\\r");
    } else if c == '\t' {
      ReplaceShort("\\t", '\r', "\\r");
    }
  }

  /** The five passes over the whole string are one pass over its characters. */
  lemma {:induction false} EscapeIsPerCharacter(s: string)
    ensures Escape(s) == EscapeAll(s)
  {
    if s != "" {
      var head, tail := s[..1], s[1..];
      assert s == head + tail;
      var h1, t1 := Replace(head, '\\', "\\\\"), Replace(tail, '\\', "\\\\");
      ReplaceAppend(head, tail, '\\', "\\\\");
      var h2, t2 := Replace(h1, '"', "\\\""), Replace(t1, '"', "\\\"");
      ReplaceAppend(h1, t1, '"', "\\\"");
      var h3, t3 := Replace(h2, '\n', "\\n"), Replace(t2, '\n', "\\n");
      ReplaceAppend(h2, t2, '\n', "\\n");
      var h4, t4 := Replace(h3, '\t', "\\t"), Replace(t3, '\t', "\\t");
      ReplaceAppend(h3, t3, '\t', "\\t");
      ReplaceAppend(h4, t4, '\r', "\\r");
      assert head == [s[0]];
      EscapeOne(s[0]);
      EscapeIsPerCharacter(tail);
    }
  }

  const CHUNK := 70

  /** The last position in (0, e] not preceded by a backslash, or 0. */
  function BackOff(esc: string, e: nat): (r: nat)
    requires e <= |esc|
    ensures r <= e
    ensures r > 0 ==> esc[r - 1] != '\\'
    ensures forall i :: r <= i < e ==> esc[i] == '\\'
  {
    if e > 0 && esc[e - 1] == '\\' then BackOff(esc, e - 1) else e
  }

  predicate AllBackslashes(s: string)
  {
    forall i :: 0 <= i < |s| ==> s[i] == '\\'
  }

  /** Where a line of what is still to be printed ends: at the end if that is within 70 characters, else after 70,
      or before the backslashes that end these 70 unless they are all there is. */
  predicate IsCut(rest: string, e: nat)
  {
    && 0 < e <= |rest| && e <= 70
    && (|rest| <= 70 ==> e == |rest|)
    && (|rest| > 70 ==>
          AllBackslashes(rest[e..70]) && (rest[e - 1] != '\\' || (e == 70 && AllBackslashes(rest[..70]))))
  }

  /** Where the first chunk of a non-empty rest ends. */
  function CutPoint(esc: string): (e: nat)
    requires esc != ""
    ensures IsCut(esc, e)
  {
    if |esc| <= CHUNK then |esc|
    else
      var e := BackOff(esc, CHUNK);
      if e == 0 then CHUNK else e
  }

  function Chunks(esc: string): seq<string>
    decreases |esc|
  {
    if esc == "" then [] else [esc[..CutPoint(esc)]] + Chunks(esc[CutPoint(esc)..])
  }

  /** Each string as one line. */
  function Unlines(lines: seq<string>): string
  {
    if lines == [] then "" else lines[0] + "\n" + Unlines(lines[1..])
  }

  function Quoted(body: string): string
  {
    "\"" + body + "\""
  }

  function QuotedLines(bodies: seq<string>): seq<string>
  {
    seq(|bodies|, i requires 0 <= i < |bodies| => Quoted(bodies[i]))
  }

  /** "\\n" in esc: a backslash followed by an n. */
  predicate HasEscapedNewline(esc: string)
  {
    exists i :: 0 <= i < |esc| - 1 && esc[i] == '\\' && esc[i + 1] == 'n'
  }

  /** Whether the field is printed over several lines. */
  predicate Multiline(tag: string, esc: string)
  {
    tag != "msgctxt" && (HasEscapedNewline(esc) || |esc| > 72)
  }

  /** The bodies of the quoted pieces a field is printed as. */
  function Pieces(tag: string, value: string): (bodies: seq<string>)
    ensures |bodies| > 0
  {
    var esc := Escape(value);
    if Multiline(tag, esc) then [""] + Chunks(esc) else [esc]
  }

  function FieldText(tag: string, value: string): string
  {
    var bodies := Pieces(tag, value);
    Unlines([tag + " " + Quoted(bodies[0])] + QuotedLines(bodies[1..]))
  }

  lemma QuotedLinesAppend(a: seq<string>, b: string)
    ensures QuotedLines(a + [b]) == QuotedLines(a) + [Quoted(b)]
  {
  }

  /** The inner loop: where the chunk starting at i ends. */
  method ChunkEnd(esc: string, i: nat) returns (end: nat)
    requires i < |esc|
    ensures end == i + CutPoint(esc[i..])
  {
    ghost var rest := esc[i..];
    var limit := if i + CHUNK < |esc| then i + CHUNK else |esc|;
    end := limit;
    if end < |esc| {
      while end > i && esc[end - 1] == '\\'
        invariant i <= end <= i + CHUNK
        invariant BackOff(rest, end - i) == BackOff(rest, CHUNK)
      {
        assert rest[end - i - 1] == esc[end - 1];
        end := end - 1;
      }
      assert end > i ==> rest[end - i - 1] == esc[end - 1];
      if end == i {
        end := limit;
      }
    }
  }

  lemma ChunksAdvance(esc: string, i: nat, end: nat, before: seq<string>)
    requires i < |esc| && end == i + CutPoint(esc[i..])
    ensures i < end <= |esc|
    ensures before + Chunks(esc[i..]) == before + [esc[i..end]] + Chunks(esc[end..])
  {
    assert esc[i..][..end - i] == esc[i..end];
    assert esc[i..][end - i..] == esc[end..];
  }

  lemma SingleLine(tag: string, value: string)
    requires !Multiline(tag, Escape(value))
    ensures FieldText(tag, value) == tag + " " + Quoted(Escape(value)) + "\n"
  {
    var bodies := Pieces(tag, value);
    var first := tag + " " + Quoted(Escape(value));
    assert [first] + QuotedLines(bodies[1..]) == [first];
    assert Unlines([first]) == first + "\n" + Unlines([]);
  }

  lemma SeveralLines(tag: string, value: string)
    requires Multiline(tag, Escape(value))
    ensures FieldText(tag, value) == Unlines([tag + " \"\""] + QuotedLines(Chunks(Escape(value))))
  {
    hide Escape, Chunks, Unlines, QuotedLines;
    assert Pieces(tag, value)[1..] == Chunks(Escape(value));
    assert tag + " " + Quoted("") == tag + " \"\"";
  }

  /** The index loop of format_string_field. */
  method FormatStringField(tag: string, value: string) returns (text: string)
    ensures text == FieldText(tag, value)
  {
    hide Escape, Chunks, CutPoint, Unlines, FieldText, QuotedLines;
    var esc := Escape(value);
    if tag == "msgctxt" {
      SingleLine(tag, value);
      text := tag + " " + Quoted(esc) + "\n";
      return;
    }
    if HasEscapedNewline(esc) || |esc| > 72 {
      var lines := [tag + " \"\""];
      ghost var bodies: seq<string> := [];
      var i := 0;
      NoChunks();
      assert esc[0..] == esc && [] + Chunks(esc) == Chunks(esc) && lines + [] == lines;
      while i < |esc|
        invariant 0 <= i <= |esc|
        invariant lines == [tag + " \"\""] + QuotedLines(bodies)
        invariant bodies + Chunks(esc[i..]) == Chunks(esc)
      {
        var end := ChunkEnd(esc, i);
        ChunksAdvance(esc, i, end, bodies);
        QuotedLinesAppend(bodies, esc[i..end]);
        lines := lines + [Quoted(esc[i..end])];
        bodies := bodies + [esc[i..end]];
        i := end;
      }
      assert esc[i..] == "" && bodies + [] == bodies;
      SeveralLines(tag, value);
      text := Unlines(lines);
      return;
    }
    SingleLine(tag, value);
    text := tag + " " + Quoted(esc) + "\n";
  }

  lemma NoChunks()
    ensures Chunks("") == [] && QuotedLines([]) == []
  {
  }

  // ------------------------------------------------------------ the lexemes

  /** A quoted lexeme's body, (?:[^"\\]|\\.)*, that stays on its line: no bare
      quote, and every backslash has its partner. */
  predicate IsBody(s: string)
    decreases |s|
  {
    if s == "" then true
    else if s[0] == '\\' then |s| >= 2 && s[1] != '\n' && IsBody(s[2..])
    else s[0] != '"' && s[0] != '\n' && IsBody(s[1..])
  }

  lemma {:induction false} EscapedIsBody(s: string)
    ensures IsBody(EscapeAll(s))
  {
    if s != "" {
      var rest := EscapeAll(s[1..]);
      EscapedIsBody(s[1..]);
      if |EscapeChar(s[0])| == 2 {
        assert (EscapeChar(s[0]) + rest)[2..] == rest;
      } else {
        assert (EscapeChar(s[0]) + rest)[1..] == rest;
      }
    }
  }

  /** A cut after a non-backslash, or after an even run of backslashes, falls between two lexeme characters. */
  lemma {:induction false} CutIsBetweenPairs(s: string, e: nat)
    requires IsBody(s) && e <= |s|
    requires e == |s| || (e > 0 && s[e - 1] != '\\') || (e % 2 == 0 && forall i :: 0 <= i < e ==> s[i] == '\\')
    ensures IsBody(s[..e]) && IsBody(s[e..])
    decreases e
  {
    if e == |s| {
      assert s[..e] == s;
    } else if e > 0 {
      var n := if s[0] == '\\' then 2 else 1;
      assert e >= n;
      CutIsBetweenPairs(s[n..], e - n);
      assert s[..e][n..] == s[n..][..e - n];
      assert s[e..] == s[n..][e - n..];
    }
  }

  /** The chunks lose nothing. */
  lemma {:induction false} ChunksConcatenate(esc: string)
    ensures Concat(Chunks(esc)) == esc
    decreases |esc|
  {
    if esc != "" {
      var e := CutPoint(esc);
      ChunksConcatenate(esc[e..]);
      assert esc == esc[..e] + esc[e..];
      assert Chunks(esc)[1..] == Chunks(esc[e..]);
    }
  }

  /** No chunk is empty, over-long or cut inside an escape pair. */
  lemma {:induction false} ChunksAreLexemes(esc: string, k: nat)
    requires IsBody(esc) && k < |Chunks(esc)|
    ensures 0 < |Chunks(esc)[k]| <= 70 && IsBody(Chunks(esc)[k])
    decreases |esc|
  {
    var e := CutPoint(esc);
    CutIsBetweenPairs(esc, e);
    if k > 0 {
      ChunksAreLexemes(esc[e..], k - 1);
    }
  }

  /** Every chunk is cut off what the chunks before it left. */
  lemma {:induction false} ChunksAreCuts(esc: string, k: nat)
    requires k < |Chunks(esc)|
    ensures var before := Concat(Chunks(esc)[..k]);
            && |before| < |esc| && esc[..|before|] == before
            && IsCut(esc[|before|..], |Chunks(esc)[k]|)
            && Chunks(esc)[k] == esc[|before|..][..|Chunks(esc)[k]|]
    decreases k
  {
    hide CutPoint, AllBackslashes;
    var e := CutPoint(esc);
    if k > 0 {
      ChunksAreCuts(esc[e..], k - 1);
      var before := Concat(Chunks(esc[e..])[..k - 1]);
      assert Chunks(esc)[..k] == [esc[..e]] + Chunks(esc[e..])[..k - 1];
      assert Concat(Chunks(esc)[..k]) == esc[..e] + before by {
        assert Chunks(esc)[..k][1..] == Chunks(esc[e..])[..k - 1];
      }
      assert esc[e..][|before|..] == esc[e + |before|..];
      assert esc[..e + |before|] == esc[..e] + esc[e..][..|before|];
    } else {
      assert Chunks(esc)[..0] == [] && esc[0..] == esc;
    }
  }

  // ------------------------------------------- how long, and over how many lines

  /** The characters that escape writes as two. */
  predicate IsSpecial(c: char)
  {
    c in {'\\', '"', '\n', '\t', '\r'}
  }

  function Specials(s: string): nat
  {
    if s == "" then 0 else (if IsSpecial(s[0]) then 1 else 0) + Specials(s[1..])
  }

  /** An escaped string has one character more for each special one, and no line break or tab of its own. */
  lemma {:induction false} EscapedShape(s: string)
    ensures |EscapeAll(s)| == |s| + Specials(s)
    ensures '\n' !in EscapeAll(s) && '\r' !in EscapeAll(s) && '\t' !in EscapeAll(s)
  {
    if s != "" {
      EscapedShape(s[1..]);
    }
  }

  predicate BackslashBeforeN(s: string)
  {
    exists i :: 0 <= i < |s| - 1 && s[i] == '\\' && s[i + 1] == 'n'
  }

  lemma NewlineInConcat(a: string, b: string)
    requires a != "" && b != ""
    ensures HasEscapedNewline(a + b)
            <==> HasEscapedNewline(a) || HasEscapedNewline(b) || (a[|a| - 1] == '\\' && b[0] == 'n')
  {
    var s, n := a + b, |a|;
    assert forall i :: 0 <= i < n ==> s[i] == a[i];
    assert forall i :: 0 <= i < |b| ==> s[n + i] == b[i];
    if i :| 0 <= i < |s| - 1 && s[i] == '\\' && s[i + 1] == 'n' {
      if i >= n {
        assert b[i - n] == '\\' && b[i - n + 1] == 'n';
      } else if i < n - 1 {
        assert a[i] == '\\' && a[i + 1] == 'n';
      }
    }
    if i :| 0 <= i < |b| - 1 && b[i] == '\\' && b[i + 1] == 'n' {
      assert s[n + i] == '\\' && s[n + i + 1] == 'n';
    }
  }

  lemma NewlineInOne(c: char)
    ensures HasEscapedNewline(EscapeChar(c)) <==> c == '\n'
    ensures EscapeChar(c) != "" && (EscapeChar(c)[|EscapeChar(c)| - 1] == '\\' <==> c == '\\')
    ensures EscapeChar(c)[0] == 'n' <==> c == 'n'
  {
    if c == '\n' {
      assert EscapeChar(c)[0] == '\\' && EscapeChar(c)[1] == 'n';
    }
  }

  lemma BackslashAhead(c: char, s: string)
    ensures BackslashBeforeN([c] + s) <==> BackslashBeforeN(s) || (c == '\\' && s != "" && s[0] == 'n')
  {
    var t := [c] + s;
    assert forall i :: 0 <= i < |s| ==> t[i + 1] == s[i];
    if i :| 0 <= i < |t| - 1 && t[i] == '\\' && t[i + 1] == 'n' {
      if i > 0 {
        assert s[i - 1] == '\\' && s[i] == 'n';
      }
    }
    if c == '\\' && s != "" && s[0] == 'n' {
      assert t[0] == '\\' && t[1] == 'n';
    }
    if i :| 0 <= i < |s| - 1 && s[i] == '\\' && s[i + 1] == 'n' {
      assert t[i + 1] == '\\' && t[i + 2] == 'n';
    }
  }

  /** "\\n" stands in an escaped string for a newline, or for a backslash and an n. */
  lemma {:induction false} EscapedNewlineMeans(s: string)
    ensures HasEscapedNewline(EscapeAll(s)) <==> '\n' in s || BackslashBeforeN(s)
  {
    hide HasEscapedNewline, BackslashBeforeN, EscapeChar;
    if s == "" {
      NoNewlineInEmpty();
    } else {
      var rest := s[1..];
      EscapedNewlineMeans(rest);
      NewlineInOne(s[0]);
      BackslashAhead(s[0], rest);
      assert s == [s[0]] + rest;
      assert EscapeAll(s) == EscapeChar(s[0]) + EscapeAll(rest);
      if rest == "" {
        NoNewlineInEmpty();
        assert EscapeAll(rest) == "" && EscapeAll(s) == EscapeChar(s[0]);
      } else {
        NewlineInOne(rest[0]);
        assert EscapeAll(rest) == EscapeChar(rest[0]) + EscapeAll(rest[1..]);
        NewlineInConcat(EscapeChar(s[0]), EscapeAll(rest));
      }
    }
  }

  lemma NoNewlineInEmpty()
    ensures !HasEscapedNewline(EscapeAll("")) && !BackslashBeforeN("")
  {
  }

  predicate NeedsSeveralLines(tag: string, value: string)
  {
    tag != "msgctxt" && ('\n' in value || BackslashBeforeN(value) || |value| + Specials(value) > 72)
  }

  lemma MultilineExactly(tag: string, value: string)
    ensures Multiline(tag, EscapeAll(value)) <==> NeedsSeveralLines(tag, value)
  {
    hide HasEscapedNewline, BackslashBeforeN, EscapeAll, Specials;
    EscapedShape(value);
    EscapedNewlineMeans(value);
  }

  /** A field goes over several lines exactly if it is no msgctxt and its value holds a newline, or a backslash
      before an n, or is longer than 72 with its specials counted twice; else it is one line. */
  lemma PrintedOverSeveralLines(tag: string, value: string)
    ensures FieldText(tag, value)
            == if NeedsSeveralLines(tag, value)
               then (tag + " \"\"") + "\n" + Concat(TerminatedLines(Chunks(EscapeAll(value))))
               else tag + " " + Quoted(EscapeAll(value)) + "\n"
  {
    hide Multiline, NeedsSeveralLines, EscapeAll, Chunks, Escape, FieldText, Unlines, QuotedLines, Concat, TerminatedLines;
    EscapeIsPerCharacter(value);
    MultilineExactly(tag, value);
    if Multiline(tag, Escape(value)) {
      SeveralLines(tag, value);
      FirstLine(tag + " \"\"", QuotedLines(Chunks(Escape(value))));
      UnlinesIsConcat(Chunks(Escape(value)));
    } else {
      SingleLine(tag, value);
    }
  }

  lemma FirstLine(first: string, lines: seq<string>)
    ensures Unlines([first] + lines) == first + "\n" + Unlines(lines)
  {
    assert ([first] + lines)[1..] == lines;
  }

  lemma PiecesAreLexemes(tag: string, value: string)
    ensures Concat(Pieces(tag, value)) == Escape(value)
    ensures forall c :: c in Pieces(tag, value) ==> IsBody(c)
  {
    var esc := Escape(value);
    EscapeIsPerCharacter(value);
    EscapedIsBody(value);
    ChunksConcatenate(esc);
    forall k | 0 <= k < |Chunks(esc)|
      ensures IsBody(Chunks(esc)[k])
    {
      ChunksAreLexemes(esc, k);
    }
    if Multiline(tag, esc) {
      assert ([""] + Chunks(esc))[1..] == Chunks(esc);
    } else {
      assert Concat([esc]) == esc + Concat([]);
    }
  }

  // ----------------------------------------------------------------- reading

  /** The one-letter escapes both readers know. */
  function Letter(n: char): Option<char>
  {
    match n
    case 'n' => Some('\n')
    case 't' => Some('\t')
    case 'r' => Some('\r')
    case '\\' => Some('\\')
    case '"' => Some('"')
    case 'a' => Some('\U{07}')
    case 'b' => Some('\U{08}')
    case 'f' => Some('\U{0C}')
    case 'v' => Some('\U{0B}')
    case _ => None
  }

  /** The letters for the control characters 7 to 13, in that order, and the two characters that stand for themselves. */
  lemma LetterTable(n: char)
    ensures forall i :: 0 <= i < 7 ==> Letter("abtnvfr"[i]) == Some((7 + i) as char)
    ensures n in {'\\', '"'} ==> Letter(n) == Some(n)
    ensures Letter(n) == None <==> n !in "abtnvfr\\\""
  {
    assert forall i :: 0 <= i < 7 ==> "abtnvfr"[i] in "abtnvfr\\\"";
  }

  /** chr(int(two characters, 16)); None where Python raises. */
  type HexReader = (char, char) -> Option<char>

  function Cons(c: char, rest: Option<string>): Option<string>
  {
    match rest case None => None case Some(s) => Some([c] + s)
  }

  /** unescape as a recursion; None where the hexadecimal reader raises. */
  function Unescaped(hex: HexReader, s: string): Option<string>
    decreases |s|
  {
    if s == "" then Some("")
    else if s[0] == '\\' && |s| >= 2 then
      if Letter(s[1]).Some? then Cons(Letter(s[1]).value, Unescaped(hex, s[2..]))
      else if s[1] == 'x' && |s| > 3 then
        match hex(s[2], s[3]) {
          case None => None
          case Some(c) => Cons(c, Unescaped(hex, s[4..]))
        }
      else Cons(s[1], Unescaped(hex, s[2..]))
    else Cons(s[0], Unescaped(hex, s[1..]))
  }

  /** out, then what is still to be read. */
  function Resume(out: string, rest: Option<string>): Option<string>
  {
    match rest case None => None case Some(s) => Some(out + s)
  }

  lemma ResumeCons(out: string, c: char, rest: Option<string>)
    ensures Resume(out, Cons(c, rest)) == Resume(out + [c], rest)
  {
    if rest.Some? {
      assert out + ([c] + rest.value) == out + [c] + rest.value;
    }
  }

  /** The index loop of unescape. */
  method Unescape(hex: HexReader, s: string) returns (r: Option<string>)
    ensures r == Unescaped(hex, s)
  {
    var out := "";
    var i := 0;
    assert s[0..] == s;
    assert forall rest: string :: "" + rest == rest;
    while i < |s|
      invariant 0 <= i <= |s|
      invariant Resume(out, Unescaped(hex, s[i..])) == Unescaped(hex, s)
    {
      ghost var rest := s[i..];
      if s[i] == '\\' && i + 1 < |s| {
        var n := s[i + 1];
        assert rest[2..] == s[i + 2..];
        if Letter(n).Some? {
          ResumeCons(out, Letter(n).value, Unescaped(hex, s[i + 2..]));
          out := out + [Letter(n).value];
          i := i + 2;
          continue;
        }
        if n == 'x' && i + 3 < |s| {
          var c := hex(s[i + 2], s[i + 3]);
          if c == None {
            return None;
          }
          assert rest[4..] == s[i + 4..];
          ResumeCons(out, c.value, Unescaped(hex, s[i + 4..]));
          out := out + [c.value];
          i := i + 4;
          continue;
        }
        ResumeCons(out, n, Unescaped(hex, s[i + 2..]));
        out := out + [n];
        i := i + 2;
        continue;
      }
      assert rest[1..] == s[i + 1..];
      ResumeCons(out, s[i], Unescaped(hex, s[i + 1..]));
      out := out + [s[i]];
      i := i + 1;
    }
    assert s[i..] == "" && out + "" == out;
    r := Some(out);
  }

  lemma UnescapeOne(hex: HexReader, c: char, rest: string)
    ensures Unescaped(hex, EscapeChar(c) + rest) == Cons(c, Unescaped(hex, rest))
  {
    var esc := EscapeChar(c);
    assert (esc + rest)[|esc|..] == rest;
  }

  lemma {:induction false} UnescapeUndoesEscape(hex: HexReader, value: string)
    ensures Unescaped(hex, EscapeAll(value)) == Some(value)
  {
    if value != "" {
      UnescapeUndoesEscape(hex, value[1..]);
      UnescapeOne(hex, value[0], EscapeAll(value[1..]));
      assert [value[0]] + value[1..] == value;
    }
  }

  /** The body between the quotes of a line that is one quoted lexeme. */
  function LineBody(line: string): Option<string>
  {
    if |line| >= 3 && line[0] == '"' && line[|line| - 2] == '"' && line[|line| - 1] == '\n' && IsBody(line[1..|line| - 2])
    then Some(line[1..|line| - 2]) else None
  }

  function LineBodies(lines: seq<string>): Option<seq<string>>
  {
    if lines == [] then Some([])
    else
      match (LineBody(lines[0]), LineBodies(lines[1..]))
      case (Some(body), Some(rest)) => Some([body] + rest)
      case _ => None
  }

  /** parse_pot on one field: the tag, a lexeme, continuation lexemes one to a
      line; unescape runs on the concatenation. */
  function ReadPot(hex: HexReader, tag: string, text: string): Option<string>
  {
    if |text| <= |tag| || text[..|tag| + 1] != tag + " " then None
    else
      match LineBodies(Lines(text[|tag| + 1..], Newlines))
      case None => None
      case Some(bodies) => Unescaped(hex, Concat(bodies))
  }

  /** The closing quote of the lexeme whose body starts at i; |s| when there is none. */
  function BodyEnd(s: string, i: nat): (e: nat)
    requires i <= |s|
    ensures i <= e <= |s|
    decreases |s| - i
  {
    if i == |s| || s[i] == '"' then i
    else if s[i] == '\\' then
      if i + 1 < |s| && s[i + 1] != '\n' then BodyEnd(s, i + 2) else |s|
    else BodyEnd(s, i + 1)
  }

  /** QUOTED_RE.findall from position i on. */
  function QuotedParts(s: string, i: nat): seq<string>
    requires i <= |s|
    decreases |s| - i
  {
    if i == |s| then []
    else if s[i] != '"' then QuotedParts(s, i + 1)
    else
      var e := BodyEnd(s, i + 1);
      if e < |s| then [s[i + 1..e]] + QuotedParts(s, e + 1) else QuotedParts(s, i + 1)
  }

  /** PO_ESCAPE_RE.sub on one part. */
  function DecodePart(s: string): string
    decreases |s|
  {
    if s == "" then ""
    else if s[0] == '\\' && |s| >= 2 then
      [match Letter(s[1]) case Some(c) => c case None => s[1]] + DecodePart(s[2..])
    else [s[0]] + DecodePart(s[1..])
  }

  /** Nowhere does a backslash that is not itself escaped stand before an x. */
  predicate NoHexEscape(s: string)
    decreases |s|
  {
    if |s| < 2 then true
    else if s[0] == '\\' then s[1] != 'x' && NoHexEscape(s[2..])
    else NoHexEscape(s[1..])
  }

  /** The two readers decode alike whatever holds no hexadecimal escape, printed by this program or not. */
  lemma {:induction false} ReadersAgree(hex: HexReader, s: string)
    requires NoHexEscape(s)
    ensures Unescaped(hex, s) == Some(DecodePart(s))
    decreases |s|
  {
    hide Letter;
    if s == "" {
    } else if |s| >= 2 && s[0] == '\\' {
      ReadersAgree(hex, s[2..]);
    } else {
      ReadersAgree(hex, s[1..]);
    }
  }

  function DecodeParts(parts: seq<string>): string
  {
    if parts == [] then "" else DecodePart(parts[0]) + DecodeParts(parts[1..])
  }

  function JoinQuoted(blob: string): string
  {
    DecodeParts(QuotedParts(blob, 0))
  }

  // --------------------------------------------------- what the readers find

  function TerminatedLines(bodies: seq<string>): seq<string>
  {
    seq(|bodies|, i requires 0 <= i < |bodies| => Quoted(bodies[i]) + "\n")
  }

  lemma {:induction false} UnlinesIsConcat(bodies: seq<string>)
    ensures Unlines(QuotedLines(bodies)) == Concat(TerminatedLines(bodies))
  {
    if bodies != [] {
      UnlinesIsConcat(bodies[1..]);
      assert QuotedLines(bodies)[1..] == QuotedLines(bodies[1..]);
      assert TerminatedLines(bodies)[1..] == TerminatedLines(bodies[1..]);
    }
  }

  /** The printed text after the tag and its blank. */
  lemma FieldBlob(tag: string, value: string)
    ensures FieldText(tag, value) == tag + " " + Concat(TerminatedLines(Pieces(tag, value)))
  {
    var bodies := Pieces(tag, value);
    var first := tag + " " + Quoted(bodies[0]);
    UnlinesIsConcat(bodies[1..]);
    assert ([first] + QuotedLines(bodies[1..]))[1..] == QuotedLines(bodies[1..]);
    assert TerminatedLines(bodies)[1..] == TerminatedLines(bodies[1..]);
    assert first + "\n" == tag + " " + (Quoted(bodies[0]) + "\n");
  }

  lemma {:induction false} NoNewlineInBody(s: string)
    requires IsBody(s)
    ensures '\n' !in s
    decreases |s|
  {
    if s != "" {
      var n := if s[0] == '\\' then 2 else 1;
      NoNewlineInBody(s[n..]);
      assert s == s[..n] + s[n..];
    }
  }

  lemma LexemeLinesAreWellSplit(bodies: seq<string>)
    requires forall c :: c in bodies ==> IsBody(c)
    ensures WellSplit(TerminatedLines(bodies), Newlines)
  {
    forall i | 0 <= i < |bodies|
      ensures IsLine(TerminatedLines(bodies)[i], Newlines) && Terminated(TerminatedLines(bodies)[i], Newlines)
    {
      assert bodies[i] in bodies;
      NoNewlineInBody(bodies[i]);
    }
  }

  lemma {:induction false} LineBodiesOfLexemes(bodies: seq<string>)
    requires forall c :: c in bodies ==> IsBody(c)
    ensures LineBodies(TerminatedLines(bodies)) == Some(bodies)
  {
    if bodies == [] {
      assert TerminatedLines(bodies) == [];
    } else {
      var line := Quoted(bodies[0]) + "\n";
      assert TerminatedLines(bodies)[1..] == TerminatedLines(bodies[1..]);
      assert line[1..|line| - 2] == bodies[0];
      assert bodies[0] in bodies;
      LineBodiesOfLexemes(bodies[1..]);
      assert LineBody(line) == Some(bodies[0]);
      assert [bodies[0]] + bodies[1..] == bodies;
    }
  }

  /** The decoding in parse_pot gives back every value of a field, for every tag and however the hexadecimal
      escape is decoded. */
  lemma PotRoundTrip(hex: HexReader, tag: string, value: string)
    ensures ReadPot(hex, tag, FieldText(tag, value)) == Some(value)
  {
    var bodies := Pieces(tag, value);
    var text := FieldText(tag, value);
    FieldBlob(tag, value);
    PiecesAreLexemes(tag, value);
    LexemeLinesAreWellSplit(bodies);
    assert text[..|tag| + 1] == tag + " ";
    assert text[|tag| + 1..] == Concat(TerminatedLines(bodies));
    JoinThenSplit(TerminatedLines(bodies), Newlines);
    LineBodiesOfLexemes(bodies);
    EscapeIsPerCharacter(value);
    UnescapeUndoesEscape(hex, value);
  }

  /** What parse_pot makes of the msgctxt and msgid fields of an entry; an empty msgid is the catalogue's header. */
  datatype Entry = Unreadable | Dropped | Kept(msgctxt: Option<string>, msgid: string)

  function ReadEntry(hex: HexReader, ctxtField: Option<string>, idField: string): Entry
  {
    match ReadPot(hex, "msgid", idField)
    case None => Unreadable
    case Some(msgid) =>
      if msgid == "" then Dropped
      else
        match ctxtField
        case None => Kept(None, msgid)
        case Some(text) =>
          match ReadPot(hex, "msgctxt", text)
          case None => Unreadable
          case Some(ctxt) => Kept(Some(ctxt), msgid)
  }

  /** Every printed entry comes back with its context, except one whose msgid is empty, which is dropped. */
  lemma EntryRoundTrip(hex: HexReader, msgctxt: Option<string>, msgid: string)
    ensures var ctxtField := if msgctxt.Some? then Some(FieldText("msgctxt", msgctxt.value)) else None;
            ReadEntry(hex, ctxtField, FieldText("msgid", msgid))
            == if msgid == "" then Dropped else Kept(msgctxt, msgid)
  {
    hide ReadPot, FieldText;
    PotRoundTrip(hex, "msgid", msgid);
    if msgctxt.Some? {
      PotRoundTrip(hex, "msgctxt", msgctxt.value);
    }
  }

  lemma {:induction false} BodyEndsAtQuote(s: string, i: nat, e: nat)
    requires i <= e < |s| && s[e] == '"' && IsBody(s[i..e])
    ensures BodyEnd(s, i) == e
    decreases e - i
  {
    if i < e {
      var body := s[i..e];
      if s[i] == '\\' {
        assert body[1] == s[i + 1] && body[2..] == s[i + 2..e];
        BodyEndsAtQuote(s, i + 2, e);
      } else {
        assert body[1..] == s[i + 1..e];
        BodyEndsAtQuote(s, i + 1, e);
      }
    }
  }

  /** findall steps over one printed line, from i to beyond e. */
  lemma PartOfLexeme(text: string, i: nat, e: nat)
    requires i < e < |text| - 1 && text[i] == '"' && text[e] == '"' && text[e + 1] == '\n'
    requires IsBody(text[i + 1..e])
    ensures QuotedParts(text, i) == [text[i + 1..e]] + QuotedParts(text, e + 2)
  {
    BodyEndsAtQuote(text, i + 1, e);
  }

  lemma LexemeInText(text: string, i: nat, body: string, suffix: string)
    requires i <= |text| && text[i..] == Quoted(body) + "\n" + suffix
    ensures var e := i + 1 + |body|;
            && e + 2 <= |text| && text[i] == '"' && text[e] == '"' && text[e + 1] == '\n'
            && text[i + 1..e] == body && text[e + 2..] == suffix
  {
    var rest, n := text[i..], |body|;
    assert rest[0] == '"' && rest[n + 1] == '"' && rest[n + 2] == '\n';
    assert rest[1..n + 1] == body && rest[n + 3..] == suffix;
  }

  /** findall over printed lines finds exactly the printed bodies. */
  lemma {:induction false} PartsOfLexemes(text: string, i: nat, bodies: seq<string>)
    requires forall c :: c in bodies ==> IsBody(c)
    requires i <= |text| && text[i..] == Concat(TerminatedLines(bodies))
    ensures QuotedParts(text, i) == bodies
    decreases |bodies|
  {
    var lines := TerminatedLines(bodies);
    if bodies != [] {
      var body, rest, e := bodies[0], bodies[1..], i + 1 + |bodies[0]|;
      assert body in bodies;
      assert lines[1..] == TerminatedLines(rest);
      LexemeInText(text, i, body, Concat(lines[1..]));
      PartOfLexeme(text, i, e);
      PartsOfLexemes(text, e + 2, rest);
      assert bodies == [body] + rest;
    }
  }

  lemma {:induction false} DecodeAppend(a: string, b: string)
    requires IsBody(a)
    ensures DecodePart(a + b) == DecodePart(a) + DecodePart(b)
    decreases |a|
  {
    if a == "" {
      assert a + b == b;
    } else {
      var n := if a[0] == '\\' then 2 else 1;
      assert (a + b)[n..] == a[n..] + b;
      DecodeAppend(a[n..], b);
    }
  }

  lemma {:induction false} DecodeWhole(parts: seq<string>)
    requires forall c :: c in parts ==> IsBody(c)
    ensures DecodeParts(parts) == DecodePart(Concat(parts))
  {
    if parts != [] {
      assert parts[0] in parts;
      DecodeAppend(parts[0], Concat(parts[1..]));
      DecodeWhole(parts[1..]);
    }
  }

  lemma DecodeOne(c: char, rest: string)
    ensures DecodePart(EscapeChar(c) + rest) == [c] + DecodePart(rest)
  {
    var esc := EscapeChar(c);
    assert (esc + rest)[|esc|..] == rest;
  }

  lemma {:induction false} DecodeUndoesEscape(value: string)
    ensures DecodePart(EscapeAll(value)) == value
  {
    if value != "" {
      DecodeUndoesEscape(value[1..]);
      DecodeOne(value[0], EscapeAll(value[1..]));
      assert [value[0]] + value[1..] == value;
    }
  }

  /** join_quoted, which decodes every chunk on its own, gives back every value too. */
  lemma JoinQuotedRoundTrip(tag: string, value: string)
    ensures |tag| < |FieldText(tag, value)|
    ensures JoinQuoted(FieldText(tag, value)[|tag| + 1..]) == value
  {
    var bodies := Pieces(tag, value);
    var blob := Concat(TerminatedLines(bodies));
    FieldBlob(tag, value);
    PiecesAreLexemes(tag, value);
    assert FieldText(tag, value)[|tag| + 1..] == blob == blob[0..];
    PartsOfLexemes(blob, 0, bodies);
    DecodeWhole(bodies);
    EscapeIsPerCharacter(value);
    DecodeUndoesEscape(value);
  }
}
