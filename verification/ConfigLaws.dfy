/** The laws of set_option over two options and over two writes. */
module ConfigLaws {
  import opened Options
  import opened Text
  import opened ConfigEdit
  import opened ConfigLines
  import opened ConfigRewrite

  // -------------------------------------------------------- last write wins

  /** The case the editor's own next write damages: the line was inserted directly
      before an indented section header, which the value scan takes for a continuation. */
  predicate Swallows(lines: seq<string>, section: string, key: string)
  {
    var at := Locate(lines, section, key);
    && at.header < |lines| && at.key == at.end < |lines|
    && !Blank(lines[at.end - 1]) && Indented(lines[at.end])
  }

  /** front ends in the section's first occurrence, before its key. */
  predicate EndsInSection(front: seq<string>, section: string, key: string, h: nat)
  {
    && h < |front| && HeaderName(front[h]) == Some(section)
    && (forall n :: 0 <= n < h ==> HeaderName(front[n]) != Some(section))
    && (forall n :: h < n < |front| ==> HeaderName(front[n]) == None && !IsKeyLine(front[n], key))
  }

  lemma LocateIs(lines: seq<string>, section: string, key: string, h: nat, p: nat)
    requires p < |lines| && EndsInSection(lines[..p], section, key, h)
    requires HeaderName(lines[p]) == None && IsKeyLine(lines[p], key)
    ensures var at := Locate(lines, section, key); at.header == h < p && at.key == p < at.end
  {
    hide HeaderName, IsKeyLine, Locate;
    var at := Locate(lines, section, key);
    LocateFacts(lines, section, key);
    assert forall n :: 0 <= n < p ==> lines[..p][n] == lines[n];
    assert at.header == h;
    assert at.end > p;
    assert at.key == p;
  }

  lemma ValueEndShift(front: seq<string>, back: seq<string>, i: nat)
    requires i <= |back|
    ensures ValueEnd(front + back, |front| + i) == |front| + ValueEnd(back, i)
    decreases |back| - i
  {
    hide Indented;
    if i < |back| && Indented(back[i]) {
      ValueEndShift(front, back, i + 1);
    }
  }

  /** What the next write makes of the lines after the option's line. */
  function Settled(back: seq<string>): seq<string>
  {
    var m := ValueEnd(back, 0);
    CommentsIn(back[..m]) + back[m..]
  }

  lemma ReplacedMiddle(front: seq<string>, first: string, back: seq<string>, m: nat, line: string)
    requires m <= |back|
    ensures Replaced(front + [first] + back, |front|, |front| + 1 + m, line)
            == front + [line] + (CommentsIn(back[..m]) + back[m..])
  {
    hide CommentsIn;
    var lines, p := front + [first] + back, |front|;
    assert lines[..p] == front && lines[p + 1..p + 1 + m] == back[..m] && lines[p + 1 + m..] == back[m..];
  }

  lemma RewriteAgain(front: seq<string>, first: string, back: seq<string>, section: string, key: string, value: string, h: nat)
    requires EndsInSection(front, section, key, h)
    requires HeaderName(first) == None && IsKeyLine(first, key)
    ensures Rewritten(front + [first] + back, section, key, value)
            == front + [KeyLine(key, value)] + Settled(back)
  {
    hide HeaderName, IsKeyLine, Locate, KeyLine, Indented, CommentsIn, Replaced, EndsInSection;
    var lines, p, m := front + [first] + back, |front|, ValueEnd(back, 0);
    assert lines[..p] == front;
    LocateIs(lines, section, key, h, p);
    ValueEndShift(front + [first], back, 0);
    ReplacedMiddle(front, first, back, m, KeyLine(key, value));
  }

  lemma {:induction false} CommentsStay(kept: seq<string>)
    requires forall n :: 0 <= n < |kept| ==> IsIndentedComment(kept[n])
    ensures CommentsIn(kept) == kept
  {
    hide IsIndentedComment;
    if kept != [] {
      CommentsStay(kept[1..]);
    }
  }

  lemma {:induction false} OnlyComments(lines: seq<string>)
    ensures |CommentsIn(lines)| <= |lines|
    ensures lines != [] && !IsIndentedComment(lines[0]) ==> |CommentsIn(lines)| < |lines|
    ensures forall n :: 0 <= n < |CommentsIn(lines)| ==> IsIndentedComment(CommentsIn(lines)[n])
  {
    hide IsIndentedComment;
    if lines != [] {
      OnlyComments(lines[1..]);
      var kept := CommentsIn(lines[1..]);
      if IsIndentedComment(lines[0]) {
        assert CommentsIn(lines) == [lines[0]] + kept;
      } else {
        assert CommentsIn(lines) == kept;
      }
    }
  }

  lemma KeptSettles(kept: seq<string>, rest: seq<string>)
    requires forall n :: 0 <= n < |kept| ==> IsIndentedComment(kept[n])
    requires rest != [] ==> !Indented(rest[0])
    ensures Settled(kept + rest) == kept + rest
  {
    hide Indented, IsComment;
    var back := kept + rest;
    assert forall n :: 0 <= n < |kept| ==> back[n] == kept[n];
    ValueEndsAt(back, 0, |kept|);
    assert back[..|kept|] == kept && back[|kept|..] == rest;
    CommentsStay(kept);
  }

  lemma HeaderIsNoComment(line: string)
    requires HeaderName(line).Some?
    ensures !IsComment(line)
  {
    hide IsSpace;
    HeaderStartsWithBracket(line);
  }

  lemma BackSettles(lines: seq<string>, section: string, key: string)
    ensures var back := Back(lines, section, key);
            Settled(back) == back <==> !Swallows(lines, section, key)
  {
    hide HeaderName, IsKeyLine, Locate, Indented, IsComment, Blank, Settled, CommentsIn;
    var at, back := Locate(lines, section, key), Back(lines, section, key);
    LocateFacts(lines, section, key);
    if at.header == |lines| {
      KeptSettles([], []);
      assert [] + [] == back;
    } else if at.key < at.end {
      var q := ValueEnd(lines, at.key + 1);
      OnlyComments(lines[at.key + 1..q]);
      KeptSettles(CommentsIn(lines[at.key + 1..q]), lines[q..]);
    } else {
      InsertedBackSettles(lines, section, key);
    }
  }

  lemma SwallowedShrinks(back: seq<string>)
    requires back != [] && Indented(back[0]) && !IsComment(back[0])
    ensures |Settled(back)| < |back|
  {
    hide Indented, IsComment;
    var m := ValueEnd(back, 0);
    assert m > 0 && back[..m][0] == back[0];
    OnlyComments(back[..m]);
  }

  lemma BlankIsNotIndented(line: string)
    ensures Blank(line) ==> !Indented(line)
  {
    hide IsSpace;
  }

  lemma InsertedBackSettles(lines: seq<string>, section: string, key: string)
    requires var at := Locate(lines, section, key); at.header < |lines| && at.key == at.end
    ensures var back := lines[BlankStart(lines, Locate(lines, section, key).end)..];
            Settled(back) == back <==> !Swallows(lines, section, key)
  {
    hide HeaderName, IsKeyLine, Locate, IsComment, IsSpace, Indented, Blank, Settled, BlankStart;
    var at := Locate(lines, section, key);
    var b := BlankStart(lines, at.end);
    var back := lines[b..];
    LocateFacts(lines, section, key);
    if back == [] {
      KeptSettles([], back);
      assert [] + back == back;
    } else {
      BlankIsNotIndented(back[0]);
      if Indented(back[0]) {
        assert b == at.end;
        HeaderIsNoComment(lines[b]);
        SwallowedShrinks(back);
      } else {
        KeptSettles([], back);
        assert [] + back == back;
      }
    }
  }

  /** front of Rewritten: as Front, with the new header as one element. */
  function ListFront(lines: seq<string>, section: string, key: string): seq<string>
  {
    if Locate(lines, section, key).header == |lines| then TerminateLast(lines) + [NewHeader(section)]
    else Front(lines, section, key)
  }

  lemma ListParts(lines: seq<string>, section: string, key: string, value: string)
    ensures Rewritten(lines, section, key, value)
            == ListFront(lines, section, key) + [KeyLine(key, value)] + Back(lines, section, key)
  {
    hide HeaderName, IsKeyLine, Locate, KeyLine, Blank, Indented, CommentsIn, NewHeader;
    FileParts(lines, section, key, value);
    if Locate(lines, section, key).header == |lines| {
      var t, line := TerminateLast(lines), KeyLine(key, value);
      assert t + [NewHeader(section), line] == t + [NewHeader(section)] + [line] + [];
    }
  }

  lemma FrontEnds(lines: seq<string>, section: string, key: string) returns (h: nat)
    requires SaneSection(section)
    ensures EndsInSection(Front(lines, section, key), section, key, h)
  {
    hide HeaderName, IsKeyLine, Locate, SaneSection, Blank, Closed;
    var at := Locate(lines, section, key);
    LocateFacts(lines, section, key);
    h := at.header;
    if at.header == |lines| {
      ClosedHeaders(lines);
      WrittenHeader(section);
      NewlineIsNoHeader();
      h := |Closed(lines)| + 1;
    } else {
      InsertAfterHeader(lines, section, key);
    }
  }

  lemma ListFrontEnds(lines: seq<string>, section: string, key: string) returns (h: nat)
    requires SaneSection(section)
    ensures EndsInSection(ListFront(lines, section, key), section, key, h)
  {
    hide HeaderName, IsKeyLine, Locate, SaneSection, Front, NewHeader;
    if Locate(lines, section, key).header == |lines| {
      LocateFacts(lines, section, key);
      TerminatedHeaders(lines);
      WrittenHeader(section);
      h := |lines|;
    } else {
      h := FrontEnds(lines, section, key);
    }
  }

  lemma SameFront(front: seq<string>, line: string, a: seq<string>, b: seq<string>)
    ensures front + [line] + a == front + [line] + b <==> a == b
  {
    var n := |front| + 1;
    assert (front + [line] + a)[n..] == a && (front + [line] + b)[n..] == b;
  }

  /** On line lists: writing twice is writing the second value, in all three cases,
      exactly when no indented header directly follows the inserted line. */
  lemma LastWriteWins(lines: seq<string>, section: string, key: string, v1: string, v2: string)
    requires SaneSection(section) && SaneKey(key)
    ensures Rewritten(Rewritten(lines, section, key, v1), section, key, v2) == Rewritten(lines, section, key, v2)
            <==> !Swallows(lines, section, key)
  {
    hide HeaderName, IsKeyLine, Locate, KeyLine, Rewritten, Back, ListFront, Settled, SaneKey, SaneSection, Swallows;
    var front, back := ListFront(lines, section, key), Back(lines, section, key);
    ListParts(lines, section, key, v1);
    ListParts(lines, section, key, v2);
    WrittenLine(key, v1);
    var h := ListFrontEnds(lines, section, key);
    RewriteAgain(front, KeyLine(key, v1), back, section, key, v2, h);
    BackSettles(lines, section, key);
    SameFront(front, KeyLine(key, v2), Settled(back), back);
  }

  // --------------------------------------------- last write wins, in the file

  lemma {:induction false} ConcatLength(lines: seq<string>, i: nat, line: string)
    requires i <= |lines|
    ensures |Concat(Inserted(lines, i, line))| == |Concat(lines)| + |line|
  {
    ConcatAppend(lines[..i] + [line], lines[i..]);
    ConcatAppend(lines[..i], [line]);
    ConcatAppend(lines[..i], lines[i..]);
    ConcatShort(line, "");
    assert lines == lines[..i] + lines[i..];
  }

  /** A write that finds no line of the option to replace only adds text. */
  lemma MissingKeyGrows(lines: seq<string>, section: string, key: string, value: string)
    requires var at := Locate(lines, section, key); at.header < |lines| ==> at.key == at.end
    ensures |Concat(Rewritten(lines, section, key, value))| >= |Concat(lines)| + |KeyLine(key, value)|
  {
    hide HeaderName, IsKeyLine, Locate, Blank, Indented, KeyLine, NewHeader, Inserted;
    var at, line := Locate(lines, section, key), KeyLine(key, value);
    if at.header == |lines| {
      var t := TerminateLast(lines);
      ConcatAppend(t, [NewHeader(section), line]);
      ConcatShort(NewHeader(section), line);
      TerminateLastGrows(lines);
    } else {
      ConcatLength(lines, BlankStart(lines, at.end), line);
    }
  }

  lemma TerminateLastGrows(lines: seq<string>)
    ensures |Concat(TerminateLast(lines))| >= |Concat(lines)|
  {
    if lines != [] {
      var n := |lines| - 1;
      ConcatAppend(lines[..n], [lines[n]]);
      ConcatAppend(lines[..n], [lines[n] + "\n"]);
      ConcatShort(lines[n], "");
      ConcatShort(lines[n] + "\n", "");
      assert lines == lines[..n] + [lines[n]];
    }
  }

  /** After a glued write the next one finds no line to replace. */
  lemma GluedHasNoKey(lines: seq<string>, section: string, key: string, value: string)
    requires WellSplit(lines, Separators) && Sane(section, key, value) && Glues(lines, section, key)
    ensures var n := |lines| - 1;
            var glued := lines[..n] + [lines[n] + KeyLine(key, value)];
            var at := Locate(glued, section, key);
            at.header < |glued| ==> at.key == at.end
  {
    hide HeaderName, IsKeyLine, Locate, KeyLine, IsSpace, IsLine, Blank;
    var n, at := |lines| - 1, Locate(lines, section, key);
    var joined := lines[n] + KeyLine(key, value);
    var glued := lines[..n] + [joined];
    LocateFacts(lines, section, key);
    LocateFacts(glued, section, key);
    if at.header < n {
      GluedIsNotKeyLine(lines[n], key, value);
    }
    assert forall i :: 0 <= i < n ==> glued[i] == lines[i];
  }

  /** On files: the second of two writes wins exactly when the first neither glued its
      line to an unterminated one nor put it before an indented header. */
  lemma LastWriteWinsInFile(raw: string, section: string, key: string, v1: string, v2: string)
    requires Sane(section, key, v1) && Sane(section, key, v2)
    ensures SetOption(SetOption(raw, section, key, v1), section, key, v2) == SetOption(raw, section, key, v2)
            <==> !Glues(LinesOf(raw), section, key) && !Swallows(LinesOf(raw), section, key)
  {
    hide HeaderName, IsKeyLine, Locate, KeyLine, Rewritten, Lines, Glues, Swallows, SaneKey, SaneSection, OneLine,
         UniversalNewlines;
    var lines := LinesOf(raw);
    SplitIsLossless(UniversalNewlines(raw), Separators);
    if Glues(lines, section, key) {
      WrittenAsRead(raw, section, key, v1);
      GluedTwice(lines, section, key, v1, v2);
    } else {
      FileLines(raw, section, key, v1);
      SwallowedOrNot(raw, section, key, v1, v2);
    }
  }

  lemma GluedTwice(lines: seq<string>, section: string, key: string, v1: string, v2: string)
    requires WellSplit(lines, Separators) && Sane(section, key, v1) && Glues(lines, section, key)
    ensures var first := Lines(Concat(Rewritten(lines, section, key, v1)), Separators);
            Concat(Rewritten(first, section, key, v2)) != Concat(Rewritten(lines, section, key, v2))
  {
    hide HeaderName, IsKeyLine, Locate, KeyLine, Rewritten, Lines, Glues, SaneKey, SaneSection, OneLine;
    var n := |lines| - 1;
    var text1 := Concat(Rewritten(lines, section, key, v1));
    GluedLines(lines, section, key, v1);
    SplitIsLossless(text1, Separators);
    GluedHasNoKey(lines, section, key, v1);
    MissingKeyGrows(Lines(text1, Separators), section, key, v2);
    GluedRewrite(lines, section, key, v1);
    GluedRewrite(lines, section, key, v2);
    ConcatAppend(lines, [KeyLine(key, v1)]);
    ConcatAppend(lines, [KeyLine(key, v2)]);
    ConcatShort(KeyLine(key, v1), "");
    ConcatShort(KeyLine(key, v2), "");
    KeyLineNotEmpty(key, v1);
  }

  lemma KeyLineNotEmpty(key: string, value: string)
    ensures |KeyLine(key, value)| > 0
  {
  }

  lemma SwallowedOrNot(raw: string, section: string, key: string, v1: string, v2: string)
    requires Sane(section, key, v1) && Sane(section, key, v2) && !Glues(LinesOf(raw), section, key)
    ensures var first := AsFile(LinesOf(raw), section, key, v1);
            Concat(Rewritten(first, section, key, v2)) == SetOption(raw, section, key, v2)
            <==> !Swallows(LinesOf(raw), section, key)
  {
    hide HeaderName, IsKeyLine, Locate, KeyLine, Rewritten, Lines, Glues, Swallows, Front, Back, Settled, AsFile,
         SaneKey, SaneSection, OneLine, UniversalNewlines, IsLine, Terminated, Indented;
    var lines := LinesOf(raw);
    var front, back, line := Front(lines, section, key), Back(lines, section, key), KeyLine(key, v2);
    SplitIsLossless(UniversalNewlines(raw), Separators);
    FileParts(lines, section, key, v1);
    FileParts(lines, section, key, v2);
    WrittenLine(key, v1);
    var h := FrontEnds(lines, section, key);
    RewriteAgain(front, KeyLine(key, v1), back, section, key, v2, h);
    BackSettles(lines, section, key);
    SameText(lines, section, key, v2);
    BackWellSplit(lines, section, key);
    SettledText(front, line, back);
  }

  lemma {:induction false} CommentsAreShorter(lines: seq<string>)
    requires forall n :: 0 <= n < |lines| ==> lines[n] != ""
    ensures |Concat(CommentsIn(lines))| <= |Concat(lines)|
    ensures |Concat(CommentsIn(lines))| == |Concat(lines)| ==> CommentsIn(lines) == lines
  {
    hide IsIndentedComment;
    if lines != [] {
      CommentsAreShorter(lines[1..]);
      var kept := CommentsIn(lines[1..]);
      if IsIndentedComment(lines[0]) {
        assert CommentsIn(lines) == [lines[0]] + kept;
        assert ([lines[0]] + kept)[1..] == kept;
      } else {
        assert CommentsIn(lines) == kept;
      }
    }
  }

  lemma NoEmptyLine(lines: seq<string>)
    requires WellSplit(lines, Separators)
    ensures forall n :: 0 <= n < |lines| ==> lines[n] != ""
  {
    hide Ends, Terminated;
  }

  /** Dropping lines shortens the text, so the texts agree just when the lists do. */
  lemma SettledText(front: seq<string>, line: string, back: seq<string>)
    requires WellSplit(back, Separators)
    ensures Concat(front + [line] + Settled(back)) == Concat(front + [line] + back) <==> Settled(back) == back
  {
    hide IsIndentedComment, Terminated, IsLine, Concat, CommentsIn, Indented;
    var m := ValueEnd(back, 0);
    var dropped, rest := back[..m], back[m..];
    assert back == dropped + rest;
    ConcatAppend(front + [line], Settled(back));
    ConcatAppend(front + [line], back);
    ConcatAppend(CommentsIn(dropped), rest);
    ConcatAppend(dropped, rest);
    NoEmptyLine(back);
    CommentsAreShorter(dropped);
  }
}
