/** What set_option leaves alone: exactly when another option keeps its value, and the comments their text. */
module ConfigFrame {
  import opened Options
  import opened Text
  import opened ConfigEdit
  import opened ConfigLines
  import opened ConfigRewrite
  import opened ConfigLaws

  predicate Inert(lines: seq<string>, key: string, inSection: bool)
  {
    forall n :: 0 <= n < |lines| ==> HeaderName(lines[n]) == None && (inSection ==> !IsKeyLine(lines[n], key))
  }

  lemma MiddleSwap(pre: seq<string>, mid1: seq<string>, mid2: seq<string>, post: seq<string>, section: string, key: string)
    requires Inert(mid1, key, InSectionAfter(pre, section, false))
    requires Inert(mid2, key, InSectionAfter(pre, section, false))
    ensures Lookup(pre + mid1 + post, section, key, false) == Lookup(pre + mid2 + post, section, key, false)
  {
    hide HeaderName, IsKeyLine, Lookup, InSectionAfter;
    var inSection := InSectionAfter(pre, section, false);
    LookupInert(mid1, section, key, inSection);
    LookupInert(mid2, section, key, inSection);
    LookupAppend(pre + mid1, post, section, key, false);
    LookupAppend(pre, mid1, section, key, false);
    LookupAppend(pre + mid2, post, section, key, false);
    LookupAppend(pre, mid2, section, key, false);
  }

  lemma CommentIsInert(line: string, key: string)
    requires SaneKey(key) && IsComment(line)
    ensures HeaderName(line) == None && !IsKeyLine(line, key)
  {
    hide HeaderName, IsKeyLine, IsComment, SaneKey;
    if HeaderName(line).Some? {
      HeaderIsNoComment(line);
      assert false;
    }
    if IsKeyLine(line, key) {
      KeyLineStart(line, key);
      assert false;
    }
  }

  lemma OtherKey(line: string, key: string, other: string)
    requires SaneKey(key) && SaneKey(other) && IsKeyLine(line, key) && key != other
    ensures !IsKeyLine(line, other)
  {
    hide IsKeyLine, SaneKey;
    if IsKeyLine(line, other) {
      OneKeyPerLine(line, key, other);
      assert false;
    }
  }

  // ------------------------------------------------ the option's line replaced

  lemma WrittenIsInert(key: string, value: string, kept: seq<string>, key2: string, inSection: bool)
    requires SaneKey(key) && SaneKey(key2) && (inSection ==> key2 != key)
    requires forall n :: 0 <= n < |kept| ==> IsComment(kept[n])
    ensures Inert([KeyLine(key, value)] + kept, key2, inSection)
  {
    hide HeaderName, IsKeyLine, SaneKey, KeyLine, IsComment;
    var line := KeyLine(key, value);
    WrittenLine(key, value);
    if inSection {
      OtherKey(line, key, key2);
    }
    forall n | 0 <= n < |kept|
      ensures HeaderName(kept[n]) == None && !IsKeyLine(kept[n], key2)
    {
      CommentIsInert(kept[n], key2);
    }
  }

  /** pre, then lines that are silent about the option, then post. */
  lemma LookupPast(pre: seq<string>, mid: seq<string>, post: seq<string>, section: string, key: string)
    requires Inert(mid, key, InSectionAfter(pre, section, false))
    ensures Lookup(pre + mid + post, section, key, false)
            == (var first := Lookup(pre, section, key, false);
                if first.Some? then first else Lookup(post, section, key, InSectionAfter(pre, section, false)))
  {
    hide HeaderName, IsKeyLine, Lookup, InSectionAfter;
    LookupInert(mid, section, key, InSectionAfter(pre, section, false));
    LookupAppend(pre + mid, post, section, key, false);
    LookupAppend(pre, mid, section, key, false);
  }

  lemma OldReads(lines: seq<string>, section: string, key: string, section2: string, key2: string)
    requires var at := Locate(lines, section, key); at.header < |lines| && at.key < at.end
    requires SaneKey(key) && SaneKey(key2) && (section2 != section || key2 != key)
    ensures var p := Locate(lines, section, key).key;
            var first := Lookup(lines[..p], section2, key2, false);
            Lookup(lines, section2, key2, false)
            == if first.Some? then first else Lookup(lines[p + 1..], section2, key2, section == section2)
  {
    hide HeaderName, IsKeyLine, Lookup, InSectionAfter, SaneKey, Locate, Inert;
    var at := Locate(lines, section, key);
    var p := at.key;
    LocateFacts(lines, section, key);
    SectionInForce(lines, section, section2, at.header, p);
    OldLineIsInert(lines[p], key, key2, section == section2);
    LookupPast(lines[..p], [lines[p]], lines[p + 1..], section2, key2);
    assert lines == lines[..p] + [lines[p]] + lines[p + 1..];
  }

  lemma RewrittenIsReplaced(lines: seq<string>, section: string, key: string, value: string)
    requires var at := Locate(lines, section, key); at.header < |lines| && at.key < at.end
    ensures var p := Locate(lines, section, key).key;
            Rewritten(lines, section, key, value) == Replaced(lines, p, ValueEnd(lines, p + 1), KeyLine(key, value))
  {
    hide HeaderName, IsKeyLine, Locate, KeyLine, ValueEnd, Replaced, Indented, Inserted, BlankStart, TerminateLast, NewHeader;
  }

  lemma RewrittenInPlace(lines: seq<string>, section: string, key: string, value: string)
    requires var at := Locate(lines, section, key); at.header < |lines| && at.key < at.end
    ensures var p := Locate(lines, section, key).key;
            var q := ValueEnd(lines, p + 1);
            Rewritten(lines, section, key, value)
            == lines[..p] + ([KeyLine(key, value)] + CommentsIn(lines[p + 1..q])) + lines[q..]
  {
    hide HeaderName, IsKeyLine, Locate, KeyLine, ValueEnd, CommentsIn, Indented, Rewritten;
    var p := Locate(lines, section, key).key;
    var q := ValueEnd(lines, p + 1);
    RewrittenIsReplaced(lines, section, key, value);
    Regroup(lines[..p], [KeyLine(key, value)], CommentsIn(lines[p + 1..q]), lines[q..]);
  }

  lemma NewReads(lines: seq<string>, section: string, key: string, value: string, section2: string, key2: string)
    requires var at := Locate(lines, section, key); at.header < |lines| && at.key < at.end
    requires SaneKey(key) && SaneKey(key2) && (section2 != section || key2 != key)
    ensures var p := Locate(lines, section, key).key;
            var first := Lookup(lines[..p], section2, key2, false);
            Lookup(Rewritten(lines, section, key, value), section2, key2, false)
            == if first.Some? then first else Lookup(lines[ValueEnd(lines, p + 1)..], section2, key2, section == section2)
  {
    hide HeaderName, IsKeyLine, Lookup, InSectionAfter, SaneKey, KeyLine, Locate, Inert, ValueEnd, IsComment, Indented, CommentsIn,
         Rewritten;
    var at, line := Locate(lines, section, key), KeyLine(key, value);
    var p, q := at.key, ValueEnd(lines, at.key + 1);
    var pre, kept, post := lines[..p], CommentsIn(lines[p + 1..q]), lines[q..];
    LocateFacts(lines, section, key);
    SectionInForce(lines, section, section2, at.header, p);
    OnlyComments(lines[p + 1..q]);
    WrittenIsInert(key, value, kept, key2, section == section2);
    LookupPast(pre, [line] + kept, post, section2, key2);
    RewrittenInPlace(lines, section, key, value);
  }

  /** Before the write another option is looked up past the old line, after it past the old value's end. */
  lemma ReplacedReads(lines: seq<string>, section: string, key: string, value: string, section2: string, key2: string)
    requires var at := Locate(lines, section, key); at.header < |lines| && at.key < at.end
    requires SaneKey(key) && SaneKey(key2) && (section2 != section || key2 != key)
    ensures var p := Locate(lines, section, key).key;
            var first, here := Lookup(lines[..p], section2, key2, false), section == section2;
            && Lookup(lines, section2, key2, false)
               == (if first.Some? then first else Lookup(lines[p + 1..], section2, key2, here))
            && Lookup(Rewritten(lines, section, key, value), section2, key2, false)
               == (if first.Some? then first else Lookup(lines[ValueEnd(lines, p + 1)..], section2, key2, here))
  {
    hide HeaderName, IsKeyLine, Lookup, SaneKey, Locate, Rewritten, ValueEnd;
    OldReads(lines, section, key, section2, key2);
    NewReads(lines, section, key, value, section2, key2);
  }

  lemma OldLineIsInert(line: string, key: string, key2: string, inSection: bool)
    requires SaneKey(key) && SaneKey(key2) && (inSection ==> key2 != key)
    requires HeaderName(line) == None && IsKeyLine(line, key)
    ensures Inert([line], key2, inSection)
  {
    hide HeaderName, IsKeyLine, SaneKey;
    if inSection {
      OtherKey(line, key, key2);
    }
  }

  // ----------------------------------------------------- the option's line added

  lemma InsertedFrame(lines: seq<string>, section: string, key: string, value: string, section2: string, key2: string)
    requires var at := Locate(lines, section, key); at.header < |lines| && at.key == at.end
    requires SaneKey(key) && SaneKey(key2) && (section2 != section || key2 != key)
    ensures Lookup(Rewritten(lines, section, key, value), section2, key2, false) == Lookup(lines, section2, key2, false)
  {
    hide HeaderName, IsKeyLine, Lookup, InSectionAfter, SaneKey, KeyLine, Locate, Blank;
    var at, line := Locate(lines, section, key), KeyLine(key, value);
    var b := BlankStart(lines, at.end);
    var inSection := InSectionAfter(lines[..b], section2, false);
    LocateFacts(lines, section, key);
    InsertAfterHeader(lines, section, key);
    SectionInForce(lines, section, section2, at.header, b);
    WrittenLine(key, value);
    if inSection {
      OtherKey(line, key, key2);
    }
    assert Inert([line], key2, inSection) && Inert([], key2, inSection);
    MiddleSwap(lines[..b], [line], [], lines[b..], section2, key2);
    assert lines == lines[..b] + [] + lines[b..];
  }

  lemma NewlineOnlyIsInert(key: string)
    requires SaneKey(key)
    ensures HeaderName("\n") == None && !IsKeyLine("\n", key)
  {
    hide HeaderName;
    NewlineIsNoHeader();
  }

  /** A newline at the end of the last line, or as a line of its own, is nothing to the reader. */
  lemma LookupClosed(lines: seq<string>, section: string, key: string, inSection: bool)
    requires SaneKey(key)
    ensures ValueIn(Closed(lines), section, key, inSection) == ValueIn(lines, section, key, inSection)
  {
    hide HeaderName, IsKeyLine, SaneKey, ValueOf, Lookup, InSectionAfter, EndsWithNewline, Terminated;
    if lines != [] {
      var n := |lines| - 1;
      var last, here := lines[n], InSectionAfter(lines[..n], section, inSection);
      assert lines == lines[..n] + [last];
      LookupAppend(lines[..n], [last], section, key, inSection);
      LookupAppend(lines[..n], [last + "\n"], section, key, inSection);
      LookupTerminated(last, section, key, here);
      LookupAppend(lines, ["\n"], section, key, inSection);
      NewlineOnlyIsInert(key);
      LookupOne("\n", section, key, InSectionAfter(lines, section, inSection));
    }
  }

  lemma LookupTerminated(last: string, section: string, key: string, inSection: bool)
    requires SaneKey(key)
    ensures ValueIn([last + "\n"], section, key, inSection) == ValueIn([last], section, key, inSection)
  {
    hide HeaderName, IsKeyLine, SaneKey, ValueOf;
    TrailingNewline(last, key);
    if IsKeyLine(last, key) {
      KeyLineStart(last, key);
    }
    assert [last][1..] == [] && [last + "\n"][1..] == [];
  }

  /** A new section at the end of the file holds the new option only. */
  lemma NewSectionFrame(lines: seq<string>, section: string, key: string, value: string, section2: string, key2: string)
    requires Locate(lines, section, key).header == |lines|
    requires SaneSection(section) && SaneKey(key) && SaneKey(key2) && (section2 != section || key2 != key)
    ensures ReadValue(AsFile(lines, section, key, value), section2, key2) == ReadValue(lines, section2, key2)
  {
    hide HeaderName, IsKeyLine, SaneKey, SaneSection, KeyLine, Locate, ValueOf, Closed;
    var t, header, line := Closed(lines), "[" + section + "]\n", KeyLine(key, value);
    var tail := ["\n", header, line];
    LookupClosed(lines, section2, key2, false);
    LookupAppend(t, tail, section2, key2, false);
    WrittenHeader(section);
    WrittenLine(key, value);
    NewlineOnlyIsInert(key2);
    if section2 == section {
      OtherKey(line, key, key2);
    }
    var inSection := InSectionAfter(t, section2, false);
    assert tail[1..] == [header, line] && [header, line][1..] == [line];
    assert Lookup(tail, section2, key2, inSection) == Lookup([header, line], section2, key2, inSection);
    assert Lookup([header, line], section2, key2, inSection) == Lookup([line], section2, key2, section == section2);
    LookupOne(line, section2, key2, section == section2);
  }

  // ------------------------------------------------------ the line glued to another

  /** The characters of a text that are not blanks. */
  function Ink(s: string): nat
  {
    if s == "" then 0 else (if IsSpace(s[0]) then 0 else 1) + Ink(s[1..])
  }

  lemma {:induction false} InkAppend(a: string, b: string)
    ensures Ink(a + b) == Ink(a) + Ink(b)
  {
    hide IsSpace;
    if a == "" {
      assert a + b == b;
    } else {
      assert (a + b)[0] == a[0] && (a + b)[1..] == a[1..] + b;
      InkAppend(a[1..], b);
    }
  }

  lemma {:induction false} BlankHasNoInk(s: string)
    requires Blank(s)
    ensures Ink(s) == 0
  {
    hide IsSpace;
    if s != "" {
      BlankHasNoInk(s[1..]);
    }
  }

  lemma {:induction false} InkLStrip(s: string)
    ensures Ink(LStrip(s)) == Ink(s)
  {
    hide IsSpace;
    if s != "" && IsSpace(s[0]) {
      InkLStrip(s[1..]);
    }
  }

  lemma InkStrip(s: string)
    ensures Ink(Strip(s)) == Ink(s)
  {
    hide IsSpace, Ink;
    var t := LStrip(s);
    var r := RStrip(t);
    InkLStrip(s);
    InkAppend(r, t[|r|..]);
    BlankHasNoInk(t[|r|..]);
    assert t == r + t[|r|..];
  }

  /** A value with more written after it is another value. */
  lemma LongerValueDiffers(line: string, tail: string)
    requires '=' in line && Ink(tail) > 0
    ensures ValueOf(line + tail) != ValueOf(line)
  {
    hide IsSpace, Strip, AfterEquals;
    AfterEqualsTail(line, tail);
    InkAppend(AfterEquals(line), tail);
    InkStrip(AfterEquals(line));
    InkStrip(AfterEquals(line) + tail);
  }

  lemma KeyLineHasInk(key: string, value: string)
    ensures Ink(KeyLine(key, value)) > 0
  {
    var rest := " " + value + "\n";
    assert KeyLine(key, value) == (key + " ") + ("=" + rest);
    InkAppend(key + " ", "=" + rest);
    assert ("=" + rest)[0] == '=';
  }

  lemma StillKeyLine(last: string, tail: string, key: string)
    requires IsKeyLine(last, key)
    ensures IsKeyLine(last + tail, key)
  {
    hide IsSpace;
    var i, j :| 0 <= i <= j < |last| && KeyAt(last, key, i, j);
    KeyAtInPrefix(last + tail, last, key, i, j);
  }

  lemma KeyLineIsNoHeader(line: string, key: string)
    requires SaneKey(key) && IsKeyLine(line, key)
    ensures HeaderName(line) == None && '=' in line
  {
    hide IsKeyLine;
    KeyLineStart(line, key);
    if HeaderName(line).Some? {
      HeaderStartsWithBracket(line);
      assert false;
    }
  }

  lemma ValueInOne(line: string, section: string, key: string, inSection: bool)
    requires SaneKey(key)
    ensures ValueIn([line], section, key, inSection)
            == if inSection && IsKeyLine(line, key) then Some(ValueOf(line)) else None
  {
    hide HeaderName, IsKeyLine, SaneKey, ValueOf;
    if inSection && IsKeyLine(line, key) {
      KeyLineIsNoHeader(line, key);
      assert Lookup([line], section, key, inSection) == Some([line][0]);
    } else {
      LookupOne(line, section, key, inSection);
    }
  }

  /** Gluing a line to the last one changes an option there exactly if the joined line reads as that option's. */
  lemma GluedLast(last: string, tail: string, section: string, key: string, inSection: bool)
    requires SaneKey(key) && Ink(tail) > 0
    ensures ValueIn([last + tail], section, key, inSection) == ValueIn([last], section, key, inSection)
            <==> !(inSection && IsKeyLine(last + tail, key))
  {
    hide HeaderName, IsKeyLine, SaneKey, ValueOf, Ink, Lookup;
    ValueInOne(last, section, key, inSection);
    ValueInOne(last + tail, section, key, inSection);
    if IsKeyLine(last, key) {
      StillKeyLine(last, tail, key);
      KeyLineIsNoHeader(last, key);
      LongerValueDiffers(last, tail);
    }
  }

  lemma BracketIsNoKey(header: string, tail: string, key: string)
    requires SaneKey(key) && HeaderName(header).Some?
    ensures !IsKeyLine(header + tail, key)
  {
    hide IsKeyLine, IsSpace;
    HeaderStartsWithBracket(header);
    LStripPrefix(header, tail);
    if IsKeyLine(header + tail, key) {
      KeyLineStart(header + tail, key);
      assert false;
    }
  }

  lemma {:induction false} LStripPrefix(s: string, tail: string)
    requires !Blank(s)
    ensures LStrip(s + tail) == LStrip(s) + tail
  {
    hide IsSpace;
    if IsSpace(s[0]) {
      assert (s + tail)[1..] == s[1..] + tail;
      assert Blank(s[1..]) ==> Blank(s) by {
        assert forall i :: 1 <= i < |s| ==> s[i] == s[1..][i - 1];
      }
      LStripPrefix(s[1..], tail);
    } else {
      assert (s + tail)[0] == s[0];
    }
  }

  /** In a glued write only the last line changes, and only for an option of this section. */
  lemma GluedReads(lines: seq<string>, section: string, key: string, value: string, section2: string, key2: string)
    requires WellSplit(lines, Separators) && Sane(section, key, value) && SaneKey(key2) && Glues(lines, section, key)
    ensures var n := |lines| - 1;
            var joined := lines[n] + KeyLine(key, value);
            ReadValue(lines[..n] + [joined], section2, key2) == ReadValue(lines, section2, key2)
            <==> KeepsWhenGlued(lines, section, key, value, section2, key2)
  {
    hide HeaderName, IsKeyLine, SaneKey, SaneSection, Locate, ValueOf, Lookup, InSectionAfter, KeyLine, Ink, Blank, IsLine, Terminated;
    var n, at, tail := |lines| - 1, Locate(lines, section, key), KeyLine(key, value);
    var front := lines[..n];
    LocateFacts(lines, section, key);
    assert lines == front + [lines[n]];
    LookupAppend(front, [lines[n]], section2, key2, false);
    LookupAppend(front, [lines[n] + tail], section2, key2, false);
    KeyLineHasInk(key, value);
    GluedLast(lines[n], tail, section2, key2, InSectionAfter(front, section2, false));
    if at.header == n {
      BracketIsNoKey(lines[n], tail, key2);
    } else {
      SectionInForce(lines, section, section2, at.header, n);
    }
  }

  // ------------------------------------------------------------- every other option

  predicate KeepsWhenGlued(lines: seq<string>, section: string, key: string, value: string, section2: string, key2: string)
    requires lines != []
  {
    var n := |lines| - 1;
    section2 == section && Locate(lines, section, key).header < n && Lookup(lines[..n], section2, key2, false) == None ==>
      !IsKeyLine(lines[n] + KeyLine(key, value), key2)
  }

  /** What is looked up after the old line does not hang on the lines that go with the old value. */
  predicate KeepsWhenReplaced(lines: seq<string>, section: string, key: string, section2: string, key2: string)
  {
    var at := Locate(lines, section, key);
    at.header < |lines| && at.key < at.end && Lookup(lines[..at.key], section2, key2, false) == None ==>
      ValueIn(lines[at.key + 1..], section2, key2, section == section2)
      == ValueIn(lines[ValueEnd(lines, at.key + 1)..], section2, key2, section == section2)
  }

  predicate KeepsOther(lines: seq<string>, section: string, key: string, value: string, section2: string, key2: string)
  {
    if Glues(lines, section, key) then KeepsWhenGlued(lines, section, key, value, section2, key2)
    else KeepsWhenReplaced(lines, section, key, section2, key2)
  }

  /** Another option keeps its value exactly if: its line comes before the written option's, or the lines dropped
      with the old value make no difference to it; and, when the write glues, the joined line is not that option's. */
  lemma OtherOptionIsKeptExactly(raw: string, section: string, key: string, value: string, section2: string, key2: string)
    requires Sane(section, key, value) && SaneKey(key2) && (section2 != section || key2 != key)
    ensures ReadValue(LinesOf(SetOption(raw, section, key, value)), section2, key2) == ReadValue(LinesOf(raw), section2, key2)
            <==> KeepsOther(LinesOf(raw), section, key, value, section2, key2)
  {
    hide HeaderName, IsKeyLine, SaneKey, SaneSection, Locate, Lines, UniversalNewlines, Glues, Rewritten, Lookup, ValueOf,
         KeepsWhenGlued, KeyLine;
    var lines, at := LinesOf(raw), Locate(LinesOf(raw), section, key);
    SplitIsLossless(UniversalNewlines(raw), Separators);
    if Glues(lines, section, key) {
      WrittenAsRead(raw, section, key, value);
      GluedLines(lines, section, key, value);
      GluedReads(lines, section, key, value, section2, key2);
    } else {
      FileLines(raw, section, key, value);
      if at.header == |lines| {
        NewSectionFrame(lines, section, key, value, section2, key2);
      } else if at.key < at.end {
        ReplacedReads(lines, section, key, value, section2, key2);
      } else {
        InsertedFrame(lines, section, key, value, section2, key2);
      }
    }
  }

  /** No line dropped with the option's old value is a section header or another option's line. */
  predicate DropsOnlyItsValue(lines: seq<string>, section: string, key: string, other: string)
  {
    var at := Locate(lines, section, key);
    at.header < |lines| && at.key < at.end ==>
      Inert(lines[at.key + 1..ValueEnd(lines, at.key + 1)], other, true)
  }

  /** So on a file whose headers and options are not indented every other option keeps its value. */
  lemma OtherOptionsKeepTheirValue(raw: string, section: string, key: string, value: string, section2: string, key2: string)
    requires Sane(section, key, value) && SaneKey(key2) && (section2 != section || key2 != key)
    requires !Glues(LinesOf(raw), section, key) && DropsOnlyItsValue(LinesOf(raw), section, key, key2)
    ensures ReadValue(LinesOf(SetOption(raw, section, key, value)), section2, key2) == ReadValue(LinesOf(raw), section2, key2)
  {
    hide HeaderName, IsKeyLine, SaneKey, SaneSection, Locate, LinesOf, Glues, Rewritten, Lookup, ValueOf, KeepsWhenGlued, KeyLine,
         ReadValue;
    var lines, at := LinesOf(raw), Locate(LinesOf(raw), section, key);
    OtherOptionIsKeptExactly(raw, section, key, value, section2, key2);
    if at.header < |lines| && at.key < at.end {
      var p, q := at.key, ValueEnd(lines, at.key + 1);
      LookupInert(lines[p + 1..q], section2, key2, section == section2);
      LookupAppend(lines[p + 1..q], lines[q..], section2, key2, section == section2);
      assert lines[p + 1..] == lines[p + 1..q] + lines[q..];
    }
  }

  // ---------------------------------------------------------------- comments

  /** The comments of a file in order, without surrounding blanks. */
  function CommentTexts(lines: seq<string>): seq<string>
  {
    if lines == [] then []
    else (if IsComment(lines[0]) then [Strip(lines[0])] else []) + CommentTexts(lines[1..])
  }

  lemma {:induction false} CommentTextsAppend(a: seq<string>, b: seq<string>)
    ensures CommentTexts(a + b) == CommentTexts(a) + CommentTexts(b)
  {
    hide IsComment, Strip;
    if a == [] {
      assert a + b == b;
    } else {
      assert (a + b)[1..] == a[1..] + b;
      CommentTextsAppend(a[1..], b);
    }
  }

  lemma {:induction false} KeptCommentTexts(lines: seq<string>)
    requires forall n :: 0 <= n < |lines| ==> Indented(lines[n])
    ensures CommentTexts(CommentsIn(lines)) == CommentTexts(lines)
  {
    hide IsComment, Strip, Indented;
    if lines != [] {
      KeptCommentTexts(lines[1..]);
      var kept := CommentsIn(lines[1..]);
      if IsComment(lines[0]) {
        assert CommentsIn(lines) == [lines[0]] + kept;
        assert ([lines[0]] + kept)[1..] == kept;
      } else {
        assert CommentsIn(lines) == kept;
      }
    }
  }

  lemma NoCommentText(line: string)
    requires !IsComment(line)
    ensures CommentTexts([line]) == []
  {
    hide IsComment, Strip;
    assert [line][1..] == [];
  }

  lemma TerminatedCommentTexts(lines: seq<string>)
    ensures CommentTexts(TerminateLast(lines)) == CommentTexts(lines)
  {
    hide IsComment, Strip, Terminated;
    if lines != [] {
      var n := |lines| - 1;
      var last := lines[n];
      CommentTextsAppend(lines[..n], [last]);
      CommentTextsAppend(lines[..n], [last + "\n"]);
      assert lines == lines[..n] + [last];
      StripTail(last, '\n');
      CommentTrailingNewline(last);
      assert [last][1..] == [] && [last + "\n"][1..] == [];
    }
  }

  lemma CommentTrailingNewline(line: string)
    ensures IsComment(line + "\n") <==> IsComment(line)
  {
    LStripTail(line, '\n');
  }

  /** The rewritten lines, before they are joined, hold every comment in its place in the order. */
  lemma CommentsSurvive(lines: seq<string>, section: string, key: string, value: string)
    requires SaneSection(section) && SaneKey(key)
    ensures CommentTexts(Rewritten(lines, section, key, value)) == CommentTexts(lines)
  {
    hide HeaderName, IsKeyLine, Locate, IsComment, Strip, Indented, Blank, KeyLine, CommentsIn, SaneKey, SaneSection,
         TerminateLast, NewHeader;
    var at, line := Locate(lines, section, key), KeyLine(key, value);
    LocateFacts(lines, section, key);
    WrittenLine(key, value);
    NoCommentText(line);
    if at.header == |lines| {
      var header := NewHeader(section);
      WrittenHeader(section);
      HeaderIsNoComment(header);
      NoCommentText(header);
      TerminatedCommentTexts(lines);
      CommentTextsAppend([header], [line]);
      CommentTextsAppend(TerminateLast(lines), [header, line]);
      assert [header] + [line] == [header, line];
    } else if at.key < at.end {
      ReplacedComments(lines, at.key, ValueEnd(lines, at.key + 1), line, key);
    } else {
      InsertedComments(lines, BlankStart(lines, at.end), line);
    }
  }

  lemma SameAround(a: seq<string>, m1: seq<string>, m2: seq<string>, c: seq<string>)
    requires CommentTexts(m1) == CommentTexts(m2)
    ensures CommentTexts(a + m1 + c) == CommentTexts(a + m2 + c)
  {
    hide CommentTexts;
    CommentTextsAppend(a + m1, c);
    CommentTextsAppend(a, m1);
    CommentTextsAppend(a + m2, c);
    CommentTextsAppend(a, m2);
  }

  lemma SameMiddle(before: string, line: string, body: seq<string>)
    requires !IsComment(before) && !IsComment(line) && (forall n :: 0 <= n < |body| ==> Indented(body[n]))
    ensures CommentTexts([line] + CommentsIn(body)) == CommentTexts([before] + body)
  {
    hide IsComment, Strip, Indented, CommentsIn, CommentTexts;
    NoCommentText(before);
    NoCommentText(line);
    KeptCommentTexts(body);
    CommentTextsAppend([line], CommentsIn(body));
    CommentTextsAppend([before], body);
  }

  lemma ReplacedComments(lines: seq<string>, p: nat, q: nat, line: string, key: string)
    requires p < q <= |lines| && SaneKey(key) && IsKeyLine(lines[p], key) && !IsComment(line)
    requires forall n :: p < n < q ==> Indented(lines[n])
    ensures CommentTexts(Replaced(lines, p, q, line)) == CommentTexts(lines)
  {
    hide IsKeyLine, IsComment, Strip, Indented, CommentsIn, SaneKey, CommentTexts;
    var body := lines[p + 1..q];
    KeyLineStart(lines[p], key);
    SameMiddle(lines[p], line, body);
    SameAround(lines[..p], [line] + CommentsIn(body), [lines[p]] + body, lines[q..]);
    CutOut(lines, p, q);
    Regroup(lines[..p], [line], CommentsIn(body), lines[q..]);
  }

  lemma InsertedComments(lines: seq<string>, b: nat, line: string)
    requires b <= |lines| && !IsComment(line)
    ensures CommentTexts(Inserted(lines, b, line)) == CommentTexts(lines)
  {
    hide IsComment, Strip, CommentTexts;
    NoCommentText(line);
    assert CommentTexts([]) == [] by { NoComments(); }
    SameAround(lines[..b], [line], [], lines[b..]);
    assert lines == lines[..b] + [] + lines[b..];
  }

  lemma NoComments()
    ensures CommentTexts([]) == []
  {
  }

  lemma ClosedComments(lines: seq<string>)
    ensures CommentTexts(Closed(lines)) == CommentTexts(lines)
  {
    hide IsComment, Strip, Terminated, CommentTexts, EndsWithNewline;
    TerminatedCommentTexts(lines);
    if lines != [] && Terminated(lines[|lines| - 1], Separators) {
      EmptyLineIsNoComment();
      NoCommentText("\n");
      CommentTextsAppend(lines, ["\n"]);
      assert CommentTexts(lines) + [] == CommentTexts(lines);
    }
  }

  lemma EmptyLineIsNoComment()
    ensures !IsComment("\n")
  {
    assert Blank("\n");
  }

  /** The same for the lines of the file. */
  lemma FileComments(lines: seq<string>, section: string, key: string, value: string)
    requires SaneSection(section) && SaneKey(key)
    ensures CommentTexts(AsFile(lines, section, key, value)) == CommentTexts(lines)
  {
    hide HeaderName, IsKeyLine, Locate, IsComment, Strip, KeyLine, SaneKey, SaneSection, Rewritten, Closed, CommentTexts;
    if Locate(lines, section, key).header == |lines| {
      var header, line := "[" + section + "]\n", KeyLine(key, value);
      ClosedComments(lines);
      EmptyLineIsNoComment();
      WrittenHeader(section);
      HeaderIsNoComment(header);
      WrittenLine(key, value);
      NoCommentText("\n");
      NoCommentText(header);
      NoCommentText(line);
      CommentTextsAppend(["\n"], [header]);
      CommentTextsAppend(["\n", header], [line]);
      CommentTextsAppend(Closed(lines), ["\n", header, line]);
      assert ["\n"] + [header] == ["\n", header] && ["\n", header] + [line] == ["\n", header, line];
      assert CommentTexts(lines) + [] == CommentTexts(lines);
    } else {
      CommentsSurvive(lines, section, key, value);
    }
  }

  /** A line is a comment by how it begins, so more text after it makes it neither a comment nor not one. */
  lemma CommentPrefix(line: string, tail: string)
    requires !Blank(line)
    ensures IsComment(line + tail) <==> IsComment(line)
  {
    hide IsSpace;
    LStripPrefix(line, tail);
    assert LStrip(line + tail)[0] == LStrip(line)[0];
  }

  lemma OneCommentText(line: string)
    ensures CommentTexts([line]) == if IsComment(line) then [Strip(line)] else []
  {
    hide IsComment, Strip;
    assert [line][1..] == [];
  }

  /** A comment with more written after it is another comment; a line that is none becomes none. */
  lemma GluedComment(front: seq<string>, last: string, tail: string)
    requires !Blank(last) && Ink(tail) > 0
    ensures CommentTexts(front + [last + tail]) == CommentTexts(front + [last]) <==> !IsComment(last)
  {
    hide IsComment, Strip, Blank, CommentTexts, Ink;
    CommentTextsAppend(front, [last + tail]);
    CommentTextsAppend(front, [last]);
    OneCommentText(last);
    OneCommentText(last + tail);
    CommentPrefix(last, tail);
    InkAppend(last, tail);
    InkStrip(last);
    InkStrip(last + tail);
    if IsComment(last) {
      SameEnd(CommentTexts(front), Strip(last + tail), Strip(last));
    }
  }

  lemma SameEnd(front: seq<string>, a: string, b: string)
    ensures front + [a] == front + [b] <==> a == b
  {
    assert (front + [a])[|front|] == a && (front + [b])[|front|] == b;
  }

  /** Through the file: every comment is kept, in order, exactly unless the write glues its line to a comment. */
  lemma CommentsAreKeptExactly(raw: string, section: string, key: string, value: string)
    requires Sane(section, key, value)
    ensures CommentTexts(LinesOf(SetOption(raw, section, key, value))) == CommentTexts(LinesOf(raw))
            <==> !(Glues(LinesOf(raw), section, key) && IsComment(LinesOf(raw)[|LinesOf(raw)| - 1]))
  {
    hide HeaderName, IsKeyLine, Locate, IsComment, Strip, Blank, KeyLine, SaneKey, SaneSection, Rewritten, AsFile, CommentTexts,
         Lines, UniversalNewlines, Ink, IsLine, Terminated;
    var lines := LinesOf(raw);
    SplitIsLossless(UniversalNewlines(raw), Separators);
    if Glues(lines, section, key) {
      var n := |lines| - 1;
      WrittenAsRead(raw, section, key, value);
      GluedLines(lines, section, key, value);
      KeyLineHasInk(key, value);
      GluedComment(lines[..n], lines[n], KeyLine(key, value));
      assert lines == lines[..n] + [lines[n]];
    } else {
      FileLines(raw, section, key, value);
      FileComments(lines, section, key, value);
    }
  }

  // ------------------------------------------- the two cases really happen

  lemma HeaderA()
    ensures HeaderName("[a]\n") == Some("a")
  {
    hide LStrip, RStrip, HeaderName;
    SingleLetter('a');
    WrittenHeader("a");
    assert "[" + "a" + "]\n" == "[a]\n";
  }

  lemma SingleLetter(c: char)
    requires 'a' <= c <= 'z'
    ensures SaneSection([c])
  {
    assert LStrip([c]) == [c] && RStrip([c]) == [c];
  }

  lemma NotAKeyLine(line: string, key: string)
    requires key != "" && key[0] !in line
    ensures !IsKeyLine(line, key)
  {
    forall i, j | 0 <= i <= j < |line|
      ensures !KeyAt(line, key, i, j)
    {
      if i + |key| <= |line| {
        assert line[i..i + |key|][0] == line[i] && line[i] in line;
      }
    }
  }

  lemma LinesOfWritten(lines: seq<string>)
    requires WellSplit(lines, Separators) && forall i :: 0 <= i < |lines| ==> '\r' !in lines[i]
    ensures LinesOf(Concat(lines)) == lines
  {
    hide IsLine, Terminated, Concat;
    ConcatHolds('\r', lines);
    NothingToTranslate(Concat(lines));
    JoinThenSplit(lines, Separators);
  }

  /** A file ending inside the section without a newline: the write joins its line to the last one. */
  lemma GlueExample()
    ensures Glues(["[a]\n", "x"], "a", "k") && LinesOf(Concat(["[a]\n", "x"])) == ["[a]\n", "x"]
  {
    hide IsKeyLine, HeaderName, Concat, LinesOf;
    var lines := ["[a]\n", "x"];
    HeaderA();
    assert HeaderName("x") == None by { NoHeaderX(); }
    NotAKeyLine("x", "k");
    LinesOfWritten(lines);
    assert lines[0] == "[a]\n" && lines[1] == "x";
    assert FirstHeader(lines, "a", 0) == 0;
    assert NextHeader(lines, 1) == 2;
    assert FirstKey(lines, "k", 1, 2) == 2;
    assert !IsSpace("x"[0]) && !IsSeparator("x"[0]);
  }

  lemma NoHeaderComment()
    ensures HeaderName("#x") == None && IsComment("#x") && !IsKeyLine("#x", "k") && !Terminated("#x", Separators)
  {
    assert |Strip("#x")| <= 2;
    assert !IsSpace("#x"[0]) && !IsSeparator("#x"[1]);
    NotAKeyLine("#x", "k");
  }

  /** On a file that ends in a comment without a newline, a write changes the comment. */
  lemma CommentIsGlued()
    ensures var raw := Concat(["[a]\n", "#x"]);
            CommentTexts(LinesOf(SetOption(raw, "a", "k", "1"))) != CommentTexts(LinesOf(raw))
  {
    hide IsKeyLine, HeaderName, Concat, LinesOf, IsComment, CommentTexts, SetOption, Terminated;
    var lines := ["[a]\n", "#x"];
    HeaderA();
    NoHeaderComment();
    SplitComment();
    LinesOfWritten(lines);
    assert lines[0] == "[a]\n" && lines[1] == "#x";
    assert FirstHeader(lines, "a", 0) == 0;
    assert NextHeader(lines, 1) == 2;
    assert FirstKey(lines, "k", 1, 2) == 2;
    SaneLetters();
    CommentsAreKeptExactly(Concat(lines), "a", "k", "1");
  }

  lemma SplitComment()
    ensures WellSplit(["[a]\n", "#x"], Separators) && '\r' !in "[a]\n" && '\r' !in "#x"
  {
    hide IsSeparator;
    BlankAndEqualsEndNothing();
    LettersEndNothing();
    assert !IsSeparator('#') by {
      HashEndsNothing();
    }
  }

  lemma HashEndsNothing()
    ensures !IsSeparator('#')
  {
  }

  lemma NoHeaderX()
    ensures HeaderName("x") == None
  {
    assert |Strip("x")| <= 1;
  }

  /** The next section's header is indented: the second write drops it. */
  lemma SwallowExample()
    ensures Swallows(["[a]\n", " [b]\n"], "a", "k")
  {
    hide IsKeyLine, HeaderName;
    var lines := ["[a]\n", " [b]\n"];
    HeaderA();
    IndentedHeaderB();
    assert lines[0] == "[a]\n" && lines[1] == " [b]\n";
    assert FirstHeader(lines, "a", 0) == 0;
    assert NextHeader(lines, 1) == 1;
    assert FirstKey(lines, "k", 1, 1) == 1;
    assert !IsSpace("[a]\n"[0]) && !IsSpace(" [b]\n"[1]);
  }

  lemma IndentedHeaderB()
    ensures HeaderName(" [b]\n") == Some("b")
  {
    hide LStrip, RStrip, HeaderName;
    SingleLetter('b');
    WrittenHeader("b");
    assert "[" + "b" + "]\n" == "[b]\n" && [' '] + "[b]\n" == " [b]\n";
    LeadingBlank(' ', "[b]\n");
  }

  lemma LeadingBlank(c: char, line: string)
    requires IsSpace(c)
    ensures HeaderName([c] + line) == HeaderName(line)
  {
    hide Strip;
    StripHead(c, line);
  }

  const INDENTED := ["[a]\n", "k = 1\n", " [b]\n", "x = 1\n"]

  lemma KeyThenValue(key: string, value: string, line: string)
    requires SaneKey(key) && line == KeyLine(key, value)
    ensures IsKeyLine(line, key) && HeaderName(line) == None && ValueOf(line) == Strip(value)
  {
    WrittenLine(key, value);
    WrittenValue(key, value);
  }

  lemma IndentedLines()
    ensures HeaderName(INDENTED[0]) == Some("a") && HeaderName(INDENTED[1]) == None && HeaderName(INDENTED[2]) == Some("b")
    ensures HeaderName(INDENTED[3]) == None && IsKeyLine(INDENTED[1], "k") && IsKeyLine(INDENTED[3], "x")
    ensures Indented(INDENTED[2]) && !Indented(INDENTED[3])
  {
    hide HeaderName, IsKeyLine, ValueOf, Strip;
    HeaderA();
    IndentedHeaderB();
    KeyThenValue("k", "1", "k = 1\n");
    KeyThenValue("x", "1", "x = 1\n");
    BracketIsNoBlank();
  }

  lemma BracketIsNoBlank()
    ensures Indented(" [b]\n")
  {
    assert !IsSpace(" [b]\n"[1]);
  }

  lemma SplitIndented()
    ensures WellSplit(INDENTED, Separators) && forall i :: 0 <= i < 4 ==> '\r' !in INDENTED[i]
  {
    hide IsSeparator;
    BlankAndEqualsEndNothing();
    LettersEndNothing();
  }

  lemma LettersEndNothing()
    ensures !IsSeparator('a') && !IsSeparator('b') && !IsSeparator('k') && !IsSeparator('x') && !IsSeparator('1')
  {
  }

  lemma IndentedPlace()
    ensures Locate(INDENTED, "a", "k") == Place(0, 2, 1) && ValueEnd(INDENTED, 2) == 3
  {
    hide HeaderName, IsKeyLine, Indented;
    IndentedLines();
    assert FirstHeader(INDENTED, "a", 0) == 0;
    assert NextHeader(INDENTED, 1) == 2;
    assert FirstKey(INDENTED, "k", 1, 2) == 1;
    assert ValueEnd(INDENTED, 2) == 3;
  }

  lemma IndentedTails()
    ensures ValueIn(INDENTED[2..], "b", "x", false).Some? && ValueIn(INDENTED[3..], "b", "x", false) == None
    ensures ValueIn(INDENTED[2..], "a", "x", true) == None && ValueIn(INDENTED[3..], "a", "x", true).Some?
  {
    hide HeaderName, IsKeyLine, ValueOf;
    IndentedLines();
    assert INDENTED[2..][0] == INDENTED[2] && INDENTED[2..][1..] == INDENTED[3..];
    assert INDENTED[3..][0] == INDENTED[3] && INDENTED[3..][1..] == [];
    assert INDENTED[3..] == [INDENTED[3]];
    LookupOne(INDENTED[3], "b", "x", false);
    LookupOne(INDENTED[3], "a", "x", false);
    assert Lookup(INDENTED[3..], "b", "x", true).Some? && Lookup(INDENTED[3..], "a", "x", true).Some?;
  }

  /** One write of k in [a] drops the indented header after it: [b] loses its option, and [a] gains it. */
  lemma HeaderIsDropped()
    ensures var raw := Concat(INDENTED); var after := LinesOf(SetOption(raw, "a", "k", "2"));
            && ReadValue(LinesOf(raw), "b", "x").Some? && ReadValue(after, "b", "x") == None
            && ReadValue(LinesOf(raw), "a", "x") == None && ReadValue(after, "a", "x").Some?
            && !Glues(LinesOf(raw), "a", "k") && !Swallows(LinesOf(raw), "a", "k")
  {
    hide HeaderName, IsKeyLine, Locate, Lookup, ValueEnd, Concat, Lines, UniversalNewlines, ValueOf, KeyLine, Rewritten;
    var raw := Concat(INDENTED);
    SplitIndented();
    LinesOfWritten(INDENTED);
    IndentedPlace();
    SaneLetters();
    FileLines(raw, "a", "k", "2");
    ReplacedReads(INDENTED, "a", "k", "2", "b", "x");
    ReplacedReads(INDENTED, "a", "k", "2", "a", "x");
    IndentedTails();
    HeaderAlone("b");
    HeaderAlone("a");
  }

  lemma SaneLetters()
    ensures Sane("a", "k", "1") && Sane("a", "k", "2") && SaneKey("x")
  {
    SingleLetter('a');
    assert "a" == ['a'];
  }

  lemma HeaderAlone(section: string)
    ensures Lookup(INDENTED[..1], section, "x", false) == None
  {
    hide HeaderName, IsKeyLine;
    HeaderA();
    assert INDENTED[..1][0] == "[a]\n" && INDENTED[..1][1..] == [];
  }
}
