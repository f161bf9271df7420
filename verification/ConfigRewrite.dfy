/** set_option and get_bool of ubuntu-hello/src/config_edit.py through a file: which lines a written
    file has when it is read again, and exactly when the new value is found there. */
module ConfigRewrite {
  import opened Options
  import opened Text
  import opened ConfigEdit
  import opened ConfigLines

  // ------------------------------------------------------------- the reader

  /** get_bool's scan: the first line of the option inside a section of that name. */
  function Lookup(lines: seq<string>, section: string, key: string, inSection: bool): Option<string>
  {
    if lines == [] then None
    else
      match HeaderName(lines[0])
      case Some(name) => Lookup(lines[1..], section, key, name == section)
      case None =>
        if inSection && IsKeyLine(lines[0], key) then Some(lines[0])
        else Lookup(lines[1..], section, key, inSection)
  }

  function InSectionAfter(lines: seq<string>, section: string, inSection: bool): bool
  {
    if lines == [] then inSection
    else InSectionAfter(lines[1..], section,
                        match HeaderName(lines[0]) case Some(name) => name == section case None => inSection)
  }

  /** The value read from the lines on, inside the section or not. */
  function ValueIn(lines: seq<string>, section: string, key: string, inSection: bool): Option<string>
  {
    match Lookup(lines, section, key, inSection)
    case Some(line) => Some(ValueOf(line))
    case None => None
  }

  function ReadValue(lines: seq<string>, section: string, key: string): Option<string>
  {
    ValueIn(lines, section, key, false)
  }

  function Upto(s: string, c: char): string
  {
    if s == "" || s[0] == c then "" else [s[0]] + Upto(s[1..], c)
  }

  /** The text up to a comment sign is one of the words for true. */
  predicate TrueWord(text: string)
  {
    Lower(Strip(Upto(Upto(text, '#'), ';'))) in ["1", "true", "yes", "on"]
  }

  predicate Truthy(line: string)
  {
    TrueWord(AfterEquals(line))
  }

  /** get_bool on the lines of a file that could be read. */
  method GetBool(lines: seq<string>, section: string, key: string, default: bool) returns (r: bool)
    ensures r == match Lookup(lines, section, key, false) case Some(line) => Truthy(line) case None => default
  {
    hide HeaderName, IsKeyLine, Truthy;
    var inSection := false;
    for i := 0 to |lines|
      invariant Lookup(lines[i..], section, key, inSection) == Lookup(lines, section, key, false)
    {
      var rest := lines[i..];
      assert rest[1..] == lines[i + 1..];
      var name := HeaderName(lines[i]);
      if name.Some? {
        inSection := name == Some(section);
      } else if inSection && IsKeyLine(lines[i], key) {
        return Truthy(lines[i]);
      }
    }
    r := default;
  }

  lemma {:induction false} LookupAppend(a: seq<string>, b: seq<string>, section: string, key: string, inSection: bool)
    ensures Lookup(a + b, section, key, inSection)
            == (var first := Lookup(a, section, key, inSection);
                if first.Some? then first else Lookup(b, section, key, InSectionAfter(a, section, inSection)))
    ensures InSectionAfter(a + b, section, inSection) == InSectionAfter(b, section, InSectionAfter(a, section, inSection))
  {
    hide HeaderName, IsKeyLine;
    if a == [] {
      assert a + b == b;
    } else {
      assert (a + b)[1..] == a[1..] + b;
      LookupAppend(a[1..], b, section, key,
                   match HeaderName(a[0]) case Some(name) => name == section case None => inSection);
    }
  }

  /** Lines that are no header and, inside the section, no line of the option. */
  lemma {:induction false} LookupInert(lines: seq<string>, section: string, key: string, inSection: bool)
    requires forall n :: 0 <= n < |lines| ==> HeaderName(lines[n]) == None && (inSection ==> !IsKeyLine(lines[n], key))
    ensures Lookup(lines, section, key, inSection) == None
    ensures InSectionAfter(lines, section, inSection) == inSection
  {
    hide HeaderName, IsKeyLine;
    if lines != [] {
      LookupInert(lines[1..], section, key, inSection);
    }
  }

  lemma {:induction false} LookupElsewhere(lines: seq<string>, section: string, key: string)
    requires forall n :: 0 <= n < |lines| ==> HeaderName(lines[n]) != Some(section)
    ensures Lookup(lines, section, key, false) == None
    ensures InSectionAfter(lines, section, false) == false
  {
    hide HeaderName, IsKeyLine;
    if lines != [] {
      LookupElsewhere(lines[1..], section, key);
    }
  }

  /** Up to the header, through the lines that follow it without the key. */
  lemma LookupBefore(lines: seq<string>, section: string, key: string, h: nat, j: nat)
    requires h < j <= |lines| && HeaderName(lines[h]) == Some(section)
    requires forall n :: 0 <= n < h ==> HeaderName(lines[n]) != Some(section)
    requires forall n :: h < n < j ==> HeaderName(lines[n]) == None && !IsKeyLine(lines[n], key)
    ensures Lookup(lines[..j], section, key, false) == None
    ensures InSectionAfter(lines[..j], section, false)
  {
    hide HeaderName, IsKeyLine;
    var before, head, body := lines[..h], [lines[h]], lines[h + 1..j];
    LookupElsewhere(before, section, key);
    LookupInert(body, section, key, true);
    LookupAppend(head, body, section, key, false);
    LookupHead(lines[h], section, key);
    LookupAppend(before, head + body, section, key, false);
    assert lines[..j] == before + (head + body);
  }

  lemma LookupHead(line: string, section: string, key: string)
    requires HeaderName(line) == Some(section)
    ensures Lookup([line], section, key, false) == None && InSectionAfter([line], section, false)
  {
    hide HeaderName, IsKeyLine;
    assert [line][1..] == [];
  }

  /** In which section the lines after that header are. */
  lemma SectionInForce(lines: seq<string>, name: string, section: string, h: nat, j: nat)
    requires h < j <= |lines| && HeaderName(lines[h]) == Some(name)
    requires forall n :: h < n < j ==> HeaderName(lines[n]) == None
    ensures InSectionAfter(lines[..j], section, false) == (name == section)
    decreases j
  {
    hide HeaderName, IsKeyLine;
    assert lines[..j] == lines[..j - 1] + [lines[j - 1]];
    LookupAppend(lines[..j - 1], [lines[j - 1]], section, "", false);
    assert [lines[j - 1]][1..] == [];
    if h < j - 1 {
      SectionInForce(lines, name, section, h, j - 1);
    }
  }

  // --------------------------------------------------------- reading it back

  predicate Sane(section: string, key: string, value: string)
  {
    SaneSection(section) && SaneKey(key) && OneLine(value)
  }

  /** The lines after their text was closed with a newline. A last line that another separator already
      ends is left complete, and the newline makes an empty line after it. */
  function Closed(lines: seq<string>): seq<string>
  {
    if lines == [] || EndsWithNewline(lines[|lines| - 1]) then lines
    else if Terminated(lines[|lines| - 1], Separators) then lines + ["\n"]
    else lines[..|lines| - 1] + [lines[|lines| - 1] + "\n"]
  }

  /** The rewritten list as lines of the file: an element that holds two lines is split. */
  function AsFile(lines: seq<string>, section: string, key: string, value: string): seq<string>
  {
    if Locate(lines, section, key).header == |lines|
    then Closed(lines) + ["\n", "[" + section + "]\n", KeyLine(key, value)]
    else Rewritten(lines, section, key, value)
  }

  /** What precedes the written line in AsFile. */
  function Front(lines: seq<string>, section: string, key: string): seq<string>
  {
    var at := Locate(lines, section, key);
    if at.header == |lines| then Closed(lines) + ["\n", "[" + section + "]\n"]
    else if at.key < at.end then lines[..at.key]
    else lines[..BlankStart(lines, at.end)]
  }

  function Back(lines: seq<string>, section: string, key: string): seq<string>
  {
    var at := Locate(lines, section, key);
    if at.header == |lines| then []
    else if at.key < at.end then
      var q := ValueEnd(lines, at.key + 1);
      CommentsIn(lines[at.key + 1..q]) + lines[q..]
    else lines[BlankStart(lines, at.end)..]
  }

  lemma FileParts(lines: seq<string>, section: string, key: string, value: string)
    ensures AsFile(lines, section, key, value)
            == Front(lines, section, key) + [KeyLine(key, value)] + Back(lines, section, key)
  {
    hide HeaderName, IsKeyLine, Blank, Indented, Locate, KeyLine, CommentsIn, Closed;
    var at, line := Locate(lines, section, key), KeyLine(key, value);
    if at.header == |lines| {
      var t := Closed(lines);
      assert t + ["\n", "[" + section + "]\n", line] == t + ["\n", "[" + section + "]\n"] + [line] + [];
    } else if at.key < at.end {
      var q := ValueEnd(lines, at.key + 1);
      var kept := CommentsIn(lines[at.key + 1..q]);
      assert lines[..at.key] + [line] + kept + lines[q..] == lines[..at.key] + [line] + (kept + lines[q..]);
    }
  }

  lemma LocateFacts(lines: seq<string>, section: string, key: string)
    ensures var at := Locate(lines, section, key);
            && (at.header < |lines| ==> HeaderName(lines[at.header]) == Some(section))
            && (forall n :: 0 <= n < at.header ==> HeaderName(lines[n]) != Some(section))
            && (at.header < |lines| ==>
                  && (at.end < |lines| ==> HeaderName(lines[at.end]).Some?)
                  && (forall n :: at.header < n < at.end ==> HeaderName(lines[n]) == None)
                  && (forall n :: at.header < n < at.key ==> !IsKeyLine(lines[n], key))
                  && (at.key < at.end ==> IsKeyLine(lines[at.key], key)))
  {
    hide HeaderName, IsKeyLine;
  }

  lemma TerminatedHeaders(lines: seq<string>)
    ensures |TerminateLast(lines)| == |lines|
    ensures forall n :: 0 <= n < |lines| ==> HeaderName(TerminateLast(lines)[n]) == HeaderName(lines[n])
  {
    hide HeaderName;
    if lines != [] {
      TrailingNewline(lines[|lines| - 1], "");
    }
  }

  lemma ClosedHeaders(lines: seq<string>)
    ensures |lines| <= |Closed(lines)|
    ensures forall n :: 0 <= n < |Closed(lines)| ==>
              HeaderName(Closed(lines)[n]) == if n < |lines| then HeaderName(lines[n]) else None
  {
    hide HeaderName, IsSeparator;
    NewlineIsNoHeader();
    if lines != [] {
      TrailingNewline(lines[|lines| - 1], "");
    }
  }

  /** The header is not blank, so the insertion point is after it. */
  lemma InsertAfterHeader(lines: seq<string>, section: string, key: string)
    requires Locate(lines, section, key).header < |lines|
    ensures Locate(lines, section, key).header < BlankStart(lines, Locate(lines, section, key).end)
  {
    hide IsKeyLine, Indented, HeaderName;
    var at := Locate(lines, section, key);
    LocateFacts(lines, section, key);
    HeaderStartsWithBracket(lines[at.header]);
  }

  lemma FrontIsQuiet(lines: seq<string>, section: string, key: string)
    requires SaneSection(section)
    ensures Lookup(Front(lines, section, key), section, key, false) == None
    ensures InSectionAfter(Front(lines, section, key), section, false)
  {
    hide HeaderName, IsKeyLine, Blank, SaneSection, Lookup, InSectionAfter, Locate, Closed;
    var at := Locate(lines, section, key);
    LocateFacts(lines, section, key);
    if at.header == |lines| {
      var t, header := Closed(lines), "[" + section + "]\n";
      ClosedHeaders(lines);
      WrittenHeader(section);
      NewlineIsNoHeader();
      var front := t + ["\n", header];
      assert front[|t| + 1] == header && front[..|t| + 2] == front;
      LookupBefore(front, section, key, |t| + 1, |t| + 2);
    } else {
      var j := if at.key < at.end then at.key else BlankStart(lines, at.end);
      InsertAfterHeader(lines, section, key);
      LookupBefore(lines, section, key, at.header, j);
    }
  }

  lemma NewlineIsNoHeader()
    ensures HeaderName("\n") == None
  {
    StripTail("", '\n');
    assert "" + ['\n'] == "\n";
  }

  /** In the rewritten lines the first match is the written line, whatever the file held. */
  lemma ReadBackLines(lines: seq<string>, section: string, key: string, value: string)
    requires Sane(section, key, value)
    ensures Lookup(AsFile(lines, section, key, value), section, key, false) == Some(KeyLine(key, value))
  {
    hide HeaderName, IsKeyLine, Front, Back, AsFile, KeyLine;
    var front, line, back := Front(lines, section, key), KeyLine(key, value), Back(lines, section, key);
    FileParts(lines, section, key, value);
    FrontIsQuiet(lines, section, key);
    WrittenLine(key, value);
    LookupAppend(front, [line] + back, section, key, false);
    assert front + [line] + back == front + ([line] + back);
  }

  // ------------------------------------------------------- through the file

  /** The lines set_option and get_bool see of a file. */
  function LinesOf(raw: string): seq<string>
  {
    Lines(UniversalNewlines(raw), Separators)
  }

  /** set_option as text to text. */
  function SetOption(raw: string, section: string, key: string, value: string): string
  {
    Concat(Rewritten(LinesOf(raw), section, key, value))
  }

  /** The case the editor does not terminate: the section is the last one, lacks the
      key, and its last line ends without any separator. */
  predicate Glues(lines: seq<string>, section: string, key: string)
  {
    var at := Locate(lines, section, key);
    && at.header < |lines| && at.key == at.end == |lines|
    && !Terminated(lines[|lines| - 1], Separators) && !Blank(lines[|lines| - 1])
  }

  lemma WrittenIsLine(key: string, value: string)
    requires SaneKey(key) && OneLine(value)
    ensures IsLine(KeyLine(key, value), Separators) && Terminated(KeyLine(key, value), Separators)
  {
    hide IsSpace, IsSeparator;
    var line := KeyLine(key, value);
    assert line[..|key|] == key;
    BlankAndEqualsEndNothing();
    forall i | 0 <= i < |line| - 1
      ensures !Ends(Separators, line[i])
    {
      assert i < |key| ==> line[i] == key[i];
      assert i >= |key| + 3 ==> line[i] == value[i - |key| - 3];
    }
  }

  lemma BlankAndEqualsEndNothing()
    ensures !IsSeparator(' ') && !IsSeparator('=') && !IsSeparator('[') && !IsSeparator(']') && IsSeparator('\n')
  {
  }

  lemma WellSplitAppend(a: seq<string>, b: seq<string>)
    requires WellSplit(a, Separators) && WellSplit(b, Separators) && (a != [] && b != [] ==> Terminated(a[|a| - 1], Separators))
    ensures WellSplit(a + b, Separators)
  {
    var s := a + b;
    forall i | 0 <= i < |s|
      ensures IsLine(s[i], Separators) && (i < |s| - 1 ==> Terminated(s[i], Separators))
    {
      assert s[i] == if i < |a| then a[i] else b[i - |a|];
    }
  }

  lemma {:induction false} TerminatedComments(lines: seq<string>)
    requires forall n :: 0 <= n < |lines| ==> IsLine(lines[n], Separators) && Terminated(lines[n], Separators)
    ensures forall n :: 0 <= n < |CommentsIn(lines)| ==> IsLine(CommentsIn(lines)[n], Separators) && Terminated(CommentsIn(lines)[n], Separators)
  {
    hide IsIndentedComment, IsLine, Terminated;
    if lines != [] {
      TerminatedComments(lines[1..]);
      var kept := CommentsIn(lines[1..]);
      if IsIndentedComment(lines[0]) {
        assert CommentsIn(lines) == [lines[0]] + kept;
      } else {
        assert CommentsIn(lines) == kept;
      }
    }
  }

  lemma CommentsAreWellSplit(lines: seq<string>)
    requires WellSplit(lines, Separators)
    ensures WellSplit(CommentsIn(lines), Separators) && (lines == [] ==> CommentsIn(lines) == [])
    ensures lines != [] && Terminated(lines[|lines| - 1], Separators) && CommentsIn(lines) != []
            ==> Terminated(CommentsIn(lines)[|CommentsIn(lines)| - 1], Separators)
  {
    hide IsIndentedComment, IsLine, Terminated;
    if lines != [] {
      var n := |lines| - 1;
      TerminatedComments(lines[..n]);
      assert lines == lines[..n] + [lines[n]];
      CommentsInAppend(lines[..n], lines[n]);
    }
  }

  lemma ClosedWellSplit(lines: seq<string>)
    requires WellSplit(lines, Separators)
    ensures WellSplit(Closed(lines), Separators)
    ensures Closed(lines) != [] ==> Terminated(Closed(lines)[|Closed(lines)| - 1], Separators)
  {
    hide IsSeparator;
    BlankAndEqualsEndNothing();
    if lines != [] && !Terminated(lines[|lines| - 1], Separators) {
      var last := lines[|lines| - 1];
      assert IsLine(last + "\n", Separators) && Terminated(last + "\n", Separators);
    }
  }

  lemma HeaderIsLine(section: string)
    requires SaneSection(section)
    ensures IsLine("[" + section + "]\n", Separators) && Terminated("[" + section + "]\n", Separators)
  {
    hide IsSpace, Strip, IsSeparator;
    var header := "[" + section + "]\n";
    BlankAndEqualsEndNothing();
    forall i | 0 <= i < |header| - 1
      ensures !Ends(Separators, header[i])
    {
      assert 1 <= i < |section| + 1 ==> header[i] == section[i - 1];
    }
  }

  lemma FrontWellSplit(lines: seq<string>, section: string, key: string)
    requires WellSplit(lines, Separators) && SaneSection(section) && !Glues(lines, section, key)
    ensures var front := Front(lines, section, key);
            WellSplit(front, Separators) && front != [] && Terminated(front[|front| - 1], Separators)
  {
    hide HeaderName, IsKeyLine, Locate, IsSpace, IsLine, SaneSection, Blank, Closed, Ends;
    var at, front := Locate(lines, section, key), Front(lines, section, key);
    if at.header == |lines| {
      var t, header := Closed(lines), "[" + section + "]\n";
      ClosedWellSplit(lines);
      HeaderIsLine(section);
      EmptyLineIsLine();
      WellSplitAppend(t, ["\n", header]);
    } else {
      InsertAfterHeader(lines, section, key);
      var b := BlankStart(lines, at.end);
      assert at.key == at.end == b == |lines| ==> !Blank(lines[|lines| - 1]);
    }
  }

  lemma EmptyLineIsLine()
    ensures IsLine("\n", Separators) && Terminated("\n", Separators)
  {
  }

  lemma WellSplitSlice(lines: seq<string>, i: nat, j: nat)
    requires WellSplit(lines, Separators) && i <= j <= |lines|
    ensures WellSplit(lines[i..j], Separators)
  {
    hide IsLine, Terminated;
  }

  lemma BackWellSplit(lines: seq<string>, section: string, key: string)
    requires WellSplit(lines, Separators)
    ensures WellSplit(Back(lines, section, key), Separators)
  {
    hide HeaderName, IsKeyLine, Locate, IsSpace, Blank, Indented, IsIndentedComment, IsLine, Terminated, CommentsIn;
    var at := Locate(lines, section, key);
    if at.header < |lines| && at.key < at.end {
      var q := ValueEnd(lines, at.key + 1);
      var body := lines[at.key + 1..q];
      assert body != [] && q < |lines| ==> Terminated(lines[q - 1], Separators) && body[|body| - 1] == lines[q - 1];
      WellSplitSlice(lines, at.key + 1, q);
      WellSplitSlice(lines, q, |lines|);
      CommentsAreWellSplit(body);
      WellSplitAppend(CommentsIn(body), lines[q..]);
    }
  }

  /** Writing the rewritten list and reading the text again gives AsFile. */
  lemma FileLines(raw: string, section: string, key: string, value: string)
    requires Sane(section, key, value) && !Glues(LinesOf(raw), section, key)
    ensures LinesOf(SetOption(raw, section, key, value)) == AsFile(LinesOf(raw), section, key, value)
  {
    hide HeaderName, IsKeyLine, Locate, Front, Back, Lines, IsSpace, IsLine, Glues, AsFile, Rewritten, UniversalNewlines;
    var lines := LinesOf(raw);
    var file := AsFile(lines, section, key, value);
    SplitIsLossless(UniversalNewlines(raw), Separators);
    FileWellSplit(lines, section, key, value);
    JoinThenSplit(file, Separators);
    SameText(lines, section, key, value);
    WrittenAsRead(raw, section, key, value);
  }

  lemma ReturnIsSeparator()
    ensures IsSeparator('\r') && !IsSeparator(' ') && !IsSeparator('=') && !IsSeparator('[') && !IsSeparator(']')
  {
  }

  lemma {:induction false} CommentsFrom(lines: seq<string>)
    ensures forall x :: x in CommentsIn(lines) ==> x in lines
  {
    hide IsIndentedComment;
    if lines != [] {
      CommentsFrom(lines[1..]);
    }
  }

  predicate NoReturn(lines: seq<string>)
  {
    forall x :: x in lines ==> '\r' !in x
  }

  lemma NoReturnInPieces(section: string, key: string, value: string)
    requires Sane(section, key, value)
    ensures '\r' !in KeyLine(key, value) && '\r' !in NewHeader(section)
  {
    hide IsSpace, Strip, IsSeparator;
    ReturnIsSeparator();
  }

  lemma NoReturnWhenTerminated(lines: seq<string>)
    requires NoReturn(lines)
    ensures NoReturn(TerminateLast(lines))
  {
    if lines != [] {
      assert lines[|lines| - 1] in lines;
      assert '\r' !in lines[|lines| - 1] + "\n";
    }
  }

  lemma NoReturnJoined(a: seq<string>, b: seq<string>)
    requires NoReturn(a) && NoReturn(b)
    ensures NoReturn(a + b)
  {
  }

  /** A rewrite adds no carriage return, so what is written is read as it is. */
  lemma NoReturnAdded(lines: seq<string>, section: string, key: string, value: string)
    requires Sane(section, key, value) && NoReturn(lines)
    ensures NoReturn(Rewritten(lines, section, key, value))
  {
    hide HeaderName, IsKeyLine, Locate, KeyLine, NewHeader, Indented, Blank, CommentsIn, SaneKey, SaneSection, OneLine,
         TerminateLast, BlankStart, ValueEnd;
    var at, line := Locate(lines, section, key), KeyLine(key, value);
    NoReturnInPieces(section, key, value);
    if at.header == |lines| {
      NoReturnWhenTerminated(lines);
      NoReturnJoined(TerminateLast(lines), [NewHeader(section), line]);
    } else if at.key < at.end {
      var p, q := at.key, ValueEnd(lines, at.key + 1);
      CommentsFrom(lines[p + 1..q]);
      NoReturnJoined(lines[..p] + [line], CommentsIn(lines[p + 1..q]));
      NoReturnJoined(lines[..p] + [line] + CommentsIn(lines[p + 1..q]), lines[q..]);
    } else {
      var b := BlankStart(lines, at.end);
      NoReturnJoined(lines[..b] + [line], lines[b..]);
    }
  }

  lemma WrittenAsRead(raw: string, section: string, key: string, value: string)
    requires Sane(section, key, value)
    ensures UniversalNewlines(SetOption(raw, section, key, value)) == SetOption(raw, section, key, value)
  {
    hide Rewritten, UniversalNewlines, Lines, SaneKey, SaneSection, OneLine;
    var text, lines := UniversalNewlines(raw), LinesOf(raw);
    SplitIsLossless(text, Separators);
    ConcatHolds('\r', lines);
    forall x | x in lines
      ensures '\r' !in x
    {
      var i :| 0 <= i < |lines| && lines[i] == x;
      assert '\r' !in lines[i];
    }
    NoReturnAdded(lines, section, key, value);
    ConcatHolds('\r', Rewritten(lines, section, key, value));
    NothingToTranslate(SetOption(raw, section, key, value));
  }

  lemma FileWellSplit(lines: seq<string>, section: string, key: string, value: string)
    requires WellSplit(lines, Separators) && Sane(section, key, value) && !Glues(lines, section, key)
    ensures WellSplit(AsFile(lines, section, key, value), Separators)
  {
    hide HeaderName, IsKeyLine, Locate, Front, Back, AsFile, KeyLine, IsSpace, IsLine, Glues, Terminated;
    var front, line, back := Front(lines, section, key), KeyLine(key, value), Back(lines, section, key);
    FileParts(lines, section, key, value);
    FrontWellSplit(lines, section, key);
    BackWellSplit(lines, section, key);
    WrittenIsLine(key, value);
    WellSplitAppend(front, [line]);
    WellSplitAppend(front + [line], back);
  }

  lemma ClosedText(lines: seq<string>)
    ensures Concat(Closed(lines)) == Concat(TerminateLast(lines))
  {
    if lines != [] && !EndsWithNewline(lines[|lines| - 1]) {
      var n := |lines| - 1;
      ConcatAppend(lines[..n], [lines[n] + "\n"]);
      ConcatAppend(lines[..n], [lines[n], "\n"]);
      ConcatShort(lines[n], "\n");
      ConcatShort(lines[n] + "\n", "");
      assert lines + ["\n"] == lines[..n] + [lines[n], "\n"];
    }
  }

  lemma SameText(lines: seq<string>, section: string, key: string, value: string)
    ensures Concat(AsFile(lines, section, key, value)) == Concat(Rewritten(lines, section, key, value))
  {
    hide HeaderName, IsKeyLine, Locate, KeyLine, Closed, TerminateLast;
    if Locate(lines, section, key).header == |lines| {
      var header, line := "[" + section + "]\n", KeyLine(key, value);
      ClosedText(lines);
      ConcatAppend(Closed(lines), ["\n", header, line]);
      ConcatAppend(TerminateLast(lines), [NewHeader(section), line]);
      assert "\n" + header == NewHeader(section);
      assert ["\n", header, line][1..] == [header, line] && [header, line][1..] == [line];
      assert [NewHeader(section), line][1..] == [line];
      assert Concat(["\n", header, line]) == "\n" + (header + Concat([line]));
      assert Concat([NewHeader(section), line]) == NewHeader(section) + Concat([line]);
    }
  }

  lemma GluedRewrite(lines: seq<string>, section: string, key: string, value: string)
    requires Glues(lines, section, key)
    ensures Rewritten(lines, section, key, value) == lines + [KeyLine(key, value)]
  {
    hide HeaderName, IsKeyLine, Locate, KeyLine, Blank;
    assert BlankStart(lines, |lines|) == |lines|;
    assert lines[..|lines|] == lines && lines[|lines|..] == [];
  }

  lemma JoinedText(front: seq<string>, last: string, line: string)
    ensures Concat(front + [last] + [line]) == Concat(front + [last + line])
  {
    hide Concat;
    ConcatAppend(front + [last], [line]);
    ConcatAppend(front, [last]);
    ConcatAppend(front, [last + line]);
    ConcatOne(last);
    ConcatOne(line);
    ConcatOne(last + line);
    Associate(Concat(front), last, line);
  }

  lemma ConcatOne(a: string)
    ensures Concat([a]) == a
  {
    assert [a][1..] == [];
  }

  lemma JoinLastTwoText(lines: seq<string>, line: string)
    requires lines != []
    ensures var n := |lines| - 1; Concat(lines + [line]) == Concat(lines[..n] + [lines[n] + line])
  {
    hide Concat;
    var n := |lines| - 1;
    JoinedText(lines[..n], lines[n], line);
    assert lines[..n] + [lines[n]] == lines;
  }

  lemma JoinLastTwo(lines: seq<string>, line: string)
    requires WellSplit(lines, Separators) && lines != [] && !Terminated(lines[|lines| - 1], Separators) && IsLine(line, Separators)
    ensures var n := |lines| - 1; Lines(Concat(lines + [line]), Separators) == lines[..n] + [lines[n] + line]
  {
    hide Lines, Concat, Terminated, IsLine;
    var n := |lines| - 1;
    var joined := lines[n] + line;
    UnterminatedJoin(lines[n], line);
    assert WellSplit([joined], Separators);
    WellSplitSlice(lines, 0, n);
    assert lines[0..n] == lines[..n];
    WellSplitAppend(lines[..n], [joined]);
    JoinThenSplit(lines[..n] + [joined], Separators);
    JoinLastTwoText(lines, line);
  }

  lemma ConcatShort(a: string, b: string)
    ensures Concat([a]) == a && Concat([a, b]) == a + b
  {
    assert [a, b][1..] == [b] && [b][1..] == [] && [a][1..] == [];
  }

  lemma UnterminatedJoin(last: string, line: string)
    requires IsLine(last, Separators) && !Terminated(last, Separators) && IsLine(line, Separators)
    ensures IsLine(last + line, Separators)
  {
  }

  /** What a glued line does to the file: the last line and the new one become one. */
  lemma GluedLines(lines: seq<string>, section: string, key: string, value: string)
    requires WellSplit(lines, Separators) && Sane(section, key, value) && Glues(lines, section, key)
    ensures var n := |lines| - 1;
            Lines(Concat(Rewritten(lines, section, key, value)), Separators) == lines[..n] + [lines[n] + KeyLine(key, value)]
  {
    hide HeaderName, IsKeyLine, Locate, KeyLine, IsSpace, Blank, Rewritten, Lines, IsLine, Terminated;
    GluedRewrite(lines, section, key, value);
    WrittenIsLine(key, value);
    JoinLastTwo(lines, KeyLine(key, value));
  }

  /** After a glued write the option is not found at all. */
  lemma GluedIsLost(lines: seq<string>, section: string, key: string, value: string)
    requires WellSplit(lines, Separators) && Sane(section, key, value) && Glues(lines, section, key)
    ensures var n := |lines| - 1;
            Lookup(lines[..n] + [lines[n] + KeyLine(key, value)], section, key, false) == None
  {
    hide HeaderName, IsKeyLine, Locate, KeyLine, IsSpace, Lookup, InSectionAfter, IsLine, Blank;
    var n, at := |lines| - 1, Locate(lines, section, key);
    var joined := lines[n] + KeyLine(key, value);
    LocateFacts(lines, section, key);
    if at.header < n {
      LookupBefore(lines, section, key, at.header, n);
      GluedIsNotKeyLine(lines[n], key, value);
    } else {
      LookupElsewhere(lines[..n], section, key);
    }
    LookupAppend(lines[..n], [joined], section, key, false);
    LookupOne(joined, section, key, InSectionAfter(lines[..n], section, false));
  }

  lemma LookupOne(line: string, section: string, key: string, inSection: bool)
    requires inSection ==> !IsKeyLine(line, key)
    ensures Lookup([line], section, key, inSection) == None
  {
    hide HeaderName, IsKeyLine;
    assert [line][1..] == [];
  }

  /** Set, then read: the value comes back exactly when the write does not glue. */
  lemma SetThenRead(raw: string, section: string, key: string, value: string)
    requires Sane(section, key, value)
    ensures ReadValue(LinesOf(SetOption(raw, section, key, value)), section, key)
            == (if Glues(LinesOf(raw), section, key) then None else Some(Strip(value)))
  {
    hide HeaderName, IsKeyLine, Locate, KeyLine, Lookup, Lines, AsFile, Rewritten, Glues, IsSpace, UniversalNewlines;
    var lines := LinesOf(raw);
    SplitIsLossless(UniversalNewlines(raw), Separators);
    if Glues(lines, section, key) {
      WrittenAsRead(raw, section, key, value);
      GluedLines(lines, section, key, value);
      GluedIsLost(lines, section, key, value);
    } else {
      FileLines(raw, section, key, value);
      ReadBackLines(lines, section, key, value);
      WrittenValue(key, value);
    }
  }
}
