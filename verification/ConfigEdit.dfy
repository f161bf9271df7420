/** ubuntu-hello/src/config_edit.py: set one option of an INI file and leave
    every comment, blank line and other option where it was. */
module ConfigEdit {
  import opened Options
  import opened Text

  // ------------------------------------------------------ the line grammar

  /** str.isspace, which is also what \s matches. */
  predicate IsSpace(c: char)
  {
    var n := c as int;
    || 0x09 <= n <= 0x0D || 0x1C <= n <= 0x20 || n == 0x85 || n == 0xA0 || n == 0x1680
    || 0x2000 <= n <= 0x200A || n == 0x2028 || n == 0x2029 || n == 0x202F || n == 0x205F || n == 0x3000
  }

  predicate Blank(line: string)
  {
    forall i :: 0 <= i < |line| ==> IsSpace(line[i])
  }

  function LStrip(s: string): (r: string)
    ensures r != "" ==> !IsSpace(r[0])
    ensures r == "" <==> Blank(s)
    ensures s != "" && !IsSpace(s[0]) ==> r == s
  {
    if s == "" || !IsSpace(s[0]) then s else LStrip(s[1..])
  }

  function RStrip(s: string): (r: string)
    ensures |r| <= |s| && r == s[..|r|]
    ensures forall i :: |r| <= i < |s| ==> IsSpace(s[i])
    ensures r != "" ==> !IsSpace(r[|r| - 1])
  {
    if s == "" || !IsSpace(s[|s| - 1]) then s else RStrip(s[..|s| - 1])
  }

  function Strip(s: string): string
  {
    RStrip(LStrip(s))
  }

  /** _SECTION_RE and group(1).strip(): the name of a section header line. */
  function HeaderName(line: string): Option<string>
  {
    var t := Strip(line);
    if |t| >= 3 && t[0] == '[' && t[|t| - 1] == ']' && ']' !in t[1..|t| - 1]
    then Some(Strip(t[1..|t| - 1])) else None
  }

  predicate AllSpace(line: string, i: int, j: int)
    requires 0 <= i <= j <= |line|
  {
    forall n :: i <= n < j ==> IsSpace(line[n])
  }

  predicate KeyAt(line: string, key: string, i: int, j: int)
  {
    && 0 <= i && i + |key| <= j < |line|
    && AllSpace(line, 0, i) && line[i..i + |key|] == key
    && AllSpace(line, i + |key|, j) && line[j] == '='
  }

  /** _key_re: blanks, the key, blanks, an equals sign. */
  predicate IsKeyLine(line: string, key: string)
  {
    exists i, j :: 0 <= i <= j < |line| && KeyAt(line, key, i, j)
  }

  predicate Indented(line: string)
  {
    !Blank(line) && (line[0] == ' ' || line[0] == '\t')
  }

  predicate IsComment(line: string)
  {
    !Blank(line) && (LStrip(line)[0] == '#' || LStrip(line)[0] == ';')
  }

  predicate IsIndentedComment(line: string)
  {
    Indented(line) && IsComment(line)
  }

  predicate IsContinuation(line: string)
  {
    Indented(line) && !IsIndentedComment(line)
  }

  function KeyLine(key: string, value: string): string
  {
    key + " = " + value + "\n"
  }

  function NewHeader(section: string): string
  {
    "\n[" + section + "]\n"
  }

  // ------------------------------------- what a rewrite is, as cut and paste

  function FirstHeader(lines: seq<string>, section: string, i: nat): (h: nat)
    requires i <= |lines|
    ensures i <= h <= |lines|
    ensures h < |lines| ==> HeaderName(lines[h]) == Some(section)
    ensures forall n :: i <= n < h ==> HeaderName(lines[n]) != Some(section)
    decreases |lines| - i
  {
    if i == |lines| || HeaderName(lines[i]) == Some(section) then i else FirstHeader(lines, section, i + 1)
  }

  function NextHeader(lines: seq<string>, i: nat): (e: nat)
    requires i <= |lines|
    ensures i <= e <= |lines|
    ensures e < |lines| ==> HeaderName(lines[e]).Some?
    ensures forall n :: i <= n < e ==> HeaderName(lines[n]) == None
    decreases |lines| - i
  {
    if i == |lines| || HeaderName(lines[i]).Some? then i else NextHeader(lines, i + 1)
  }

  function FirstKey(lines: seq<string>, key: string, i: nat, e: nat): (p: nat)
    requires i <= e <= |lines|
    ensures i <= p <= e
    ensures p < e ==> IsKeyLine(lines[p], key)
    ensures forall n :: i <= n < p ==> !IsKeyLine(lines[n], key)
    decreases e - i
  {
    if i == e || IsKeyLine(lines[i], key) then i else FirstKey(lines, key, i + 1, e)
  }

  /** Where the indented lines starting at i end. */
  function ValueEnd(lines: seq<string>, i: nat): (q: nat)
    requires i <= |lines|
    ensures i <= q <= |lines|
    ensures q < |lines| ==> !Indented(lines[q])
    ensures forall n :: i <= n < q ==> Indented(lines[n])
    decreases |lines| - i
  {
    if i == |lines| || !Indented(lines[i]) then i else ValueEnd(lines, i + 1)
  }

  /** Where the blank lines ending at e start. */
  function BlankStart(lines: seq<string>, e: nat): (b: nat)
    requires e <= |lines|
    ensures b <= e
    ensures b > 0 ==> !Blank(lines[b - 1])
    ensures forall n :: b <= n < e ==> Blank(lines[n])
  {
    if e == 0 || !Blank(lines[e - 1]) then e else BlankStart(lines, e - 1)
  }

  function CommentsIn(lines: seq<string>): seq<string>
  {
    if lines == [] then []
    else (if IsIndentedComment(lines[0]) then [lines[0]] else []) + CommentsIn(lines[1..])
  }

  predicate EndsWithNewline(line: string)
  {
    line != "" && line[|line| - 1] == '\n'
  }

  function TerminateLast(lines: seq<string>): seq<string>
  {
    if lines != [] && !EndsWithNewline(lines[|lines| - 1])
    then lines[..|lines| - 1] + [lines[|lines| - 1] + "\n"] else lines
  }

  /** The header of the first section of that name, the end of its body, and the key's line in it. */
  datatype Place = Place(header: nat, end: nat, key: nat)

  function Locate(lines: seq<string>, section: string, key: string): (at: Place)
    ensures at.header <= |lines|
    ensures at.header < |lines| ==> at.header < at.key <= at.end <= |lines|
  {
    var h := FirstHeader(lines, section, 0);
    if h == |lines| then Place(h, h, h)
    else
      var e := NextHeader(lines, h + 1);
      Place(h, e, FirstKey(lines, key, h + 1, e))
  }

  function Inserted(lines: seq<string>, b: nat, line: string): seq<string>
    requires b <= |lines|
  {
    lines[..b] + [line] + lines[b..]
  }

  /** lines with [p, q) replaced by the new line and the comments between p and q. */
  function Replaced(lines: seq<string>, p: nat, q: nat, line: string): seq<string>
    requires p < q <= |lines|
  {
    lines[..p] + [line] + CommentsIn(lines[p + 1..q]) + lines[q..]
  }

  /** The three results: the section is missing, the key is there, the key is missing. */
  function Rewritten(lines: seq<string>, section: string, key: string, value: string): seq<string>
  {
    var at := Locate(lines, section, key);
    var line := KeyLine(key, value);
    if at.header == |lines| then TerminateLast(lines) + [NewHeader(section), line]
    else if at.key < at.end then Replaced(lines, at.key, ValueEnd(lines, at.key + 1), line)
    else Inserted(lines, BlankStart(lines, at.end), line)
  }

  // --------------------------------------------- the loops of the editor

  method InsertBeforeTrailingBlanks(out: seq<string>, line: string) returns (r: seq<string>)
    ensures r == Inserted(out, BlankStart(out, |out|), line)
  {
    var at := |out|;
    while at > 0 && Blank(out[at - 1])
      invariant 0 <= at <= |out|
      invariant BlankStart(out, at) == BlankStart(out, |out|)
    {
      at := at - 1;
    }
    r := out[..at] + [line] + out[at..];
  }

  lemma CommentsInAppend(a: seq<string>, line: string)
    ensures CommentsIn(a + [line]) == CommentsIn(a) + (if IsIndentedComment(line) then [line] else [])
  {
    if a == [] {
      assert [line][1..] == [];
    } else {
      assert (a + [line])[1..] == a[1..] + [line];
      CommentsInAppend(a[1..], line);
    }
  }

  method ConsumeOldValue(lines: seq<string>, start: nat) returns (kept: seq<string>, i: nat)
    requires start <= |lines|
    ensures i == ValueEnd(lines, start)
    ensures kept == CommentsIn(lines[start..i])
  {
    kept, i := [], start;
    while i < |lines| && (IsContinuation(lines[i]) || IsIndentedComment(lines[i]))
      invariant start <= i <= |lines|
      invariant ValueEnd(lines, i) == ValueEnd(lines, start)
      invariant kept == CommentsIn(lines[start..i])
    {
      assert lines[start..i + 1] == lines[start..i] + [lines[i]];
      CommentsInAppend(lines[start..i], lines[i]);
      if IsIndentedComment(lines[i]) {
        kept := kept + [lines[i]];
      }
      i := i + 1;
    }
  }

  /** Still before the section, or inside it and before the key. */
  ghost predicate Searching(lines: seq<string>, section: string, key: string, i: nat, inSection: bool)
    requires i <= |lines|
  {
    var at := Locate(lines, section, key);
    if inSection then at.header < i <= at.key && at.header < |lines| else i <= at.header
  }

  lemma BlankStartPrefix(lines: seq<string>, e: nat)
    requires e <= |lines|
    ensures BlankStart(lines[..e], e) == BlankStart(lines, e)
  {
    var b, c := BlankStart(lines[..e], e), BlankStart(lines, e);
    assert b > 0 ==> lines[..e][b - 1] == lines[b - 1];
    assert c > 0 ==> lines[..e][c - 1] == lines[c - 1];
    assert forall n :: b <= n < e ==> Blank(lines[..e][n]) && lines[..e][n] == lines[n];
  }

  lemma InsertedThenRest(lines: seq<string>, i: nat, b: nat, line: string)
    requires b <= i <= |lines|
    ensures Inserted(lines[..i], b, line) + lines[i..] == Inserted(lines, b, line)
  {
    assert lines[..i][..b] == lines[..b];
    assert lines[..i][b..] + lines[i..] == lines[b..];
  }

  /** Leaving the section without its key: the line goes before the blanks at i. */
  lemma InsertionPoint(lines: seq<string>, section: string, key: string, value: string, i: nat)
    requires i < |lines| && Searching(lines, section, key, i, true) && HeaderName(lines[i]).Some?
    ensures Inserted(lines[..i], BlankStart(lines[..i], i), KeyLine(key, value)) + lines[i..]
            == Rewritten(lines, section, key, value)
  {
    hide HeaderName, IsKeyLine, Blank, Indented, KeyLine, Inserted;
    BlankStartPrefix(lines, i);
    assert Locate(lines, section, key).end == i;
    InsertedThenRest(lines, i, BlankStart(lines, i), KeyLine(key, value));
  }

  lemma ReplacementPoint(lines: seq<string>, section: string, key: string, value: string, i: nat)
    requires i < |lines| && Searching(lines, section, key, i, true)
    requires HeaderName(lines[i]) == None && IsKeyLine(lines[i], key)
    ensures Replaced(lines, i, ValueEnd(lines, i + 1), KeyLine(key, value)) == Rewritten(lines, section, key, value)
  {
    hide HeaderName, IsKeyLine, Blank, Indented, KeyLine, Replaced;
    assert Locate(lines, section, key).key == i;
  }

  lemma ReplacedParts(lines: seq<string>, p: nat, q: nat, line: string)
    requires p < q <= |lines|
    ensures lines[..p] + [line] + CommentsIn(lines[p + 1..q]) + lines[q..] == Replaced(lines, p, q, line)
  {
  }

  lemma SearchOn(lines: seq<string>, section: string, key: string, i: nat, inSection: bool)
    requires i < |lines| && Searching(lines, section, key, i, inSection)
    requires inSection ==> HeaderName(lines[i]) == None && !IsKeyLine(lines[i], key)
    ensures Searching(lines, section, key, i + 1, inSection || HeaderName(lines[i]) == Some(section))
  {
    hide HeaderName, IsKeyLine, Blank, Indented;
  }

  lemma CopyLine(out: seq<string>, lines: seq<string>, i: nat)
    requires i < |lines|
    ensures out + lines[i..] == out + [lines[i]] + lines[i + 1..]
  {
    assert lines[i..] == [lines[i]] + lines[i + 1..];
  }

  method ReplaceInPlace(lines: seq<string>, section: string, key: string, value: string)
    returns (out: seq<string>, replaced: bool, sectionFound: bool)
    ensures replaced ==> out == Rewritten(lines, section, key, value)
    ensures !replaced ==> out == lines
    ensures sectionFound <==> Locate(lines, section, key).header < |lines|
    ensures !replaced && sectionFound ==>
              var at := Locate(lines, section, key); at.key == at.end == |lines|
  {
    hide HeaderName, IsKeyLine, IsComment, Blank, Indented, KeyLine, Inserted, Replaced, ValueEnd, CommentsIn, Locate, Rewritten, BlankStart;
    ghost var at := Locate(lines, section, key);
    ghost var result := Rewritten(lines, section, key, value);
    out, replaced, sectionFound := [], false, false;
    var inSection := false;
    var i := 0;
    while i < |lines|
      invariant 0 <= i <= |lines|
      invariant !replaced ==> out == lines[..i] && sectionFound == inSection
      invariant !replaced ==> Searching(lines, section, key, i, inSection)
      invariant replaced ==> sectionFound && at.header < |lines|
      invariant replaced ==> out + lines[i..] == result
    {
      var line := lines[i];
      var name := HeaderName(line);
      if name.Some? {
        if inSection && !replaced {
          InsertionPoint(lines, section, key, value, i);
          out := InsertBeforeTrailingBlanks(out, KeyLine(key, value));
          replaced := true;
        }
        if !replaced {
          SearchOn(lines, section, key, i, inSection);
        }
        inSection := name == Some(section);
        sectionFound := sectionFound || inSection;
      } else if inSection && !replaced && IsKeyLine(line, key) {
        ReplacementPoint(lines, section, key, value, i);
        out := out + [KeyLine(key, value)];
        replaced := true;
        var kept, next := ConsumeOldValue(lines, i + 1);
        out := out + kept;
        ReplacedParts(lines, i, next, KeyLine(key, value));
        i := next;
        continue;
      } else if !replaced {
        SearchOn(lines, section, key, i, inSection);
      }
      CopyLine(out, lines, i);
      assert lines[..i] + [line] == lines[..i + 1];
      out := out + [line];
      i := i + 1;
    }
    assert lines[..i] == lines && out + lines[i..] == out;
  }

  method RewriteLines(lines: seq<string>, section: string, key: string, value: string) returns (out: seq<string>)
    ensures out == Rewritten(lines, section, key, value)
  {
    var replaced, sectionFound;
    out, replaced, sectionFound := ReplaceInPlace(lines, section, key, value);
    if replaced {
      return;
    }
    if sectionFound {
      out := InsertBeforeTrailingBlanks(out, KeyLine(key, value));
      return;
    }
    if out != [] && !EndsWithNewline(out[|out| - 1]) {
      out := out[|out| - 1 := out[|out| - 1] + "\n"];
      assert out == TerminateLast(lines);
    }
    out := out + [NewHeader(section)];
    out := out + [KeyLine(key, value)];
  }

  // ------------------------------------------- the three results, line by line

  /** The first header of that name; no other header up to but not including e. */
  predicate SectionFrom(lines: seq<string>, section: string, h: nat, e: nat)
  {
    && h < e <= |lines| && HeaderName(lines[h]) == Some(section)
    && (forall n :: 0 <= n < h ==> HeaderName(lines[n]) != Some(section))
    && (forall n :: h < n < e ==> HeaderName(lines[n]) == None)
  }

  lemma LocateInSection(lines: seq<string>, section: string, key: string, h: nat, e: nat)
    requires SectionFrom(lines, section, h, e) && (e == |lines| || HeaderName(lines[e]).Some?)
    ensures var at := Locate(lines, section, key); at.header == h && at.end == e
    ensures Locate(lines, section, key).key == FirstKey(lines, key, h + 1, e)
  {
    hide HeaderName, IsKeyLine;
  }

  lemma FirstKeyIs(lines: seq<string>, key: string, i: nat, p: nat, e: nat)
    requires i <= p < e <= |lines| && IsKeyLine(lines[p], key) && forall n :: i <= n < p ==> !IsKeyLine(lines[n], key)
    ensures FirstKey(lines, key, i, e) == p
  {
    hide IsKeyLine;
  }

  lemma ValueEndsAt(lines: seq<string>, i: nat, q: nat)
    requires i <= q <= |lines| && (forall n :: i <= n < q ==> Indented(lines[n])) && (q < |lines| ==> !Indented(lines[q]))
    ensures ValueEnd(lines, i) == q
  {
    hide Indented;
  }

  /** The option is there, at p: its line and the indented lines after it give way to the new line and to
      the comments among them, and nothing else changes. */
  lemma ReplacesOldValue(lines: seq<string>, section: string, key: string, value: string, h: nat, p: nat, q: nat)
    requires h < p < q <= |lines| && SectionFrom(lines, section, h, p + 1)
    requires IsKeyLine(lines[p], key) && forall n :: h < n < p ==> !IsKeyLine(lines[n], key)
    requires (forall n :: p < n < q ==> Indented(lines[n])) && (q < |lines| ==> !Indented(lines[q]))
    ensures Rewritten(lines, section, key, value)
            == lines[..p] + [key + " = " + value + "\n"] + CommentsIn(lines[p + 1..q]) + lines[q..]
  {
    hide HeaderName, IsKeyLine, Indented, CommentsIn, Locate, FirstKey, ValueEnd;
    var e := NextHeader(lines, h + 1);
    LocateInSection(lines, section, key, h, e);
    FirstKeyIs(lines, key, h + 1, p, e);
    ValueEndsAt(lines, p + 1, q);
  }

  lemma NoKeyUpTo(lines: seq<string>, key: string, i: nat, e: nat)
    requires i <= e <= |lines| && forall n :: i <= n < e ==> !IsKeyLine(lines[n], key)
    ensures FirstKey(lines, key, i, e) == e
  {
    hide IsKeyLine;
  }

  lemma BlanksFrom(lines: seq<string>, b: nat, e: nat)
    requires 0 < b <= e <= |lines| && !Blank(lines[b - 1]) && forall n :: b <= n < e ==> Blank(lines[n])
    ensures BlankStart(lines, e) == b
  {
    hide Blank;
  }

  /** The section is there, up to e, without the option: the line comes after the section's last line that is not blank. */
  lemma AddsToSection(lines: seq<string>, section: string, key: string, value: string, h: nat, b: nat, e: nat)
    requires SectionFrom(lines, section, h, e) && (e == |lines| || HeaderName(lines[e]).Some?)
    requires forall n :: h < n < e ==> !IsKeyLine(lines[n], key)
    requires h < b <= e && !Blank(lines[b - 1]) && forall n :: b <= n < e ==> Blank(lines[n])
    ensures Rewritten(lines, section, key, value) == lines[..b] + [key + " = " + value + "\n"] + lines[b..]
  {
    hide HeaderName, IsKeyLine, Blank, FirstKey, BlankStart, Locate;
    LocateInSection(lines, section, key, h, e);
    NoKeyUpTo(lines, key, h + 1, e);
    BlanksFrom(lines, b, e);
  }

  /** The section is not there: it comes at the end, after a blank line, with the option; a last line that was not
      ended is ended first. */
  lemma AddsSection(lines: seq<string>, section: string, key: string, value: string)
    requires forall n :: 0 <= n < |lines| ==> HeaderName(lines[n]) != Some(section)
    ensures var added := ["\n[" + section + "]\n", key + " = " + value + "\n"];
            var open := lines != [] && (lines[|lines| - 1] == "" || lines[|lines| - 1][|lines[|lines| - 1]| - 1] != '\n');
            Rewritten(lines, section, key, value)
            == if open then lines[..|lines| - 1] + [lines[|lines| - 1] + "\n"] + added else lines + added
  {
    hide HeaderName, IsKeyLine;
  }

  /** What is kept of an old value: exactly its comment lines. */
  lemma {:induction false} KeepsCommentsOnly(lines: seq<string>, line: string)
    ensures line in CommentsIn(lines) <==> line in lines && IsIndentedComment(line)
  {
    hide IsIndentedComment;
    if lines != [] {
      assert line in lines <==> line == lines[0] || line in lines[1..];
      KeepsCommentsOnly(lines[1..], line);
    }
  }
}
