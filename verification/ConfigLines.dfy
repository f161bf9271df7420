/** What single lines look like to the editor and the reader of ConfigEdit. */
module ConfigLines {
  import opened Options
  import opened Text
  import opened ConfigEdit

  /** An option name that is a name: nothing a reader would take for a header, a comment or a second equals sign. */
  predicate SaneKey(key: string)
  {
    && key != "" && !IsSpace(key[0]) && !IsSpace(key[|key| - 1])
    && key[0] != '[' && key[0] != '#' && key[0] != ';' && '=' !in key && NoSeparator(key)
  }

  predicate SaneSection(section: string)
  {
    section != "" && Strip(section) == section && ']' !in section && NoSeparator(section)
  }

  predicate OneLine(value: string)
  {
    NoSeparator(value)
  }

  /** The text after the first equals sign. */
  function AfterEquals(line: string): string
  {
    if line == "" then "" else if line[0] == '=' then line[1..] else AfterEquals(line[1..])
  }

  /** The value an option line holds. */
  function ValueOf(line: string): string
  {
    Strip(AfterEquals(line))
  }

  // ------------------------------------------------------------ stripping

  lemma LStripTail(s: string, c: char)
    requires IsSpace(c)
    ensures LStrip(s + [c]) == if Blank(s) then "" else LStrip(s) + [c]
  {
    if s == "" {
      assert [c][1..] == "" && s + [c] == [c];
    } else if IsSpace(s[0]) {
      assert (s + [c])[1..] == s[1..] + [c];
      LStripTail(s[1..], c);
      assert Blank(s) <==> Blank(s[1..]) by {
        assert forall i :: 1 <= i < |s| ==> s[i] == s[1..][i - 1];
        assert forall i :: 0 <= i < |s| - 1 ==> s[1..][i] == s[i + 1];
      }
    }
  }

  /** A trailing blank does not matter to strip. */
  lemma StripTail(s: string, c: char)
    requires IsSpace(c)
    ensures Strip(s + [c]) == Strip(s)
  {
    LStripTail(s, c);
    if !Blank(s) {
      var t := LStrip(s);
      assert (t + [c])[..|t|] == t;
    }
  }

  lemma StripHead(c: char, s: string)
    requires IsSpace(c)
    ensures Strip([c] + s) == Strip(s)
  {
    assert ([c] + s)[1..] == s;
  }

  lemma HeaderStartsWithBracket(line: string)
    requires HeaderName(line).Some?
    ensures !Blank(line) && LStrip(line)[0] == '['
  {
  }

  /** A blank at the end of a line is nothing to the readers. */
  lemma TrailingBlank(line: string, c: char, key: string)
    requires IsSpace(c)
    ensures HeaderName(line + [c]) == HeaderName(line)
    ensures IsKeyLine(line + [c], key) <==> IsKeyLine(line, key)
    ensures '=' in line ==> ValueOf(line + [c]) == ValueOf(line)
  {
    hide IsKeyLine;
    StripTail(line, c);
    KeyLineTrailingBlank(line, c, key);
    if '=' in line {
      AfterEqualsTail(line, [c]);
      StripTail(AfterEquals(line), c);
    }
  }

  lemma TrailingNewline(line: string, key: string)
    ensures HeaderName(line + "\n") == HeaderName(line)
    ensures IsKeyLine(line + "\n", key) <==> IsKeyLine(line, key)
    ensures '=' in line ==> ValueOf(line + "\n") == ValueOf(line)
  {
    hide HeaderName, IsKeyLine, ValueOf;
    TrailingBlank(line, '\n', key);
  }

  lemma KeyAtInPrefix(line: string, prefix: string, key: string, i: int, j: int)
    requires |prefix| <= |line| && line[..|prefix|] == prefix
    ensures j < |prefix| ==> (KeyAt(line, key, i, j) <==> KeyAt(prefix, key, i, j))
  {
    hide IsSpace;
    if 0 <= i && i + |key| <= j < |prefix| {
      assert forall n :: 0 <= n < |prefix| ==> prefix[n] == line[n];
      assert line[i..i + |key|] == prefix[i..i + |key|];
    }
  }

  lemma EqualsIsNoBlank()
    ensures !IsSpace('=')
  {
  }

  lemma KeyLineTrailingBlank(line: string, c: char, key: string)
    requires IsSpace(c)
    ensures IsKeyLine(line + [c], key) <==> IsKeyLine(line, key)
  {
    hide IsSpace;
    EqualsIsNoBlank();
    var long := line + [c];
    if IsKeyLine(line, key) {
      var i, j :| 0 <= i <= j < |line| && KeyAt(line, key, i, j);
      KeyAtInPrefix(long, line, key, i, j);
    }
    if IsKeyLine(long, key) {
      var i, j :| 0 <= i <= j < |long| && KeyAt(long, key, i, j);
      assert j < |line|;
      KeyAtInPrefix(long, line, key, i, j);
    }
  }

  lemma {:induction false} AfterEqualsTail(line: string, tail: string)
    requires '=' in line
    ensures AfterEquals(line + tail) == AfterEquals(line) + tail
  {
    if line[0] == '=' {
      assert (line + tail)[1..] == line[1..] + tail;
    } else {
      assert (line + tail)[1..] == line[1..] + tail;
      AfterEqualsTail(line[1..], tail);
    }
  }

  // ------------------------------------------------------- the key of a line

  lemma {:induction false} FirstNonSpace(line: string, i: nat)
    requires i < |line| && AllSpace(line, 0, i) && !IsSpace(line[i])
    ensures !Blank(line) && LStrip(line) == line[i..]
  {
    if i > 0 {
      assert IsSpace(line[0]);
      assert forall n :: 0 <= n < i - 1 ==> line[1..][n] == line[n + 1];
      FirstNonSpace(line[1..], i - 1);
      assert line[1..][i - 1..] == line[i..];
    }
  }

  /** A key line starts, after its blanks, with the key. */
  lemma KeyLineStart(line: string, key: string)
    requires SaneKey(key) && IsKeyLine(line, key)
    ensures !Blank(line) && LStrip(line)[0] == key[0] && !IsComment(line) && '=' in line
  {
    var i, j :| 0 <= i <= j < |line| && KeyAt(line, key, i, j);
    assert line[i] == line[i..i + |key|][0] == key[0];
    FirstNonSpace(line, i);
    assert line[j] in line;
  }

  lemma NoEqualsBefore(line: string, key: string, i: int, j: int)
    requires KeyAt(line, key, i, j) && '=' !in key
    ensures forall n :: 0 <= n < j ==> line[n] != '='
  {
    forall n | 0 <= n < j
      ensures line[n] != '='
    {
      if i <= n < i + |key| {
        assert line[n] == line[i..i + |key|][n - i] == key[n - i];
        assert key[n - i] in key;
      }
    }
  }

  /** One line is the line of at most one option. */
  lemma OneKeyPerLine(line: string, key: string, other: string)
    requires SaneKey(key) && SaneKey(other) && IsKeyLine(line, key) && IsKeyLine(line, other)
    ensures key == other
  {
    hide IsSpace;
    var i, j :| 0 <= i <= j < |line| && KeyAt(line, key, i, j);
    var m, n :| 0 <= m <= n < |line| && KeyAt(line, other, m, n);
    NoEqualsBefore(line, key, i, j);
    NoEqualsBefore(line, other, m, n);
    assert j == n;
    KeyBounds(line, key, i, j);
    KeyBounds(line, other, m, n);
    assert i == m && i + |key| == m + |other|;
  }

  lemma KeyBounds(line: string, key: string, i: int, j: int)
    requires SaneKey(key) && KeyAt(line, key, i, j)
    ensures line[i] == key[0] && line[i + |key| - 1] == key[|key| - 1]
    ensures !IsSpace(line[i]) && !IsSpace(line[i + |key| - 1])
  {
    var found := line[i..i + |key|];
    assert line[i] == found[0] && line[i + |key| - 1] == found[|key| - 1];
  }

  // ------------------------------------------------------- the written lines

  lemma WrittenKey(key: string, value: string)
    requires SaneKey(key)
    ensures KeyAt(KeyLine(key, value), key, 0, |key| + 1)
    ensures IsKeyLine(KeyLine(key, value), key)
  {
    var line := KeyLine(key, value);
    assert line[0..0 + |key|] == key && line[|key|] == ' ' && line[|key| + 1] == '=';
    assert KeyAt(line, key, 0, |key| + 1);
  }

  lemma WrittenLine(key: string, value: string)
    requires SaneKey(key)
    ensures IsKeyLine(KeyLine(key, value), key) && HeaderName(KeyLine(key, value)) == None
    ensures !IsComment(KeyLine(key, value))
  {
    var line := KeyLine(key, value);
    WrittenKey(key, value);
    KeyLineStart(line, key);
    assert LStrip(line)[0] != '[';
  }

  lemma {:induction false} AfterFirstEquals(s: string, tail: string)
    requires '=' !in s
    ensures AfterEquals(s + "=" + tail) == tail
  {
    var line := s + "=" + tail;
    if s != "" {
      assert line[0] == s[0] && s[0] in s;
      assert line[1..] == s[1..] + "=" + tail;
      AfterFirstEquals(s[1..], tail);
    }
  }

  /** The written line holds the value, up to surrounding blanks. */
  lemma WrittenValue(key: string, value: string)
    requires SaneKey(key)
    ensures ValueOf(KeyLine(key, value)) == Strip(value)
  {
    AfterFirstEquals(key + " ", " " + value + "\n");
    assert KeyLine(key, value) == key + " " + "=" + (" " + value + "\n");
    assert " " + value + "\n" == [' '] + (value + "\n");
    StripHead(' ', value + "\n");
    StripTail(value, '\n');
  }

  lemma BracketedHeader(section: string)
    requires SaneSection(section)
    ensures Strip("[" + section + "]") == "[" + section + "]"
    ensures HeaderName("[" + section + "]") == Some(section)
  {
    var inner := "[" + section + "]";
    assert LStrip(inner) == inner;
    assert RStrip(inner) == inner;
    assert inner[1..|inner| - 1] == section;
  }

  /** A header line as the editor writes it. */
  lemma WrittenHeader(section: string)
    requires SaneSection(section)
    ensures HeaderName("[" + section + "]\n") == Some(section)
    ensures HeaderName(NewHeader(section)) == Some(section)
  {
    hide LStrip, RStrip, IsSpace;
    var inner := "[" + section + "]";
    BracketedHeader(section);
    assert IsSpace('\n') by { NewlineIsSpace(); }
    StripTail(inner, '\n');
    assert "[" + section + "]\n" == inner + "\n";
    assert NewHeader(section) == ['\n'] + (inner + "\n");
    StripHead('\n', inner + "\n");
  }

  lemma NewlineIsSpace()
    ensures IsSpace('\n')
  {
  }

  /** Where a line glued in front of a written line has its characters. */
  lemma GluedParts(last: string, key: string, value: string)
    requires key != ""
    ensures var line, y := last + KeyLine(key, value), |last| + |key| - 1;
            && y + 2 < |line| && line[y] == key[|key| - 1] && line[y + 1] == ' ' && line[y + 2] == '='
            && line[..|last|] == last && line[|last|..y + 1] == key
  {
    var line, added := last + KeyLine(key, value), KeyLine(key, value);
    assert added[..|key|] == key && added[|key|] == ' ' && added[|key| + 1] == '=';
    assert line[|last|..] == added;
    assert line[|last|..|last| + |key|] == added[..|key|];
  }

  lemma GluedEquals(line: string, last: string, key: string, j: int)
    requires |last| + |key| + 1 < |line| && line[|last|..|last| + |key|] == key && '=' !in key
    requires line[|last| + |key|] == ' ' && |last| <= j < |line| && line[j] == '='
    ensures j >= |last| + |key| + 1
  {
    forall n | |last| <= n < |last| + |key|
      ensures line[n] != '='
    {
      assert line[n] == line[|last|..|last| + |key|][n - |last|] == key[n - |last|];
      assert key[n - |last|] in key;
    }
  }

  /** An unterminated line that is not the option's line does not become one by having the option's line appended. */
  lemma GluedIsNotKeyLine(last: string, key: string, value: string)
    requires SaneKey(key) && !Blank(last) && !IsKeyLine(last, key)
    ensures !IsKeyLine(last + KeyLine(key, value), key)
  {
    hide IsSpace, KeyLine;
    var line, y := last + KeyLine(key, value), |last| + |key| - 1;
    var x :| 0 <= x < |last| && !IsSpace(last[x]);
    GluedParts(last, key, value);
    assert line[x] == line[..|last|][x];
    if IsKeyLine(line, key) {
      var i, j :| 0 <= i <= j < |line| && KeyAt(line, key, i, j);
      NoEqualsBefore(line, key, i, j);
      KeyBounds(line, key, i, j);
      KeyAtInPrefix(line, last, key, i, j);
      assert j >= |last|;
      GluedEquals(line, last, key, j);
      assert false;
    }
  }
}
