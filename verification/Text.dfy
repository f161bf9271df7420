/** Text as sequences of characters and of newline-terminated lines. */
module Text {

  /** str.lower on the letters A to Z. */
  function Lower(s: string): string
  {
    seq(|s|, i requires 0 <= i < |s| => if 'A' <= s[i] <= 'Z' then s[i] - 'A' + 'a' else s[i])
  }

  function Concat(parts: seq<string>): string
  {
    if parts == [] then "" else parts[0] + Concat(parts[1..])
  }

  lemma {:induction false} ConcatAppend(a: seq<string>, b: seq<string>)
    ensures Concat(a + b) == Concat(a) + Concat(b)
  {
    if a == [] {
      assert a + b == b;
    } else {
      assert (a + b)[1..] == a[1..] + b;
      ConcatAppend(a[1..], b);
    }
  }

  lemma Associate<T>(a: seq<T>, b: seq<T>, c: seq<T>)
    ensures a + b + c == a + (b + c)
  {
  }

  lemma Regroup<T>(a: seq<T>, b: seq<T>, c: seq<T>, d: seq<T>)
    ensures a + b + c + d == a + (b + c) + d
  {
  }

  lemma CutOut<T>(s: seq<T>, p: nat, q: nat)
    requires p < q <= |s|
    ensures s == s[..p] + ([s[p]] + s[p + 1..q]) + s[q..]
  {
  }

  // ---------------------------------------------------------- where lines end

  /** What str.splitlines breaks at: line feed, vertical tab, form feed, carriage return,
      file, group and record separator, next line, line and paragraph separator. */
  predicate IsSeparator(c: char)
  {
    var n := c as int;
    0x0A <= n <= 0x0D || 0x1C <= n <= 0x1E || n == 0x85 || n == 0x2028 || n == 0x2029
  }

  /** Which characters end a line: the newline alone, or every separator. */
  datatype Breaks = Newlines | Separators

  predicate Ends(breaks: Breaks, c: char)
  {
    match breaks case Newlines => c == '\n' case Separators => IsSeparator(c)
  }

  predicate NoSeparator(s: string)
  {
    forall i :: 0 <= i < |s| ==> !IsSeparator(s[i])
  }

  /** The number of characters up to and including the first line end; all of them when there is none. */
  function LineLength(text: string, breaks: Breaks): (n: nat)
    ensures n <= |text|
    ensures text != "" ==> n > 0
    ensures forall i :: 0 <= i < n - 1 ==> !Ends(breaks, text[i])
    ensures n < |text| ==> n > 0 && Ends(breaks, text[n - 1])
  {
    if text == "" then 0
    else if Ends(breaks, text[0]) then 1
    else 1 + LineLength(text[1..], breaks)
  }

  /** splitlines(keepends=True). A carriage return before a line feed would be one line end with it;
      texts that went through UniversalNewlines have none. */
  function Lines(text: string, breaks: Breaks): seq<string>
    decreases |text|
  {
    if text == "" then []
    else var n := LineLength(text, breaks); [text[..n]] + Lines(text[n..], breaks)
  }

  predicate Terminated(line: string, breaks: Breaks)
  {
    line != "" && Ends(breaks, line[|line| - 1])
  }

  /** One line of a split text: not empty, with a line end at its end or nowhere. */
  predicate IsLine(line: string, breaks: Breaks)
  {
    line != "" && forall i :: 0 <= i < |line| - 1 ==> !Ends(breaks, line[i])
  }

  predicate WellSplit(lines: seq<string>, breaks: Breaks)
  {
    && (forall i :: 0 <= i < |lines| ==> IsLine(lines[i], breaks))
    && (forall i :: 0 <= i < |lines| - 1 ==> Terminated(lines[i], breaks))
  }

  lemma {:induction false} SplitIsLossless(text: string, breaks: Breaks)
    ensures WellSplit(Lines(text, breaks), breaks) && Concat(Lines(text, breaks)) == text
    decreases |text|
  {
    hide Ends;
    if text != "" {
      var n := LineLength(text, breaks);
      var first, rest := text[..n], Lines(text[n..], breaks);
      SplitIsLossless(text[n..], breaks);
      assert Lines(text, breaks)[1..] == rest;
      assert text == first + text[n..];
      assert rest != [] ==> Terminated(first, breaks);
      PrependLine(first, rest, breaks);
    }
  }

  lemma PrependLine(first: string, rest: seq<string>, breaks: Breaks)
    requires IsLine(first, breaks) && WellSplit(rest, breaks) && (rest != [] ==> Terminated(first, breaks))
    ensures WellSplit([first] + rest, breaks)
  {
    hide IsLine, Terminated;
    var lines := [first] + rest;
    forall i | 0 <= i < |lines| - 1
      ensures Terminated(lines[i], breaks)
    {
      assert lines[i] == if i == 0 then first else rest[i - 1];
    }
  }

  /** The first line of a text is a given one exactly because it is a line and ends, or is all there is. */
  lemma FirstLineLength(first: string, rest: string, breaks: Breaks)
    requires IsLine(first, breaks) && (rest != "" ==> Terminated(first, breaks))
    ensures LineLength(first + rest, breaks) == |first|
  {
    hide Ends;
    var text := first + rest;
    var n := LineLength(text, breaks);
    assert forall i :: 0 <= i < |first| ==> text[i] == first[i];
  }

  lemma {:induction false} JoinThenSplit(lines: seq<string>, breaks: Breaks)
    requires WellSplit(lines, breaks)
    ensures Lines(Concat(lines), breaks) == lines
  {
    hide Ends, LineLength, Lines;
    if lines == [] {
      assert Lines("", breaks) == [] by { NoLines(breaks); }
    } else {
      var first, rest := lines[0], Concat(lines[1..]);
      assert |lines| == 1 ==> rest == "";
      FirstLineLength(first, rest, breaks);
      JoinThenSplit(lines[1..], breaks);
      SplitFirst(first, rest, breaks);
      assert [first] + lines[1..] == lines;
    }
  }

  lemma NoLines(breaks: Breaks)
    ensures Lines("", breaks) == []
  {
  }

  lemma SplitFirst(first: string, rest: string, breaks: Breaks)
    requires first != "" && LineLength(first + rest, breaks) == |first|
    ensures Lines(first + rest, breaks) == [first] + Lines(rest, breaks)
  {
    hide LineLength;
    var text := first + rest;
    assert text[..|first|] == first && text[|first|..] == rest;
  }

  // -------------------------------------------------------- reading a text file

  /** What a file opened in text mode reads as: every kind of line end is a line feed. */
  function UniversalNewlines(raw: string): (text: string)
    ensures '\r' !in text
    decreases |raw|
  {
    if raw == "" then ""
    else if raw[0] == '\r' then
      "\n" + UniversalNewlines(if |raw| > 1 && raw[1] == '\n' then raw[2..] else raw[1..])
    else [raw[0]] + UniversalNewlines(raw[1..])
  }

  lemma {:induction false} NothingToTranslate(raw: string)
    requires '\r' !in raw
    ensures UniversalNewlines(raw) == raw
  {
    if raw != "" {
      NothingToTranslate(raw[1..]);
    }
  }

  /** The first carriage return, with the line feed after it if there is one, becomes one line feed. */
  lemma {:induction false} ReturnBecomesNewline(before: string, after: string)
    requires '\r' !in before
    ensures UniversalNewlines(before + "\r\n" + after) == before + "\n" + UniversalNewlines(after)
    ensures (after == "" || after[0] != '\n') ==>
              UniversalNewlines(before + "\r" + after) == before + "\n" + UniversalNewlines(after)
  {
    if before == "" {
      assert (before + "\r\n" + after)[2..] == after && (before + "\r" + after)[1..] == after;
    } else {
      ReturnBecomesNewline(before[1..], after);
      assert (before + "\r\n" + after)[1..] == before[1..] + "\r\n" + after;
      assert (before + "\r" + after)[1..] == before[1..] + "\r" + after;
    }
  }

  lemma {:induction false} ConcatHolds(c: char, lines: seq<string>)
    ensures c in Concat(lines) <==> exists i :: 0 <= i < |lines| && c in lines[i]
  {
    if lines != [] {
      ConcatHolds(c, lines[1..]);
      assert forall i :: 0 < i < |lines| ==> lines[i] == lines[1..][i - 1];
      if i :| 0 <= i < |lines| && c in lines[i] {
        assert i > 0 ==> c in lines[1..][i - 1];
      }
    }
  }
}
