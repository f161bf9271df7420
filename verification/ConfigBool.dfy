/** get_bool of ubuntu-hello/src/config_edit.py on a file, and what it makes of a written option. It splits
    the file without keeping the line ends, and cuts the value at a comment sign. */
module ConfigBool {
  import opened Options
  import opened Text
  import opened ConfigEdit
  import opened ConfigLines
  import opened ConfigRewrite

  /** A line without its end. */
  function Bare(line: string): string
  {
    if Terminated(line, Separators) then line[..|line| - 1] else line
  }

  /** splitlines(), given splitlines(keepends=True). */
  function BareLines(lines: seq<string>): seq<string>
  {
    seq(|lines|, i requires 0 <= i < |lines| => Bare(lines[i]))
  }

  /** What get_bool reads; a file that could not be opened is None. */
  function ReadBool(file: Option<string>, section: string, key: string, default: bool): bool
  {
    match file
    case None => default
    case Some(raw) =>
      match Lookup(BareLines(LinesOf(raw)), section, key, false)
      case Some(line) => Truthy(line)
      case None => default
  }

  method GetBoolOfFile(file: Option<string>, section: string, key: string, default: bool) returns (r: bool)
    ensures r == ReadBool(file, section, key, default)
  {
    if file == None {
      return default;
    }
    r := GetBool(BareLines(LinesOf(file.value)), section, key, default);
  }

  // --------------------------------------------------- blanks around a word

  lemma {:induction false} UptoTail(s: string, tail: string, c: char)
    requires c !in tail
    ensures Upto(s + tail, c) == if c in s then Upto(s, c) else s + tail
    ensures c !in s ==> Upto(s, c) == s
  {
    if s == "" {
      assert s + tail == tail;
      UptoAll(tail, c);
    } else if s[0] != c {
      assert (s + tail)[0] == s[0] && (s + tail)[1..] == s[1..] + tail;
      UptoTail(s[1..], tail, c);
      assert s == [s[0]] + s[1..] && s + tail == [s[0]] + (s[1..] + tail);
    }
  }

  lemma {:induction false} UptoAll(s: string, c: char)
    requires c !in s
    ensures Upto(s, c) == s
  {
    if s != "" {
      UptoAll(s[1..], c);
    }
  }

  lemma WordTail(s: string, c: char)
    requires IsSpace(c) && c != '#' && c != ';'
    ensures TrueWord(s + [c]) == TrueWord(s)
  {
    hide Lower, Strip, Upto, IsSpace;
    UptoTail(s, [c], '#');
    var u := Upto(s, '#');
    UptoTail(u, [c], ';');
    StripTail(Upto(u, ';'), c);
  }

  lemma WordHead(s: string)
    ensures TrueWord([' '] + s) == TrueWord(s)
  {
    hide Lower, Strip;
    UptoHead(s, '#');
    UptoHead(Upto(s, '#'), ';');
    StripHead(' ', Upto(Upto(s, '#'), ';'));
  }

  lemma UptoHead(s: string, c: char)
    requires c != ' '
    ensures Upto([' '] + s, c) == [' '] + Upto(s, c)
  {
    assert ([' '] + s)[1..] == s;
  }

  // ------------------------------------------------------- lines without ends

  lemma SeparatorIsBlank(c: char)
    requires IsSeparator(c)
    ensures IsSpace(c) && c != '#' && c != ';'
  {
  }

  /** The end of a line is nothing to get_bool. */
  lemma BareLine(line: string, key: string)
    ensures HeaderName(Bare(line)) == HeaderName(line)
    ensures IsKeyLine(Bare(line), key) <==> IsKeyLine(line, key)
    ensures '=' in Bare(line) ==> Truthy(Bare(line)) == Truthy(line)
  {
    hide HeaderName, IsKeyLine, TrueWord, ValueOf, IsSpace, IsSeparator, AfterEquals;
    if Terminated(line, Separators) {
      var bare, c := Bare(line), line[|line| - 1];
      SeparatorIsBlank(c);
      assert line == bare + [c];
      TrailingBlank(bare, c, key);
      if '=' in bare {
        AfterEqualsTail(bare, [c]);
        WordTail(AfterEquals(bare), c);
      }
    }
  }

  lemma {:induction false} LookupBare(lines: seq<string>, section: string, key: string, inSection: bool)
    requires SaneKey(key)
    ensures var found := Lookup(lines, section, key, inSection);
            var bare := Lookup(BareLines(lines), section, key, inSection);
            && found.Some? == bare.Some?
            && (found.Some? ==> Truthy(found.value) == Truthy(bare.value))
  {
    hide HeaderName, IsKeyLine, Truthy, Bare, SaneKey;
    if lines != [] {
      BareLine(lines[0], key);
      if IsKeyLine(lines[0], key) {
        KeyLineStart(Bare(lines[0]), key);
      }
      assert BareLines(lines)[0] == Bare(lines[0]) && BareLines(lines)[1..] == BareLines(lines[1..]);
      LookupBare(lines[1..], section, key,
                 match HeaderName(lines[0]) case Some(name) => name == section case None => inSection);
    }
  }

  // --------------------------------------------------------- set, then get_bool

  lemma WrittenWord(key: string, value: string)
    requires SaneKey(key)
    ensures Truthy(KeyLine(key, value)) == TrueWord(value)
  {
    hide TrueWord, AfterEquals, IsSpace;
    AfterFirstEquals(key + " ", " " + value + "\n");
    assert KeyLine(key, value) == key + " " + "=" + (" " + value + "\n");
    assert " " + value + "\n" == [' '] + (value + ['\n']);
    WordHead(value + ['\n']);
    NewlineIsSpace();
    WordTail(value, '\n');
  }

  /** get_bool after set_option: the default if the write glues; otherwise whether the written value, cut
      at the comment signs, is a word for true. */
  lemma SetThenGetBool(raw: string, section: string, key: string, value: string, default: bool)
    requires Sane(section, key, value)
    ensures ReadBool(Some(SetOption(raw, section, key, value)), section, key, default)
            == if Glues(LinesOf(raw), section, key) then default else TrueWord(value)
  {
    hide HeaderName, IsKeyLine, Locate, KeyLine, Lookup, Lines, AsFile, Rewritten, Glues, IsSpace, UniversalNewlines, TrueWord,
         Truthy, BareLines, SaneSection, SaneKey, OneLine;
    var lines := LinesOf(raw);
    SplitIsLossless(UniversalNewlines(raw), Separators);
    LookupBare(LinesOf(SetOption(raw, section, key, value)), section, key, false);
    if Glues(lines, section, key) {
      WrittenAsRead(raw, section, key, value);
      GluedLines(lines, section, key, value);
      GluedIsLost(lines, section, key, value);
    } else {
      FileLines(raw, section, key, value);
      ReadBackLines(lines, section, key, value);
      WrittenWord(key, value);
    }
  }

  lemma {:induction false} NothingToCut(s: string, c: char)
    requires c !in s
    ensures Upto(s, c) == s
  {
    if s != "" {
      NothingToCut(s[1..], c);
    }
  }

  lemma IsWordForTrue(word: string)
    requires word != "" && !IsSpace(word[0]) && !IsSpace(word[|word| - 1]) && '#' !in word && ';' !in word
    ensures TrueWord(word) <==> Lower(word) in ["1", "true", "yes", "on"]
  {
    NothingToCut(word, '#');
    NothingToCut(word, ';');
  }

  /** A switch comes back as it was set: the Settings write "true" or "false", and get_bool gives what the switch
      showed, for every file on which the write does not glue. */
  lemma SwitchComesBack(raw: string, section: string, key: string, active: bool, default: bool)
    requires SaneSection(section) && SaneKey(key) && !Glues(LinesOf(raw), section, key)
    ensures ReadBool(Some(SetOption(raw, section, key, if active then "true" else "false")), section, key, default) == active
  {
    hide HeaderName, IsKeyLine, Lines, Glues, SaneSection, SaneKey, SetOption, ReadBool, TrueWord, Locate, LinesOf;
    var value := if active then "true" else "false";
    SwitchIsOneLine(active);
    SetThenGetBool(raw, section, key, value, default);
    IsWordForTrue(value);
    assert Lower("true") == "true" && Lower("false") == "false";
  }

  lemma SwitchIsOneLine(active: bool)
    ensures OneLine(if active then "true" else "false")
  {
  }
}
