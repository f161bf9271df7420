/** protect of scripts/i18n_fill_data/mt_fill_all.py: URLs, then placeholders, then literal tokens are
    hidden behind markers. The URL and placeholder patterns are parameters; the token pattern is spelled out. */
module Protect {
  import opened Markers

  /** A compiled pattern: the length of its match at a position of a text, 0 when there is none. */
  type Matcher = (string, nat) -> nat

  /** How a pass names its matches: url_sub, ph_sub, or one marker for every match of a token. */
  datatype Naming = Urls | Slots | Same(n: nat)

  function MarkOf(naming: Naming, k: nat): (mark: Item)
    ensures IsMark(mark)
  {
    match naming
    case Urls => Url(k)
    case Slots => Slot(k)
    case Same(n) => Slot(n)
  }

  // --------------------------------------------------------------------- re.sub

  function SubFrom(text: string, i: nat, m: Matcher, naming: Naming, k: nat): string
    requires i <= |text|
    decreases |text| - i
  {
    if i == |text| then ""
    else if 0 < m(text, i) <= |text| - i then
      Key(MarkOf(naming, k)) + SubFrom(text, i + m(text, i), m, naming, k + 1)
    else [text[i]] + SubFrom(text, i + 1, m, naming, k)
  }

  function FoundFrom(text: string, i: nat, m: Matcher): seq<string>
    requires i <= |text|
    decreases |text| - i
  {
    if i == |text| then []
    else if 0 < m(text, i) <= |text| - i then [text[i..i + m(text, i)]] + FoundFrom(text, i + m(text, i), m)
    else FoundFrom(text, i + 1, m)
  }

  lemma SubHits(text: string, i: nat, m: Matcher, naming: Naming, k: nat)
    requires i < |text| && 0 < m(text, i) <= |text| - i
    ensures SubFrom(text, i, m, naming, k) == Key(MarkOf(naming, k)) + SubFrom(text, i + m(text, i), m, naming, k + 1)
    ensures FoundFrom(text, i, m) == [text[i..i + m(text, i)]] + FoundFrom(text, i + m(text, i), m)
  {
    hide Key, MarkOf;
  }

  lemma SubMisses(text: string, i: nat, m: Matcher, naming: Naming, k: nat)
    requires i < |text| && !(0 < m(text, i) <= |text| - i)
    ensures SubFrom(text, i, m, naming, k) == [text[i]] + SubFrom(text, i + 1, m, naming, k)
    ensures FoundFrom(text, i, m) == FoundFrom(text, i + 1, m)
  {
    hide Key, MarkOf;
  }

  lemma Reassociate<T>(a: seq<T>, b: seq<T>, c: seq<T>)
    ensures a + (b + c) == a + b + c
  {
  }

  method ReSub(text: string, m: Matcher, naming: Naming) returns (out: string, found: seq<string>)
    ensures out == SubFrom(text, 0, m, naming, 0)
    ensures found == FoundFrom(text, 0, m)
  {
    hide Key, MarkOf, SubFrom, FoundFrom;
    out, found := "", [];
    var i := 0;
    while i < |text|
      invariant i <= |text|
      invariant out + SubFrom(text, i, m, naming, |found|) == SubFrom(text, 0, m, naming, 0)
      invariant found + FoundFrom(text, i, m) == FoundFrom(text, 0, m)
    {
      var n := m(text, i);
      if 0 < n <= |text| - i {
        var key := Key(MarkOf(naming, |found|));
        SubHits(text, i, m, naming, |found|);
        Reassociate(out, key, SubFrom(text, i + n, m, naming, |found| + 1));
        Reassociate(found, [text[i..i + n]], FoundFrom(text, i + n, m));
        out := out + key;
        found := found + [text[i..i + n]];
        i := i + n;
      } else {
        SubMisses(text, i, m, naming, |found|);
        Reassociate(out, [text[i]], SubFrom(text, i + 1, m, naming, |found|));
        out := out + [text[i]];
        i := i + 1;
      }
    }
    SubEnds(text, m, naming, |found|);
  }

  lemma SubEnds(text: string, m: Matcher, naming: Naming, k: nat)
    ensures SubFrom(text, |text|, m, naming, k) == "" && FoundFrom(text, |text|, m) == []
  {
  }

  // --------------------------------------------------------------------- tokens

  /** (?<!\w)token(?!\w) at a position. */
  function TokenAt(text: string, i: nat, token: string, isWord: char -> bool): nat
  {
    if i + |token| <= |text| && text[i..i + |token|] == token
       && (i == 0 || !isWord(text[i - 1]))
       && (i + |token| == |text| || !isWord(text[i + |token|]))
    then |token| else 0
  }

  function TokenMatcher(token: string, isWord: char -> bool): Matcher
  {
    (text, i) => TokenAt(text, i, token, isWord)
  }

  function HideTokens(out: string, ph: seq<string>, tokens: seq<string>, isWord: char -> bool): (string, seq<string>)
    decreases tokens
  {
    if tokens == [] then (out, ph)
    else
      var m := TokenMatcher(tokens[0], isWord);
      if FoundFrom(out, 0, m) == [] then HideTokens(out, ph, tokens[1..], isWord)
      else HideTokens(SubFrom(out, 0, m, Same(|ph|), 0), ph + [tokens[0]], tokens[1..], isWord)
  }

  /** The protected text, the placeholders and tokens, and the URLs, each in marker order. */
  function Protected(s: string, url: Matcher, placeholder: Matcher, tokens: seq<string>, isWord: char -> bool)
    : (string, seq<string>, seq<string>)
  {
    var noUrls := SubFrom(s, 0, url, Urls, 0);
    var (out, ph) := HideTokens(SubFrom(noUrls, 0, placeholder, Slots, 0), FoundFrom(noUrls, 0, placeholder), tokens, isWord);
    (out, ph, FoundFrom(s, 0, url))
  }

  method ProtectText(s: string, url: Matcher, placeholder: Matcher, tokens: seq<string>, isWord: char -> bool)
      returns (out: string, ph: seq<string>, urls: seq<string>)
    ensures (out, ph, urls) == Protected(s, url, placeholder, tokens, isWord)
  {
    out, urls := ReSub(s, url, Urls);
    out, ph := ReSub(out, placeholder, Slots);
    ghost var started := (out, ph);
    for j := 0 to |tokens|
      invariant HideTokens(out, ph, tokens[j..], isWord) == HideTokens(started.0, started.1, tokens, isWord)
    {
      assert tokens[j..][1..] == tokens[j + 1..];
      var hidden, found := ReSub(out, TokenMatcher(tokens[j], isWord), Same(|ph|));
      if found != [] {
        ph := ph + [tokens[j]];
        out := hidden;
      }
    }
  }

  // ------------------------------------------------------- what a pass and protect do

  /** A part of a text, from start up to but not including end. */
  datatype Span = Span(start: nat, end: nat)

  predicate Hit(text: string, i: nat, m: Matcher)
  {
    i < |text| && 0 < m(text, i) <= |text| - i
  }

  /** Spans of the text from a position on, one after the other. */
  predicate InOrder(text: string, from: nat, spans: seq<Span>)
    decreases spans
  {
    from <= |text|
    && (spans != [] ==> from <= spans[0].start <= spans[0].end <= |text| && InOrder(text, spans[0].end, spans[1..]))
  }

  predicate InSomeSpan(i: nat, spans: seq<Span>)
  {
    exists k :: 0 <= k < |spans| && spans[k].start <= i < spans[k].end
  }

  predicate AllMatch(text: string, m: Matcher, spans: seq<Span>)
  {
    forall k :: 0 <= k < |spans| ==>
      Hit(text, spans[k].start, m) && spans[k].end == spans[k].start + m(text, spans[k].start)
  }

  /** The leftmost matches that do not overlap: every span is a match, and every position with a match lies in a span. */
  ghost predicate Leftmost(text: string, from: nat, m: Matcher, spans: seq<Span>)
  {
    && InOrder(text, from, spans)
    && AllMatch(text, m, spans)
    && (forall i: nat :: from <= i && Hit(text, i, m) ==> InSomeSpan(i, spans))
  }

  /** The key of slot n, and of the n-th URL, written out. */
  function SlotKey(n: nat): string
  {
    [OPEN] + "P" + Digits(n) + [CLOSE]
  }

  function UrlKey(n: nat): string
  {
    [OPEN] + "U" + Padded(Digits(n), 4) + [CLOSE]
  }

  function KeyFor(naming: Naming, k: nat): string
  {
    match naming
    case Urls => UrlKey(k)
    case Slots => SlotKey(k)
    case Same(n) => SlotKey(n)
  }

  lemma KeysAreWrittenOut(naming: Naming, k: nat)
    ensures Key(MarkOf(naming, k)) == KeyFor(naming, k)
  {
  }

  /** The text from a position on with keys, counted from k, in the place of the spans. */
  function Woven(text: string, from: nat, spans: seq<Span>, naming: Naming, k: nat): string
    requires InOrder(text, from, spans)
    decreases spans
  {
    if spans == [] then text[from..]
    else text[from..spans[0].start] + KeyFor(naming, k) + Woven(text, spans[0].end, spans[1..], naming, k + 1)
  }

  predicate AreParts(text: string, spans: seq<Span>, parts: seq<string>)
  {
    |parts| == |spans|
    && forall k :: 0 <= k < |spans| ==> spans[k].start <= spans[k].end <= |text| && parts[k] == text[spans[k].start..spans[k].end]
  }

  lemma SpanAhead(i: nat, e: nat, j: nat, rest: seq<Span>)
    requires i <= j < e || InSomeSpan(j, rest)
    ensures InSomeSpan(j, [Span(i, e)] + rest)
  {
    var spans := [Span(i, e)] + rest;
    if i <= j < e {
      assert spans[0] == Span(i, e);
    } else {
      var k :| 0 <= k < |rest| && rest[k].start <= j < rest[k].end;
      assert spans[k + 1] == rest[k];
    }
  }

  lemma LeftmostAtMatch(text: string, i: nat, m: Matcher, rest: seq<Span>)
    requires Hit(text, i, m) && Leftmost(text, i + m(text, i), m, rest)
    ensures Leftmost(text, i, m, [Span(i, i + m(text, i))] + rest)
  {
    hide InSomeSpan;
    var e := i + m(text, i);
    var spans := [Span(i, e)] + rest;
    assert spans[1..] == rest;
    forall j: nat | i <= j && Hit(text, j, m)
      ensures InSomeSpan(j, spans)
    {
      SpanAhead(i, e, j, rest);
    }
  }

  lemma PartsAtMatch(text: string, i: nat, e: nat, rest: seq<Span>, parts: seq<string>)
    requires i <= e <= |text| && AreParts(text, rest, parts)
    ensures AreParts(text, [Span(i, e)] + rest, [text[i..e]] + parts)
  {
  }

  lemma WovenAtMatch(text: string, i: nat, e: nat, rest: seq<Span>, naming: Naming, k: nat)
    requires i <= e <= |text| && InOrder(text, e, rest)
    ensures InOrder(text, i, [Span(i, e)] + rest)
    ensures Woven(text, i, [Span(i, e)] + rest, naming, k) == KeyFor(naming, k) + Woven(text, e, rest, naming, k + 1)
  {
    hide KeyFor;
    var spans := [Span(i, e)] + rest;
    assert spans[0] == Span(i, e) && spans[1..] == rest;
    var tail := Woven(text, e, rest, naming, k + 1);
    assert text[i..i] + KeyFor(naming, k) == KeyFor(naming, k);
  }

  lemma LeftmostAtMiss(text: string, i: nat, m: Matcher, spans: seq<Span>, naming: Naming, k: nat)
    requires i < |text| && !Hit(text, i, m) && Leftmost(text, i + 1, m, spans)
    ensures Leftmost(text, i, m, spans)
    ensures Woven(text, i, spans, naming, k) == [text[i]] + Woven(text, i + 1, spans, naming, k)
  {
    hide KeyFor, InSomeSpan, AllMatch;
    if spans != [] {
      assert text[i..spans[0].start] == [text[i]] + text[i + 1..spans[0].start];
    }
  }

  /** re.sub puts its keys, in order, in the place of the leftmost matches, and finds their texts. */
  lemma {:induction false} PassIsWoven(text: string, i: nat, m: Matcher, naming: Naming, k: nat) returns (spans: seq<Span>)
    requires i <= |text|
    ensures Leftmost(text, i, m, spans) && AreParts(text, spans, FoundFrom(text, i, m))
    ensures SubFrom(text, i, m, naming, k) == Woven(text, i, spans, naming, k)
    decreases |text| - i
  {
    hide Key, MarkOf, SubFrom, FoundFrom, Woven, Leftmost, AreParts, KeyFor, InOrder;
    if i == |text| {
      spans := [];
      SubEnds(text, m, naming, k);
      NoSpans(text, m, naming, k);
    } else if Hit(text, i, m) {
      var e := i + m(text, i);
      var rest := PassIsWoven(text, e, m, naming, k + 1);
      SubHits(text, i, m, naming, k);
      KeysAreWrittenOut(naming, k);
      LeftmostAtMatch(text, i, m, rest);
      PartsAtMatch(text, i, e, rest, FoundFrom(text, e, m));
      LeftmostInOrder(text, e, m, rest);
      WovenAtMatch(text, i, e, rest, naming, k);
      spans := [Span(i, e)] + rest;
    } else {
      spans := PassIsWoven(text, i + 1, m, naming, k);
      SubMisses(text, i, m, naming, k);
      LeftmostInOrder(text, i + 1, m, spans);
      LeftmostAtMiss(text, i, m, spans, naming, k);
    }
  }

  lemma LeftmostInOrder(text: string, i: nat, m: Matcher, spans: seq<Span>)
    requires Leftmost(text, i, m, spans)
    ensures InOrder(text, i, spans)
  {
  }

  lemma NoSpans(text: string, m: Matcher, naming: Naming, k: nat)
    ensures Leftmost(text, |text|, m, []) && AreParts(text, [], [])
    ensures Woven(text, |text|, [], naming, k) == ""
  {
  }

  /** What one pass makes of a text: keys stand at all leftmost matches, and the rest is copied. */
  ghost predicate Replaces(before: string, after: string, m: Matcher, spans: seq<Span>, naming: Naming)
  {
    Leftmost(before, 0, m, spans) && after == Woven(before, 0, spans, naming, 0)
  }

  /** A token stands at a position, between word boundaries: a is what is before it, b what follows. */
  lemma StandsBetween(a: string, token: string, b: string, isWord: char -> bool)
    requires token != ""
    ensures TokenAt(a + token + b, |a|, token, isWord) > 0
            <==> (a == "" || !isWord(a[|a| - 1])) && (b == "" || !isWord(b[0]))
  {
    var text := a + token + b;
    assert text[|a|..|a| + |token|] == token;
    assert b != "" ==> text[|a| + |token|] == b[0];
  }

  /** The turn of one token: when it stands somewhere it gets the next slot, and that slot's key stands at all its
      leftmost matches; otherwise nothing happens. */
  ghost predicate TokenTurn(before: string, after: string, slots: seq<string>, slots': seq<string>,
                            token: string, isWord: char -> bool)
  {
    if exists i: nat :: i < |before| && TokenAt(before, i, token, isWord) > 0 then
      && slots' == slots + [token]
      && exists spans :: spans != []
                         && Replaces(before, after, TokenMatcher(token, isWord), spans, Same(|slots|))
    else slots' == slots && after == before
  }

  /** A pass finds something exactly if its pattern matches somewhere. */
  lemma FindsWhatMatches(text: string, m: Matcher, spans: seq<Span>)
    requires Leftmost(text, 0, m, spans)
    ensures spans != [] <==> exists i: nat :: Hit(text, i, m)
  {
    hide InOrder;
    assert spans != [] ==> Hit(text, spans[0].start, m);
  }

  lemma OneTokenTurn(before: string, slots: seq<string>, token: string, isWord: char -> bool)
    ensures var m := TokenMatcher(token, isWord);
            if FoundFrom(before, 0, m) == [] then TokenTurn(before, before, slots, slots, token, isWord)
            else TokenTurn(before, SubFrom(before, 0, m, Same(|slots|), 0), slots, slots + [token], token, isWord)
  {
    hide SubFrom, FoundFrom, Woven, InOrder, TokenAt, Leftmost;
    var m := TokenMatcher(token, isWord);
    var spans := PassIsWoven(before, 0, m, Same(|slots|), 0);
    FindsWhatMatches(before, m, spans);
    TokenHits(before, token, isWord);
    assert Replaces(before, SubFrom(before, 0, m, Same(|slots|), 0), m, spans, Same(|slots|));
  }

  lemma TokenHits(text: string, token: string, isWord: char -> bool)
    ensures (exists i: nat :: Hit(text, i, TokenMatcher(token, isWord)))
            <==> exists i: nat :: i < |text| && TokenAt(text, i, token, isWord) > 0
  {
    forall i: nat | i < |text|
      ensures Hit(text, i, TokenMatcher(token, isWord)) <==> TokenAt(text, i, token, isWord) > 0
    {
    }
  }

  /** Over all tokens: the texts and slots each turn begins with, from the first to the result. */
  lemma {:induction false} TokensAreHidden(out: string, ph: seq<string>, tokens: seq<string>, isWord: char -> bool)
      returns (texts: seq<string>, slots: seq<seq<string>>)
    ensures |texts| == |slots| == |tokens| + 1
    ensures texts[0] == out && slots[0] == ph
    ensures (texts[|tokens|], slots[|tokens|]) == HideTokens(out, ph, tokens, isWord)
    ensures forall j :: 0 <= j < |tokens| ==> TokenTurn(texts[j], texts[j + 1], slots[j], slots[j + 1], tokens[j], isWord)
    decreases tokens
  {
    hide TokenTurn, SubFrom, FoundFrom;
    if tokens == [] {
      texts, slots := [out], [ph];
    } else {
      var m := TokenMatcher(tokens[0], isWord);
      OneTokenTurn(out, ph, tokens[0], isWord);
      var moreTexts, moreSlots;
      if FoundFrom(out, 0, m) == [] {
        moreTexts, moreSlots := TokensAreHidden(out, ph, tokens[1..], isWord);
      } else {
        moreTexts, moreSlots := TokensAreHidden(SubFrom(out, 0, m, Same(|ph|), 0), ph + [tokens[0]], tokens[1..], isWord);
      }
      texts, slots := [out] + moreTexts, [ph] + moreSlots;
    }
  }

  /** protect as a whole: the URLs of the text in order, then the placeholders of what is left, get numbered keys at
      all their leftmost matches; then the tokens have their turns, with slots counted on from the placeholders. */
  lemma ProtectHides(s: string, url: Matcher, placeholder: Matcher, tokens: seq<string>, isWord: char -> bool)
      returns (urlSpans: seq<Span>, noUrls: string, slotSpans: seq<Span>, texts: seq<string>, slots: seq<seq<string>>)
    ensures |texts| == |slots| == |tokens| + 1
    ensures Replaces(s, noUrls, url, urlSpans, Urls)
    ensures Replaces(noUrls, texts[0], placeholder, slotSpans, Slots)
    ensures AreParts(noUrls, slotSpans, slots[0])
    ensures forall j :: 0 <= j < |tokens| ==> TokenTurn(texts[j], texts[j + 1], slots[j], slots[j + 1], tokens[j], isWord)
    ensures var (out, ph, urls) := Protected(s, url, placeholder, tokens, isWord);
            out == texts[|tokens|] && ph == slots[|tokens|] && AreParts(s, urlSpans, urls)
  {
    hide TokenTurn, SubFrom, FoundFrom, Leftmost, Woven, InOrder, HideTokens;
    urlSpans := PassIsWoven(s, 0, url, Urls, 0);
    noUrls := SubFrom(s, 0, url, Urls, 0);
    slotSpans := PassIsWoven(noUrls, 0, placeholder, Slots, 0);
    texts, slots := TokensAreHidden(SubFrom(noUrls, 0, placeholder, Slots, 0), FoundFrom(noUrls, 0, placeholder), tokens, isWord);
  }

  // ----------------------------------------------------------- what matchers do

  /** Position i of the text is the k-th character of a key. */
  predicate InsideKey(text: string, i: nat, mark: Item, k: nat)
    requires IsMark(mark)
  {
    k < |Key(mark)| && k <= i && i - k + |Key(mark)| <= |text| && text[i - k..i - k + |Key(mark)|] == Key(mark)
  }

  /** Matches stay in the text and hold no bracket. */
  ghost predicate Fits(m: Matcher, text: string)
  {
    forall i: nat :: i < |text| ==> i + m(text, i) <= |text| && SentinelFree(text[i..i + m(text, i)])
  }

  ghost predicate SkipsKeys(m: Matcher, text: string)
  {
    forall i: nat, mark: Item, k: nat :: IsMark(mark) && InsideKey(text, i, mark, k) ==> m(text, i) == 0
  }

  lemma KeyChars(mark: Item, k: nat)
    requires IsMark(mark) && k < |Key(mark)|
    ensures Key(mark)[k] != '{' && Key(mark)[k] != '%'
    ensures 0 < k < |Key(mark)| - 1 ==> Key(mark)[k] == Body(mark)[k - 1] && !IsSentinel(Key(mark)[k])
    ensures k == 0 || k == |Key(mark)| - 1 ==> IsSentinel(Key(mark)[k])
  {
    var b := Body(mark);
    assert forall j :: 1 <= j < |b| ==> b[j] == b[1..][j - 1];
  }

  // ------------------------------------------------------------ passes on items

  function SubItems(pre: string, items: seq<Item>, m: Matcher, naming: Naming, k: nat): seq<Item>
    decreases |items|
  {
    if items == [] then []
    else if IsMark(items[0]) then [items[0]] + SubItems(pre + Key(items[0]), items[1..], m, naming, k)
    else
      var n := m(pre + Render(items), |pre|);
      if 0 < n <= |items| then
        [MarkOf(naming, k)] + SubItems(pre + Render(items[..n]), items[n..], m, naming, k + 1)
      else [items[0]] + SubItems(pre + [items[0].c], items[1..], m, naming, k)
  }

  /** The parts found from a position on are what the pass's markers will stand for. */
  predicate Names(naming: Naming, k: nat, found: seq<string>, ph: seq<string>, urls: seq<string>)
    decreases found
  {
    found == [] ||
    (Known(MarkOf(naming, k), ph, urls) && Part(MarkOf(naming, k), ph, urls) == found[0]
     && Names(naming, k + 1, found[1..], ph, urls))
  }

  /** A stretch without a match is copied. */
  lemma {:induction false} CopiesStretch(text: string, i: nat, j: nat, m: Matcher, naming: Naming, k: nat)
    requires i <= j <= |text| && forall x: nat :: i <= x < j ==> m(text, x) == 0
    ensures SubFrom(text, i, m, naming, k) == text[i..j] + SubFrom(text, j, m, naming, k)
    ensures FoundFrom(text, i, m) == FoundFrom(text, j, m)
    decreases j - i
  {
    hide Key, MarkOf, SubFrom, FoundFrom;
    if i < j {
      SubMisses(text, i, m, naming, k);
      CopiesStretch(text, i + 1, j, m, naming, k);
      assert text[i..j] == [text[i]] + text[i + 1..j];
    }
  }

  lemma MarkIsNotPlain(items: seq<Item>, n: nat)
    requires items != [] && IsMark(items[0]) && 0 < n <= |Render(items)|
    ensures !SentinelFree(Render(items)[..n])
  {
    hide Body;
    assert Render(items)[..n][0] == OPEN;
  }

  lemma PlainTail(c: char, tail: string, n: nat)
    requires 0 < n <= 1 + |tail| && SentinelFree(([c] + tail)[..n])
    ensures SentinelFree(tail[..n - 1])
  {
    var head := ([c] + tail)[..n];
    assert forall i :: 0 <= i < n - 1 ==> tail[i] == head[i + 1];
  }

  lemma {:induction false} PlainPrefix(items: seq<Item>, n: nat)
    requires n <= |Render(items)| && SentinelFree(Render(items)[..n])
    ensures n <= |items| && forall i :: 0 <= i < n ==> items[i].Ch?
  {
    hide SentinelFree, Key;
    if n > 0 {
      if IsMark(items[0]) {
        MarkIsNotPlain(items, n);
      } else {
        PlainTail(items[0].c, Render(items[1..]), n);
        PlainPrefix(items[1..], n - 1);
        assert forall i :: 0 < i < n ==> items[i] == items[1..][i - 1];
      }
    }
  }

  lemma {:induction false} PlainLength(items: seq<Item>)
    requires forall i :: 0 <= i < |items| ==> items[i].Ch?
    ensures |Render(items)| == |items|
  {
    if items != [] {
      PlainLength(items[1..]);
    }
  }

  lemma KeyIsSkipped(pre: string, mark: Item, post: string, m: Matcher, naming: Naming, k: nat)
    requires IsMark(mark) && SkipsKeys(m, pre + Key(mark) + post)
    ensures var text := pre + Key(mark) + post; var after := |pre| + |Key(mark)|;
            && SubFrom(text, |pre|, m, naming, k) == Key(mark) + SubFrom(text, after, m, naming, k)
            && FoundFrom(text, |pre|, m) == FoundFrom(text, after, m)
  {
    hide Key, MarkOf, SubFrom, FoundFrom;
    var text := pre + Key(mark) + post;
    var after := |pre| + |Key(mark)|;
    assert text[|pre|..after] == Key(mark);
    forall x: nat | |pre| <= x < after
      ensures m(text, x) == 0
    {
      assert InsideKey(text, x, mark, x - |pre|);
    }
    CopiesStretch(text, |pre|, after, m, naming, k);
  }

  /** A match takes whole characters off the items. */
  lemma MatchTakesCharacters(pre: string, items: seq<Item>, n: nat, ph: seq<string>, urls: seq<string>)
    requires AllKnown(items, ph, urls) && n <= |Render(items)| && SentinelFree(Render(items)[..n])
    ensures n <= |items| && |Render(items[..n])| == n && Render(items)[..n] == Render(items[..n])
    ensures pre + Render(items) == pre + Render(items[..n]) + Render(items[n..])
    ensures Expand(items, ph, urls) == Render(items[..n]) + Expand(items[n..], ph, urls)
  {
    hide SentinelFree, Render, Expand, Known;
    PlainPrefix(items, n);
    PlainLength(items[..n]);
    assert items[..n] + items[n..] == items;
    RenderAppend(items[..n], items[n..]);
    ExpandPlain(items[..n], ph, urls);
    ExpandAppend(items[..n], items[n..], ph, urls);
  }

  lemma FoundHere(text: string, i: nat, m: Matcher, naming: Naming, k: nat, ph: seq<string>, urls: seq<string>)
    requires i < |text| && 0 < m(text, i) <= |text| - i && Names(naming, k, FoundFrom(text, i, m), ph, urls)
    ensures Known(MarkOf(naming, k), ph, urls) && Part(MarkOf(naming, k), ph, urls) == text[i..i + m(text, i)]
    ensures Names(naming, k + 1, FoundFrom(text, i + m(text, i), m), ph, urls)
  {
    hide MarkOf, Part;
    assert FoundFrom(text, i, m)[1..] == FoundFrom(text, i + m(text, i), m);
  }

  /** What a pass does to items that stand after a text already passed. */
  ghost predicate Tracks(pre: string, items: seq<Item>, m: Matcher, naming: Naming, k: nat, ph: seq<string>, urls: seq<string>)
    requires AllKnown(items, ph, urls)
  {
    var done := SubItems(pre, items, m, naming, k);
    && SubFrom(pre + Render(items), |pre|, m, naming, k) == Render(done)
    && Clean(done) && AllKnown(done, ph, urls)
    && Expand(done, ph, urls) == Expand(items, ph, urls)
  }

  lemma CleanTail(items: seq<Item>, n: nat)
    requires Clean(items) && n <= |items|
    ensures Clean(items[n..])
  {
  }

  lemma CleanCons(head: Item, items: seq<Item>, ph: seq<string>, urls: seq<string>)
    requires Clean(items) && AllKnown(items, ph, urls) && Known(head, ph, urls) && (head.Ch? ==> !IsSentinel(head.c))
    ensures Clean([head] + items) && AllKnown([head] + items, ph, urls)
    ensures Expand([head] + items, ph, urls) == Part(head, ph, urls) + Expand(items, ph, urls)
    ensures Render([head] + items) == Written(head) + Render(items)
  {
    assert ([head] + items)[1..] == items;
  }

  lemma RenderLength(items: seq<Item>)
    requires items != []
    ensures |Render(items)| > 0
  {
    hide Body;
  }

  lemma SubItemsAtMatch(pre: string, items: seq<Item>, m: Matcher, naming: Naming, k: nat)
    requires items != [] && items[0].Ch? && 0 < m(pre + Render(items), |pre|) <= |items|
    ensures var n := m(pre + Render(items), |pre|);
            SubItems(pre, items, m, naming, k)
            == [MarkOf(naming, k)] + SubItems(pre + Render(items[..n]), items[n..], m, naming, k + 1)
  {
    hide Render, MarkOf;
  }

  lemma {:induction false} SubAtMatch(pre: string, items: seq<Item>, m: Matcher, naming: Naming, k: nat,
                                      ph: seq<string>, urls: seq<string>)
    requires Clean(items) && AllKnown(items, ph, urls) && items != [] && items[0].Ch?
    requires Fits(m, pre + Render(items)) && SkipsKeys(m, pre + Render(items)) && m(pre + Render(items), |pre|) > 0
    requires Names(naming, k, FoundFrom(pre + Render(items), |pre|, m), ph, urls)
    ensures Tracks(pre, items, m, naming, k, ph, urls)
    decreases |items|, 0
  {
    hide SkipsKeys, MarkOf, Names, Part, Body, Clean, Known, SentinelFree, Expand, FoundFrom, SubFrom, SubItems, Key, Render;
    RenderLength(items);
    var text := pre + Render(items);
    var n := m(text, |pre|);
    assert |text| > |pre|;
    assert text[|pre|..|pre| + n] == Render(items)[..n];
    MatchTakesCharacters(pre, items, n, ph, urls);
    FoundHere(text, |pre|, m, naming, k, ph, urls);
    SubHits(text, |pre|, m, naming, k);
    SubItemsAtMatch(pre, items, m, naming, k);
    CleanTail(items, n);
    SubTracks(pre + Render(items[..n]), items[n..], m, naming, k + 1, ph, urls);
    CleanCons(MarkOf(naming, k), SubItems(pre + Render(items[..n]), items[n..], m, naming, k + 1), ph, urls);
  }

  /** A pass over the text is a pass over the items, and leaves what they stand for as it is. */
  lemma {:induction false} SubTracks(pre: string, items: seq<Item>, m: Matcher, naming: Naming, k: nat,
                                     ph: seq<string>, urls: seq<string>)
    requires Clean(items) && AllKnown(items, ph, urls)
    requires Fits(m, pre + Render(items)) && SkipsKeys(m, pre + Render(items))
    requires Names(naming, k, FoundFrom(pre + Render(items), |pre|, m), ph, urls)
    ensures Tracks(pre, items, m, naming, k, ph, urls)
    decreases |items|, 1
  {
    hide Fits, SkipsKeys, Key, MarkOf, Names, Part, Body, SentinelFree;
    var text := pre + Render(items);
    if items == [] {
    } else if IsMark(items[0]) {
      SubAtMark(pre, items, m, naming, k, ph, urls);
    } else if m(text, |pre|) > 0 {
      SubAtMatch(pre, items, m, naming, k, ph, urls);
    } else {
      SubAtOther(pre, items, m, naming, k, ph, urls);
    }
  }

  lemma {:induction false} SubAtMark(pre: string, items: seq<Item>, m: Matcher, naming: Naming, k: nat,
                                     ph: seq<string>, urls: seq<string>)
    requires Clean(items) && AllKnown(items, ph, urls) && items != [] && IsMark(items[0])
    requires Fits(m, pre + Render(items)) && SkipsKeys(m, pre + Render(items))
    requires Names(naming, k, FoundFrom(pre + Render(items), |pre|, m), ph, urls)
    ensures Tracks(pre, items, m, naming, k, ph, urls)
    decreases |items|, 0
  {
    hide Fits, SkipsKeys, Key, MarkOf, Names, Part, Body, Clean, SentinelFree, SubFrom, FoundFrom;
    var rest := Render(items[1..]);
    assert pre + Render(items) == pre + Key(items[0]) + rest;
    KeyIsSkipped(pre, items[0], rest, m, naming, k);
    CleanTail(items, 1);
    SubTracks(pre + Key(items[0]), items[1..], m, naming, k, ph, urls);
    CleanCons(items[0], SubItems(pre + Key(items[0]), items[1..], m, naming, k), ph, urls);
  }

  lemma {:induction false} SubAtOther(pre: string, items: seq<Item>, m: Matcher, naming: Naming, k: nat,
                                      ph: seq<string>, urls: seq<string>)
    requires Clean(items) && AllKnown(items, ph, urls) && items != [] && items[0].Ch?
    requires Fits(m, pre + Render(items)) && SkipsKeys(m, pre + Render(items)) && m(pre + Render(items), |pre|) == 0
    requires Names(naming, k, FoundFrom(pre + Render(items), |pre|, m), ph, urls)
    ensures Tracks(pre, items, m, naming, k, ph, urls)
    decreases |items|, 0
  {
    hide Fits, SkipsKeys, Key, MarkOf, Names, Part, Body, Known, SentinelFree;
    assert pre + Render(items) == pre + [items[0].c] + Render(items[1..]);
    CleanTail(items, 1);
    SubTracks(pre + [items[0].c], items[1..], m, naming, k, ph, urls);
    CleanCons(items[0], SubItems(pre + [items[0].c], items[1..], m, naming, k), ph, urls);
  }

  // ------------------------------------------------- the patterns that are used

  /** A URL match stays in the text. */
  ghost predicate IsUrlPattern(m: Matcher)
  {
    forall text: string, i: nat :: i < |text| ==> i + m(text, i) <= |text|
  }

  /** A placeholder begins with a brace or a percent sign and holds no bracket. */
  ghost predicate IsPlaceholderPattern(m: Matcher)
  {
    forall text: string, i: nat :: i < |text| && m(text, i) > 0 ==>
      i + m(text, i) <= |text| && SentinelFree(text[i..i + m(text, i)]) && text[i] in {'{', '%'}
  }

  /** \w as far as the markers use it. */
  predicate TakesMarkersForWords(isWord: char -> bool)
  {
    isWord('U') && isWord('P') && forall c :: IsDigit(c) ==> isWord(c)
  }

  /** The inside of a marker: a U or a P and digits. */
  predicate LooksLikeMark(s: string)
  {
    |s| >= 2 && s[0] in {'U', 'P'} && AllDigits(s[1..])
  }

  predicate IsToken(s: string)
  {
    s != "" && SentinelFree(s) && !LooksLikeMark(s)
  }

  lemma UrlsOfPlainText(url: Matcher, s: string)
    requires IsUrlPattern(url) && SentinelFree(s)
    ensures Fits(url, s) && SkipsKeys(url, s)
  {
    forall i: nat, mark: Item, k: nat | IsMark(mark) && InsideKey(s, i, mark, k)
      ensures IsSentinel(s[i - k])
    {
      assert s[i - k..i - k + |Key(mark)|][0] == OPEN;
    }
  }

  lemma KeyCharAt(text: string, i: nat, mark: Item, k: nat, j: nat)
    requires IsMark(mark) && InsideKey(text, i, mark, k) && j < |Key(mark)|
    ensures text[i - k + j] == Key(mark)[j]
  {
    hide Key;
    assert text[i - k..i - k + |Key(mark)|][j] == Key(mark)[j];
  }

  lemma PlaceholdersSkipKeys(m: Matcher, text: string)
    requires IsPlaceholderPattern(m)
    ensures Fits(m, text) && SkipsKeys(m, text)
  {
    hide InsideKey, Key;
    forall i: nat, mark: Item, k: nat | IsMark(mark) && InsideKey(text, i, mark, k)
      ensures i < |text| && k < |Key(mark)| && text[i] == Key(mark)[k]
    {
      KeyBounds(text, i, mark, k);
      KeyCharAt(text, i, mark, k, k);
    }
    forall mark: Item, k: nat | IsMark(mark) && k < |Key(mark)|
      ensures Key(mark)[k] !in {'{', '%'}
    {
      KeyChars(mark, k);
    }
  }

  lemma KeyBounds(text: string, i: nat, mark: Item, k: nat)
    requires IsMark(mark) && InsideKey(text, i, mark, k)
    ensures k < |Key(mark)| && k <= i && i - k + |Key(mark)| <= |text| && i < |text|
  {
  }

  lemma TokenFits(token: string, isWord: char -> bool, text: string)
    requires SentinelFree(token)
    ensures Fits(TokenMatcher(token, isWord), text)
  {
  }

  /** In the middle of a marker's inside a word character stands before the match. */
  lemma WordBefore(text: string, i: nat, mark: Item, k: nat, isWord: char -> bool)
    requires TakesMarkersForWords(isWord) && IsMark(mark) && InsideKey(text, i, mark, k) && 1 < k < |Key(mark)|
    ensures 0 < i <= |text| && isWord(text[i - 1])
  {
    hide InsideKey, Key, TakesMarkersForWords;
    KeyBounds(text, i, mark, k);
    KeyCharAt(text, i, mark, k, k - 1);
    KeyIsWord(mark, k - 1, isWord);
  }

  /** A match of only a part of a marker's inside, from its start, has a word character after it. */
  lemma WordAfter(text: string, i: nat, mark: Item, n: nat, isWord: char -> bool)
    requires TakesMarkersForWords(isWord) && IsMark(mark) && InsideKey(text, i, mark, 1) && n < |Body(mark)|
    ensures i + n < |text| && isWord(text[i + n])
  {
    hide InsideKey, Key, Body, TakesMarkersForWords, SentinelFree, AllDigits;
    KeyBounds(text, i, mark, 1);
    KeyLength(mark);
    KeyCharAt(text, i, mark, 1, 1 + n);
    KeyIsWord(mark, 1 + n, isWord);
  }

  /** No token begins with a bracket. */
  lemma NotAtBracket(token: string, text: string, i: nat, mark: Item, k: nat)
    requires IsToken(token) && IsMark(mark) && InsideKey(text, i, mark, k)
    requires i + |token| <= |text| && text[i..i + |token|] == token
    ensures 0 < k < |Key(mark)| - 1
  {
    hide InsideKey, Key, Body, LooksLikeMark;
    KeyBounds(text, i, mark, k);
    KeyCharAt(text, i, mark, k, k);
    KeyChars(mark, k);
    CharOfMatch(token, text, i, 0);
  }

  /** A token matches nowhere inside a marker: it holds no bracket, word characters surround every
      part of the marker's inside, and the whole inside is not a token. */
  lemma TokenSkipsKey(token: string, isWord: char -> bool, text: string, i: nat, mark: Item, k: nat)
    requires IsToken(token) && TakesMarkersForWords(isWord) && IsMark(mark) && InsideKey(text, i, mark, k)
    ensures TokenAt(text, i, token, isWord) == 0
  {
    hide InsideKey, Key, TakesMarkersForWords, SentinelFree;
    if i + |token| <= |text| && text[i..i + |token|] == token {
      NotAtBracket(token, text, i, mark, k);
      KeyLength(mark);
      EndsInside(token, text, i, mark, k);
      if k > 1 {
        WordBefore(text, i, mark, k, isWord);
      } else if |token| < |Body(mark)| {
        WordAfter(text, i, mark, |token|, isWord);
      } else {
        MatchesBody(token, text, i, mark);
      }
    }
  }

  lemma MatchesBody(token: string, text: string, i: nat, mark: Item)
    requires IsMark(mark) && InsideKey(text, i, mark, 1) && |token| == |Body(mark)|
    requires i + |token| <= |text| && text[i..i + |token|] == token
    ensures token == Body(mark)
  {
    hide InsideKey, Key, Body, SentinelFree, AllDigits, IsSentinel;
    KeyLength(mark);
    forall j | 0 <= j < |token|
      ensures token[j] == Body(mark)[j]
    {
      BodyCharAt(text, i, mark, j);
      CharOfMatch(token, text, i, j);
    }
  }

  lemma BodyCharAt(text: string, i: nat, mark: Item, j: nat)
    requires IsMark(mark) && InsideKey(text, i, mark, 1) && j < |Body(mark)|
    ensures i + j < |text| && text[i + j] == Body(mark)[j]
  {
    hide InsideKey, Key, Body;
    KeyBounds(text, i, mark, 1);
    KeyLength(mark);
    KeyCharAt(text, i, mark, 1, 1 + j);
    KeyChars(mark, 1 + j);
  }

  lemma CharOfMatch(token: string, text: string, i: nat, j: nat)
    requires i + |token| <= |text| && text[i..i + |token|] == token && j < |token|
    ensures token[j] == text[i + j]
  {
  }

  lemma KeyLength(mark: Item)
    requires IsMark(mark)
    ensures |Key(mark)| == |Body(mark)| + 2
  {
  }

  lemma KeyIsWord(mark: Item, k: nat, isWord: char -> bool)
    requires IsMark(mark) && TakesMarkersForWords(isWord) && 0 < k < |Key(mark)| - 1
    ensures isWord(Key(mark)[k])
  {
    KeyChars(mark, k);
    if k > 1 {
      assert Body(mark)[k - 1] == Body(mark)[1..][k - 2];
    }
  }

  lemma EndsInside(token: string, text: string, i: nat, mark: Item, k: nat)
    requires token != "" && SentinelFree(token) && IsMark(mark) && InsideKey(text, i, mark, k)
    requires i + |token| <= |text| && text[i..i + |token|] == token && 0 < k
    ensures k + |token| < |Key(mark)|
  {
    hide InsideKey, Key;
    KeyBounds(text, i, mark, k);
    var last := |Key(mark)| - 1;
    KeyCharAt(text, i, mark, k, last);
    KeyChars(mark, last);
    if k + |token| >= |Key(mark)| {
      CharOfMatch(token, text, i, last - k);
    }
  }

  lemma TokenSkipsKeys(token: string, isWord: char -> bool, text: string)
    requires IsToken(token) && TakesMarkersForWords(isWord)
    ensures SkipsKeys(TokenMatcher(token, isWord), text)
  {
    hide InsideKey, TokenAt, IsToken;
    forall i: nat, mark: Item, k: nat | IsMark(mark) && InsideKey(text, i, mark, k)
      ensures TokenMatcher(token, isWord)(text, i) == 0
    {
      TokenSkipsKey(token, isWord, text, i, mark, k);
    }
  }

  // ------------------------------------------------------------------ the passes

  lemma {:induction false} FoundFits(text: string, i: nat, m: Matcher)
    requires i <= |text| && Fits(m, text)
    ensures AllSentinelFree(FoundFrom(text, i, m))
    decreases |text| - i
  {
    hide SentinelFree;
    if i < |text| {
      FoundFits(text, if 0 < m(text, i) <= |text| - i then i + m(text, i) else i + 1, m);
    }
  }

  lemma {:induction false} FoundTokens(text: string, i: nat, token: string, isWord: char -> bool)
    requires i <= |text|
    ensures forall r :: 0 <= r < |FoundFrom(text, i, TokenMatcher(token, isWord))| ==>
              FoundFrom(text, i, TokenMatcher(token, isWord))[r] == token
    decreases |text| - i
  {
    if i < |text| {
      var n := TokenAt(text, i, token, isWord);
      FoundTokens(text, if 0 < n <= |text| - i then i + n else i + 1, token, isWord);
    }
  }

  lemma {:induction false} NumberedNames(naming: Naming, k: nat, found: seq<string>, ph: seq<string>, urls: seq<string>)
    requires (naming == Urls && k <= |urls| && found == urls[k..]) || (naming == Slots && k <= |ph| && found == ph[k..])
    ensures Names(naming, k, found, ph, urls)
    decreases found
  {
    if found != [] {
      NumberedNames(naming, k + 1, found[1..], ph, urls);
    }
  }

  lemma {:induction false} SameNames(n: nat, k: nat, found: seq<string>, ph: seq<string>, urls: seq<string>)
    requires n < |ph| && forall r :: 0 <= r < |found| ==> found[r] == ph[n]
    ensures Names(Same(n), k, found, ph, urls)
    decreases found
  {
    if found != [] {
      SameNames(n, k + 1, found[1..], ph, urls);
    }
  }

  lemma {:induction false} ExpandGrows(items: seq<Item>, ph: seq<string>, more: seq<string>, urls: seq<string>)
    requires AllKnown(items, ph, urls)
    ensures AllKnown(items, ph + more, urls) && Expand(items, ph + more, urls) == Expand(items, ph, urls)
  {
    if items != [] {
      ExpandGrows(items[1..], ph, more, urls);
    }
  }

  /** Whatever the tokens and their order, hiding them changes nothing in what unprotect gives back. */
  lemma {:induction false} TokensComeBack(items: seq<Item>, ph: seq<string>, urls: seq<string>,
                                          tokens: seq<string>, isWord: char -> bool)
    requires Clean(items) && AllKnown(items, ph, urls) && AllSentinelFree(ph) && AllSentinelFree(urls)
    requires TakesMarkersForWords(isWord) && forall j :: 0 <= j < |tokens| ==> IsToken(tokens[j])
    ensures var (out, slots) := HideTokens(Render(items), ph, tokens, isWord);
            Unprotected(out, slots, urls) == Expand(items, ph, urls)
    decreases tokens
  {
    hide Unprotected, Render, Expand, Clean, AllKnown, TakesMarkersForWords, IsToken, SubFrom, FoundFrom;
    if tokens == [] {
      EveryMarkComesBack(items, ph, urls);
    } else {
      var m := TokenMatcher(tokens[0], isWord);
      if FoundFrom(Render(items), 0, m) == [] {
        TokensComeBack(items, ph, urls, tokens[1..], isWord);
      } else {
        var after := TokenPass(items, ph, urls, tokens[0], isWord);
        TokensComeBack(after, ph + [tokens[0]], urls, tokens[1..], isWord);
      }
    }
  }

  lemma TokenPass(items: seq<Item>, ph: seq<string>, urls: seq<string>, token: string, isWord: char -> bool)
      returns (after: seq<Item>)
    requires Clean(items) && AllKnown(items, ph, urls) && AllSentinelFree(ph)
    requires TakesMarkersForWords(isWord) && IsToken(token)
    ensures Clean(after) && AllKnown(after, ph + [token], urls) && AllSentinelFree(ph + [token])
    ensures Render(after) == SubFrom(Render(items), 0, TokenMatcher(token, isWord), Same(|ph|), 0)
    ensures Expand(after, ph + [token], urls) == Expand(items, ph, urls)
  {
    hide Render, Expand, Clean, AllKnown, TakesMarkersForWords, LooksLikeMark, SubFrom, FoundFrom, SkipsKeys, Fits, Names, SentinelFree;
    var text := Render(items);
    var m := TokenMatcher(token, isWord);
    assert "" + text == text;
    TokenFits(token, isWord, text);
    TokenSkipsKeys(token, isWord, text);
    FoundTokens(text, 0, token, isWord);
    SameNames(|ph|, 0, FoundFrom(text, 0, m), ph + [token], urls);
    ExpandGrows(items, ph, [token], urls);
    SubTracks("", items, m, Same(|ph|), 0, ph + [token], urls);
    after := SubItems("", items, m, Same(|ph|), 0);
  }

  /** A pass that numbers its matches, over a text none of whose marks the pass's own parts explain yet. */
  lemma NumberedPass(items: seq<Item>, m: Matcher, naming: Naming, ph: seq<string>, urls: seq<string>)
      returns (after: seq<Item>)
    requires Clean(items) && AllKnown(items, ph, urls) && Fits(m, Render(items)) && SkipsKeys(m, Render(items))
    requires naming == Urls || naming == Slots
    requires FoundFrom(Render(items), 0, m) == if naming == Urls then urls else ph
    ensures Clean(after) && AllKnown(after, ph, urls) && AllSentinelFree(FoundFrom(Render(items), 0, m))
    ensures Render(after) == SubFrom(Render(items), 0, m, naming, 0)
    ensures Expand(after, ph, urls) == Expand(items, ph, urls)
  {
    hide Render, Expand, Clean, AllKnown, SubFrom, FoundFrom, SkipsKeys, Fits, Names, SentinelFree;
    var text := Render(items);
    assert "" + text == text;
    FoundFits(text, 0, m);
    NumberedNames(naming, 0, FoundFrom(text, 0, m), ph, urls);
    SubTracks("", items, m, naming, 0, ph, urls);
    after := SubItems("", items, m, naming, 0);
  }

  /** protect, then unprotect: the text again, on every text without brackets, whatever the tokens and
      the order they are hidden in, although a later pass hides parts next to and around earlier markers. */
  lemma UnprotectUndoesProtect(s: string, url: Matcher, placeholder: Matcher, tokens: seq<string>, isWord: char -> bool)
    requires SentinelFree(s)
    requires IsUrlPattern(url) && IsPlaceholderPattern(placeholder) && TakesMarkersForWords(isWord)
    requires forall j :: 0 <= j < |tokens| ==> IsToken(tokens[j])
    ensures var (out, ph, urls) := Protected(s, url, placeholder, tokens, isWord);
            Unprotected(out, ph, urls) == s
  {
    hide Unprotected, Render, Expand, Clean, AllKnown, TakesMarkersForWords, IsToken, SubFrom, FoundFrom, SentinelFree,
         IsUrlPattern, IsPlaceholderPattern, SkipsKeys, Fits, HideTokens;
    var plain := Chars(s);
    RenderChars(s);
    assert forall i :: 0 <= i < |plain| ==> plain[i].Ch?;
    UrlsOfPlainText(url, s);
    var urls := FoundFrom(s, 0, url);
    ExpandPlain(plain, [], urls);
    var noUrls := NumberedPass(plain, url, Urls, [], urls);
    var text := Render(noUrls);
    PlaceholdersSkipKeys(placeholder, text);
    var ph := FoundFrom(text, 0, placeholder);
    ExpandGrows(noUrls, [], ph, urls);
    assert [] + ph == ph;
    var hidden := NumberedPass(noUrls, placeholder, Slots, ph, urls);
    TokensComeBack(hidden, ph, urls, tokens, isWord);
  }
}
