/** The markers of scripts/i18n_fill_data/mt_fill_all.py: texts in which some parts stand as
    bracketed keys, and how unprotect puts the parts back, one str.replace after the other. */
module Markers {
  const OPEN: char := '\U{27E6}'
  const CLOSE: char := '\U{27E7}'

  predicate IsSentinel(c: char)
  {
    c == OPEN || c == CLOSE
  }

  predicate SentinelFree(s: string)
  {
    forall i :: 0 <= i < |s| ==> !IsSentinel(s[i])
  }

  // ------------------------------------------------------------------- numerals

  predicate IsDigit(c: char)
  {
    '0' <= c <= '9'
  }

  predicate AllDigits(s: string)
  {
    forall i :: 0 <= i < |s| ==> IsDigit(s[i])
  }

  function Digits(n: nat): (d: string)
    ensures d != "" && AllDigits(d)
  {
    if n < 10 then ['0' + n as char] else Digits(n / 10) + ['0' + (n % 10) as char]
  }

  /** The number padded with zeros to a width, as %04d prints it for width 4. */
  function Padded(d: string, width: nat): (p: string)
    ensures AllDigits(d) ==> AllDigits(p)
    ensures |p| >= |d|
    decreases width - |d|
  {
    if |d| >= width then d else Padded("0" + d, width)
  }

  function Value(s: string): int
  {
    if s == "" then 0 else 10 * Value(s[..|s| - 1]) + (s[|s| - 1] as int - '0' as int)
  }

  lemma {:induction false} DigitsValue(n: nat)
    ensures Value(Digits(n)) == n
  {
    if n >= 10 {
      DigitsValue(n / 10);
      assert Digits(n)[..|Digits(n)| - 1] == Digits(n / 10);
    }
  }

  lemma {:induction false} ZeroAhead(s: string)
    ensures Value("0" + s) == Value(s)
  {
    if s != "" {
      ZeroAhead(s[..|s| - 1]);
      assert ("0" + s)[..|s|] == "0" + s[..|s| - 1];
    }
  }

  lemma {:induction false} PaddedValue(d: string, width: nat)
    ensures Value(Padded(d, width)) == Value(d)
    decreases width - |d|
  {
    if |d| < width {
      ZeroAhead(d);
      PaddedValue("0" + d, width);
    }
  }

  // ---------------------------------------------------------------------- items

  /** A character of the text, the n-th hidden URL, or the n-th hidden placeholder or token. */
  datatype Item = Ch(c: char) | Url(n: nat) | Slot(n: nat)

  predicate IsMark(item: Item)
  {
    !item.Ch?
  }

  function Body(mark: Item): (b: string)
    requires IsMark(mark)
    ensures SentinelFree(b)
    ensures |b| >= 2 && b[0] in {'U', 'P'} && AllDigits(b[1..])
  {
    match mark
    case Url(n) => "U" + Padded(Digits(n), 4)
    case Slot(n) => "P" + Digits(n)
  }

  function Key(mark: Item): string
    requires IsMark(mark)
  {
    [OPEN] + Body(mark) + [CLOSE]
  }

  /** Markers are fresh: no two items share a key. */
  lemma KeysDiffer(a: Item, b: Item)
    requires IsMark(a) && IsMark(b) && Body(a) == Body(b)
    ensures a == b
  {
    assert Body(a)[1..] == Body(b)[1..];
    assert Body(a)[1..] == if a.Url? then Padded(Digits(a.n), 4) else Digits(a.n);
    assert Body(b)[1..] == if b.Url? then Padded(Digits(b.n), 4) else Digits(b.n);
    DigitsValue(a.n);
    DigitsValue(b.n);
    PaddedValue(Digits(a.n), 4);
    PaddedValue(Digits(b.n), 4);
  }

  function Written(item: Item): string
  {
    if item.Ch? then [item.c] else Key(item)
  }

  function Render(items: seq<Item>): string
  {
    if items == [] then "" else Written(items[0]) + Render(items[1..])
  }

  predicate Clean(items: seq<Item>)
  {
    forall i :: 0 <= i < |items| && items[i].Ch? ==> !IsSentinel(items[i].c)
  }

  function Chars(s: string): (items: seq<Item>)
    ensures SentinelFree(s) ==> Clean(items)
  {
    seq(|s|, i requires 0 <= i < |s| => Ch(s[i]))
  }

  lemma {:induction false} RenderChars(s: string)
    ensures Render(Chars(s)) == s
  {
    if s != "" {
      RenderChars(s[1..]);
      assert Chars(s)[1..] == Chars(s[1..]);
    }
  }

  lemma {:induction false} RenderAppend(a: seq<Item>, b: seq<Item>)
    ensures Render(a + b) == Render(a) + Render(b)
  {
    hide Written;
    if a == [] {
      assert a + b == b;
    } else {
      RenderAppend(a[1..], b);
      assert (a + b)[0] == a[0] && (a + b)[1..] == a[1..] + b;
    }
  }

  /** The hidden part a mark stands for. */
  predicate Known(item: Item, ph: seq<string>, urls: seq<string>)
  {
    match item
    case Ch(_) => true
    case Url(n) => n < |urls|
    case Slot(n) => n < |ph|
  }

  predicate AllKnown(items: seq<Item>, ph: seq<string>, urls: seq<string>)
  {
    forall i :: 0 <= i < |items| ==> Known(items[i], ph, urls)
  }

  function Part(item: Item, ph: seq<string>, urls: seq<string>): string
    requires Known(item, ph, urls)
  {
    match item
    case Ch(c) => [c]
    case Url(n) => urls[n]
    case Slot(n) => ph[n]
  }

  /** The text the items stand for. */
  function Expand(items: seq<Item>, ph: seq<string>, urls: seq<string>): string
    requires AllKnown(items, ph, urls)
  {
    if items == [] then "" else Part(items[0], ph, urls) + Expand(items[1..], ph, urls)
  }

  lemma {:induction false} ExpandAppend(a: seq<Item>, b: seq<Item>, ph: seq<string>, urls: seq<string>)
    requires AllKnown(a, ph, urls) && AllKnown(b, ph, urls)
    ensures AllKnown(a + b, ph, urls) && Expand(a + b, ph, urls) == Expand(a, ph, urls) + Expand(b, ph, urls)
  {
    if a == [] {
      assert a + b == b;
    } else {
      ExpandAppend(a[1..], b, ph, urls);
      assert (a + b)[1..] == a[1..] + b;
    }
  }

  lemma {:induction false} ExpandPlain(items: seq<Item>, ph: seq<string>, urls: seq<string>)
    requires forall i :: 0 <= i < |items| ==> items[i].Ch?
    ensures AllKnown(items, ph, urls) && Expand(items, ph, urls) == Render(items)
  {
    if items != [] {
      ExpandPlain(items[1..], ph, urls);
    }
  }

  // ------------------------------------------------------------------ unprotect

  predicate StartsWith(s: string, prefix: string)
  {
    |prefix| <= |s| && s[..|prefix|] == prefix
  }

  /** str.replace: every occurrence from the left, none overlapping. */
  function ReplaceAll(s: string, pat: string, with: string): string
    requires pat != ""
    decreases |s|
  {
    if s == "" then ""
    else if StartsWith(s, pat) then with + ReplaceAll(s[|pat|..], pat, with)
    else [s[0]] + ReplaceAll(s[1..], pat, with)
  }

  function Subst(items: seq<Item>, mark: Item, part: string): seq<Item>
  {
    if items == [] then []
    else (if items[0] == mark then Chars(part) else [items[0]]) + Subst(items[1..], mark, part)
  }

  /** A pattern that begins with the opening bracket is not found in a stretch without one. */
  lemma {:induction false} SkipsPlain(plain: string, rest: string, pat: string, with: string)
    requires pat != "" && pat[0] == OPEN && OPEN !in plain
    ensures ReplaceAll(plain + rest, pat, with) == plain + ReplaceAll(rest, pat, with)
  {
    if plain == "" {
      assert plain + rest == rest;
    } else {
      assert (plain + rest)[1..] == plain[1..] + rest;
      assert (plain + rest)[0] == plain[0];
      SkipsPlain(plain[1..], rest, pat, with);
    }
  }

  /** What precedes the first closing bracket. */
  function UntilClose(s: string): string
  {
    if s == "" || s[0] == CLOSE then "" else [s[0]] + UntilClose(s[1..])
  }

  lemma {:induction false} BodyUntilClose(body: string, rest: string)
    requires CLOSE !in body
    ensures UntilClose(body + ([CLOSE] + rest)) == body
  {
    var s := body + ([CLOSE] + rest);
    if body == "" {
      assert s == [CLOSE] + rest;
    } else {
      assert s[1..] == body[1..] + ([CLOSE] + rest);
      BodyUntilClose(body[1..], rest);
    }
  }

  lemma BodyOfKey(mark: Item, rest: string)
    requires IsMark(mark)
    ensures UntilClose((Key(mark) + rest)[1..]) == Body(mark)
  {
    hide Body, UntilClose;
    assert (Key(mark) + rest)[1..] == Body(mark) + ([CLOSE] + rest);
    BodyUntilClose(Body(mark), rest);
  }

  /** A key stands at the beginning of another key's text only if it is the same mark. */
  lemma KeyIsPrefixFree(a: Item, b: Item, rest: string)
    requires IsMark(a) && IsMark(b)
    ensures StartsWith(Key(a) + rest, Key(b)) <==> a == b
  {
    hide Body, UntilClose, Key;
    var s := Key(a) + rest;
    if StartsWith(s, Key(b)) {
      BodyOfKey(a, rest);
      assert s == Key(b) + s[|Key(b)|..];
      BodyOfKey(b, s[|Key(b)|..]);
      KeysDiffer(a, b);
    } else {
      assert s[..|Key(a)|] == Key(a);
    }
  }

  lemma ReplaceAtMark(a: Item, mark: Item, rest: string, part: string)
    requires IsMark(a) && IsMark(mark)
    ensures ReplaceAll(Key(a) + rest, Key(mark), part)
            == (if a == mark then part else Key(a)) + ReplaceAll(rest, Key(mark), part)
  {
    hide Body, StartsWith;
    var s := Key(a) + rest;
    KeyIsPrefixFree(a, mark, rest);
    if a == mark {
      assert s[|Key(a)|..] == rest;
    } else {
      var tail := Body(a) + [CLOSE];
      assert s[1..] == tail + rest && s[0] == OPEN;
      SkipsPlain(tail, rest, Key(mark), part);
      assert Key(a) == [OPEN] + tail;
    }
  }

  /** Replacing a key in the text is substituting its mark in the items. */
  lemma {:induction false} ReplaceIsSubst(items: seq<Item>, mark: Item, part: string)
    requires Clean(items) && IsMark(mark)
    ensures ReplaceAll(Render(items), Key(mark), part) == Render(Subst(items, mark, part))
  {
    if items != [] {
      var rest := Render(items[1..]);
      var more := Subst(items[1..], mark, part);
      ReplaceIsSubst(items[1..], mark, part);
      if items[0].Ch? {
        SkipsPlain([items[0].c], rest, Key(mark), part);
      } else {
        ReplaceAtMark(items[0], mark, rest, part);
      }
      RenderChars(part);
      RenderAppend(if items[0] == mark then Chars(part) else [items[0]], more);
      assert Render([items[0]]) == Written(items[0]);
    }
  }

  predicate AllSentinelFree(parts: seq<string>)
  {
    forall i :: 0 <= i < |parts| ==> SentinelFree(parts[i])
  }

  function RestoreUrls(s: string, urls: seq<string>, n: nat): string
    requires n <= |urls|
    decreases |urls| - n
  {
    if n == |urls| then s else RestoreUrls(ReplaceAll(s, Key(Url(n)), urls[n]), urls, n + 1)
  }

  function RestoreSlots(s: string, ph: seq<string>, n: nat): string
    requires n <= |ph|
    decreases |ph| - n
  {
    if n == |ph| then s else RestoreSlots(ReplaceAll(s, Key(Slot(n)), ph[n]), ph, n + 1)
  }

  /** unprotect: the URLs first, then the placeholders and tokens. */
  function Unprotected(s: string, ph: seq<string>, urls: seq<string>): string
  {
    RestoreSlots(RestoreUrls(s, urls, 0), ph, 0)
  }

  method Unprotect(s: string, ph: seq<string>, urls: seq<string>) returns (out: string)
    ensures out == Unprotected(s, ph, urls)
  {
    out := s;
    for k := 0 to |urls|
      invariant RestoreUrls(out, urls, k) == RestoreUrls(s, urls, 0)
    {
      out := ReplaceAll(out, Key(Url(k)), urls[k]);
    }
    ghost var noUrls := out;
    for i := 0 to |ph|
      invariant RestoreSlots(out, ph, i) == RestoreSlots(noUrls, ph, 0)
    {
      out := ReplaceAll(out, Key(Slot(i)), ph[i]);
    }
  }

  /** Putting one part back changes the items, not the text they stand for. */
  lemma {:induction false} SubstExpands(items: seq<Item>, mark: Item, ph: seq<string>, urls: seq<string>)
    requires Clean(items) && AllKnown(items, ph, urls) && IsMark(mark) && Known(mark, ph, urls)
    requires SentinelFree(Part(mark, ph, urls))
    ensures var done := Subst(items, mark, Part(mark, ph, urls));
            && Clean(done) && AllKnown(done, ph, urls)
            && Expand(done, ph, urls) == Expand(items, ph, urls)
            && (forall x :: x in done && IsMark(x) ==> x in items && x != mark)
  {
    if items != [] {
      var part := Part(mark, ph, urls);
      SubstExpands(items[1..], mark, ph, urls);
      var head := if items[0] == mark then Chars(part) else [items[0]];
      assert Clean(head) && AllKnown(head, ph, urls);
      if items[0] == mark {
        ExpandPlain(head, ph, urls);
        RenderChars(part);
      } else {
        assert Expand(head, ph, urls) == Part(items[0], ph, urls);
      }
      ExpandAppend(head, Subst(items[1..], mark, part), ph, urls);
    }
  }

  lemma {:induction false} UrlsComeBack(items: seq<Item>, ph: seq<string>, urls: seq<string>, n: nat)
      returns (left: seq<Item>)
    requires Clean(items) && AllKnown(items, ph, urls) && AllSentinelFree(urls) && n <= |urls|
    requires forall x :: x in items && x.Url? ==> x.n >= n
    ensures Clean(left) && AllKnown(left, ph, urls) && forall x :: x in left ==> !x.Url?
    ensures Expand(left, ph, urls) == Expand(items, ph, urls)
    ensures RestoreUrls(Render(items), urls, n) == Render(left)
    decreases |urls| - n
  {
    if n == |urls| {
      left := items;
      assert forall i :: 0 <= i < |items| ==> items[i] in items && Known(items[i], ph, urls);
    } else {
      SubstExpands(items, Url(n), ph, urls);
      ReplaceIsSubst(items, Url(n), urls[n]);
      left := UrlsComeBack(Subst(items, Url(n), urls[n]), ph, urls, n + 1);
    }
  }

  lemma {:induction false} SlotsComeBack(items: seq<Item>, ph: seq<string>, urls: seq<string>, n: nat)
    requires Clean(items) && AllKnown(items, ph, urls) && AllSentinelFree(ph) && n <= |ph|
    requires forall x :: x in items ==> !x.Url? && (x.Slot? ==> x.n >= n)
    ensures RestoreSlots(Render(items), ph, n) == Expand(items, ph, urls)
    decreases |ph| - n
  {
    if n == |ph| {
      assert forall i :: 0 <= i < |items| ==> items[i] in items && Known(items[i], ph, urls);
      ExpandPlain(items, ph, urls);
    } else {
      SubstExpands(items, Slot(n), ph, urls);
      ReplaceIsSubst(items, Slot(n), ph[n]);
      SlotsComeBack(Subst(items, Slot(n), ph[n]), ph, urls, n + 1);
    }
  }

  /** Whatever a translator does around the markers and in which order it leaves them: as long as they
      are intact and the hidden parts hold no bracket, unprotect puts every part where its marker stands. */
  lemma EveryMarkComesBack(items: seq<Item>, ph: seq<string>, urls: seq<string>)
    requires Clean(items) && AllKnown(items, ph, urls) && AllSentinelFree(ph) && AllSentinelFree(urls)
    ensures Unprotected(Render(items), ph, urls) == Expand(items, ph, urls)
  {
    var left := UrlsComeBack(items, ph, urls, 0);
    SlotsComeBack(left, ph, urls, 0);
  }
}
