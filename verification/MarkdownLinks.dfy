/** What linkifying makes of a text and of a stream, said of their characters and events. */
module MarkdownLinks {
  import opened Options
  import opened Markdown

  // ----- what counts as a URL

  const WHITE: set<char> := {
    '\t', '\n', '\U{B}', '\U{C}', '\r', ' ', '\U{85}', '\U{A0}', '\U{1680}', '\U{2000}', '\U{2001}', '\U{2002}',
    '\U{2003}', '\U{2004}', '\U{2005}', '\U{2006}', '\U{2007}', '\U{2008}', '\U{2009}', '\U{200A}', '\U{2028}',
    '\U{2029}', '\U{202F}', '\U{205F}', '\U{3000}'}

  /** Anything but white space and brackets of two kinds. */
  predicate InUrl(c: char) {
    c !in WHITE && c !in {'<', '>', '(', ')'}
  }

  lemma CharExactly(c: char)
    ensures UrlChar(c) <==> InUrl(c)
  {
    assert IsSpace(c) <==> c in WHITE by {
      if '\U{2000}' <= c <= '\U{200A}' {
        var k := c as int - 0x2000;
        assert 0 <= k <= 10;
      }
    }
  }

  /** A scheme with k characters stands at a place in a text. */
  predicate SchemeAt(s: string, i: nat, k: nat) {
    || (k == 7 && i + 7 <= |s| && s[i..i + 7] == "http://")
    || (k == 8 && i + 8 <= |s| && s[i..i + 8] == "https://")
  }

  /** A URL of n characters stands at a place in a text: a scheme, at least one more character, and all that
      follow it without a gap. */
  ghost predicate UrlAt(s: string, i: nat, n: nat) {
    && i + n <= |s|
    && (exists k: nat :: SchemeAt(s, i, k) && k < n && forall j | i + k <= j < i + n :: InUrl(s[j]))
    && (i + n < |s| ==> !InUrl(s[i + n]))
  }

  lemma {:induction false} RunExactly(s: string)
    ensures forall j | 0 <= j < Run(s) :: InUrl(s[j])
    ensures Run(s) < |s| ==> !InUrl(s[Run(s)])
  {
    hide UrlChar, InUrl;
    if s != "" {
      CharExactly(s[0]);
      if UrlChar(s[0]) {
        RunExactly(s[1..]);
        assert forall j | 1 <= j < Run(s) :: s[j] == s[1..][j - 1];
      }
    }
  }

  lemma {:induction false} RunIs(s: string, n: nat)
    requires n <= |s| && (forall j | 0 <= j < n :: InUrl(s[j])) && (n < |s| ==> !InUrl(s[n]))
    ensures Run(s) == n
    decreases n
  {
    hide UrlChar, InUrl;
    if s != "" {
      CharExactly(s[0]);
      if n > 0 {
        RunIs(s[1..], n - 1);
      }
    }
  }

  lemma OneScheme(s: string, i: nat, k: nat, m: nat)
    requires SchemeAt(s, i, k) && SchemeAt(s, i, m)
    ensures k == m
  {
    SchemeLetter(s, i, k);
    SchemeLetter(s, i, m);
  }

  lemma SchemeLetter(s: string, i: nat, k: nat)
    requires SchemeAt(s, i, k)
    ensures k in {7, 8} && i + k <= |s| && s[i + 4] == if k == 7 then ':' else 's'
  {
    assert s[i + 4] == s[i..i + k][4];
  }

  lemma HasScheme(s: string)
    ensures "http://" <= s <==> SchemeAt(s, 0, 7)
    ensures "https://" <= s <==> SchemeAt(s, 0, 8)
  {
  }

  lemma MatchHere(s: string, n: nat)
    ensures n > 0 && MatchLength(s) == n <==> UrlAt(s, 0, n)
  {
    hide InUrl, Run, UrlChar, SchemeAt;
    HasScheme(s);
    var k: nat := if "http://" <= s then 7 else 8;
    if SchemeAt(s, 0, k) {
      assert |s| >= k by { SchemeFits(s, 0, k); }
      RunExactly(s[k..]);
      assert forall j | k <= j < |s| :: s[j] == s[k..][j - k];
      if UrlAt(s, 0, n) {
        var m: nat :| SchemeAt(s, 0, m) && m < n && forall j | m <= j < n :: InUrl(s[j]);
        OneScheme(s, 0, k, m);
        RunIs(s[k..], n - k);
      }
    } else if UrlAt(s, 0, n) {
      var m: nat :| SchemeAt(s, 0, m) && m < n;
      SchemeFits(s, 0, m);
    }
  }

  lemma SchemeFits(s: string, i: nat, k: nat)
    requires SchemeAt(s, i, k)
    ensures (k == 7 || k == 8) && i + k <= |s|
  {
  }

  lemma FurtherOn(s: string, i: nat, n: nat)
    requires s != ""
    ensures UrlAt(s[1..], i, n) <==> UrlAt(s, i + 1, n)
  {
    hide InUrl;
    if i + 8 <= |s[1..]| {
      assert s[1..][i..i + 8] == s[i + 1..i + 1 + 8];
    }
    if i + 7 <= |s[1..]| {
      assert s[1..][i..i + 7] == s[i + 1..i + 1 + 7];
    }
    if UrlAt(s[1..], i, n) {
      var k: nat :| SchemeAt(s[1..], i, k) && k < n && forall j | i + k <= j < i + n :: InUrl(s[1..][j]);
      assert SchemeAt(s, i + 1, k);
      forall j | i + 1 + k <= j < i + 1 + n ensures InUrl(s[j]) {
        assert s[j] == s[1..][j - 1];
      }
    }
    if UrlAt(s, i + 1, n) {
      var k: nat :| SchemeAt(s, i + 1, k) && k < n && forall j | i + 1 + k <= j < i + 1 + n :: InUrl(s[j]);
      assert SchemeAt(s[1..], i, k);
      forall j | i + k <= j < i + n ensures InUrl(s[1..][j]) {
        assert s[1..][j] == s[j + 1];
      }
    }
  }

  /** The match is the leftmost URL in the text, as long as it goes; without one there is no URL. */
  lemma {:induction false} FirstMatchExactly(s: string)
    ensures match FirstMatch(s)
            case None => forall i: nat, n: nat :: !UrlAt(s, i, n)
            case Some((i, n)) => UrlAt(s, i, n) && forall j: nat, m: nat | UrlAt(s, j, m) :: i <= j
  {
    hide UrlAt, MatchLength;
    MatchHere(s, MatchLength(s));
    forall n: nat | UrlAt(s, 0, n) ensures MatchLength(s) == n > 0 {
      MatchHere(s, n);
    }
    if s != "" {
      FirstMatchExactly(s[1..]);
      forall i: nat, n: nat ensures UrlAt(s[1..], i, n) <==> UrlAt(s, i + 1, n) {
        FurtherOn(s, i, n);
      }
      forall j: nat, m: nat | UrlAt(s, j, m) && j > 0 ensures UrlAt(s[1..], j - 1, m) {
        FurtherOn(s, j - 1, m);
      }
    } else {
      forall j: nat, m: nat ensures !UrlAt(s, j, m) {
        NoRoom(s, j, m);
      }
    }
  }

  lemma NoRoom(s: string, i: nat, n: nat)
    requires s == ""
    ensures !UrlAt(s, i, n)
  {
  }

  // ----- what becomes of a text

  function Words(s: string): seq<Event> {
    if s == "" then [] else [Text(s)]
  }

  predicate IsPunctuation(s: string) {
    forall c | c in s :: c in {'.', ',', '!', '?', ':', ';'}
  }

  /** What is behind a link: nothing from nothing, and otherwise a text of its own. */
  function Rest(s: string): seq<Event> {
    if s == "" then [] else LinkifyText(s)
  }

  /** A text without a URL stays one text. In any other, what precedes the first URL stays, the URL without the
      punctuation at its end becomes a link to itself, the punctuation stays, and so on behind it. */
  lemma LinkifiedExactly(s: string, before: string, url: string, punctuation: string, after: string)
    requires s == before + url + punctuation + after
    requires UrlAt(s, |before|, |url| + |punctuation|)
    requires forall j: nat, m: nat | UrlAt(s, j, m) :: |before| <= j
    requires IsPunctuation(punctuation) && url != "" && !IsPunctuation([url[|url| - 1]])
    ensures LinkifyText(s)
         == Words(before) + [Start(LinkTag(Inline, url, "", "")), Text(url), End(LinkEnd)] + Words(punctuation) + Rest(after)
  {
    hide UrlAt, LinkifyText, Pieces, LinkEvents;
    var raw := url + punctuation;
    var i, n := |before|, |raw|;
    SameUrl(s, i, n);
    hide FirstMatch, IsPunctuation, TrimPunctuation;
    PiecesStep(s, i, n);
    Parts(s, before, url, punctuation, after);
    TrimmedExactly(url, punctuation);
    RestExactly(after);
    TextIsPieces(s);
    LinkOf(raw, url, punctuation);
  }

  lemma Parts(s: string, before: string, url: string, punctuation: string, after: string)
    requires s == before + url + punctuation + after
    ensures var i, n := |before|, |url + punctuation|;
      i + n <= |s| && s[..i] == before && s[i..i + n] == url + punctuation && s[i + n..] == after
  {
  }

  lemma SameUrl(s: string, i: nat, n: nat)
    requires UrlAt(s, i, n) && forall j: nat, m: nat | UrlAt(s, j, m) :: i <= j
    ensures FirstMatch(s) == Some((i, n))
  {
    hide UrlAt;
    FirstMatchExactly(s);
    var m := FirstMatch(s).value;
    assert m.0 == i;
    hide FirstMatch;
    OneLength(s, i, n, m.1);
  }

  lemma OneLength(s: string, i: nat, n: nat, m: nat)
    requires UrlAt(s, i, n) && UrlAt(s, i, m)
    ensures n == m
  {
    hide InUrl, SchemeAt;
    var k: nat :| SchemeAt(s, i, k) && k < n && forall j | i + k <= j < i + n :: InUrl(s[j]);
    var l: nat :| SchemeAt(s, i, l) && l < m && forall j | i + l <= j < i + m :: InUrl(s[j]);
    OneScheme(s, i, k, l);
  }

  lemma {:induction false} TrimmedExactly(url: string, punctuation: string)
    requires IsPunctuation(punctuation) && url != "" && !IsPunctuation([url[|url| - 1]])
    ensures TrimPunctuation(url + punctuation) == url
    decreases |punctuation|
  {
    if punctuation == "" {
      assert url + punctuation == url;
    } else {
      assert punctuation[|punctuation| - 1] in punctuation;
      var shorter := punctuation[..|punctuation| - 1];
      assert forall c | c in shorter :: c in punctuation;
      assert (url + punctuation)[..|url + punctuation| - 1] == url + shorter;
      TrimmedExactly(url, shorter);
    }
  }

  lemma LinkOf(raw: string, url: string, punctuation: string)
    requires raw == url + punctuation && TrimPunctuation(raw) == url && url != ""
    ensures LinkEvents(raw) == [Start(LinkTag(Inline, url, "", "")), Text(url), End(LinkEnd)] + Words(punctuation)
  {
    hide TrimPunctuation;
    assert raw[|url|..] == punctuation;
  }

  lemma TextIsPieces(s: string)
    requires FirstMatch(s).Some?
    ensures LinkifyText(s) == Pieces(s)
  {
  }

  lemma RestExactly(s: string)
    ensures Pieces(s) == Rest(s)
  {
  }

  // ----- what becomes of a stream

  /** How many links are open after a stream; an end without a start counts for nothing. */
  function OpenLinks(events: seq<Event>): nat {
    if events == [] then 0
    else
      var before, last := OpenLinks(events[..|events| - 1]), events[|events| - 1];
      if last.Start? && last.tag.LinkTag? then before + 1
      else if last == End(LinkEnd) && before > 0 then before - 1
      else before
  }

  /** What one event becomes: a text outside links is linkified, and everything else stays. */
  function Becomes(before: seq<Event>, e: Event): seq<Event> {
    if e.Text? && OpenLinks(before) == 0 then LinkifyText(e.text) else [e]
  }

  lemma {:induction false} DepthIsOpenLinks(events: seq<Event>, more: seq<Event>, depth: nat)
    ensures Linkify(events + more, depth) == Linkify(events, depth) + Linkify(more, Depth(events, depth))
    decreases |events|
  {
    hide LinkifyEvent, Linkify;
    if events == [] {
      LinkifyNothing(events, depth);
      assert events + more == more;
    } else {
      LinkifyStep(events, depth);
      LinkifyStep(events + more, depth);
      assert (events + more)[1..] == events[1..] + more;
      DepthIsOpenLinks(events[1..], more, DepthAfter(events[0], depth));
    }
  }

  function Depth(events: seq<Event>, depth: nat): nat {
    if events == [] then depth else Depth(events[1..], DepthAfter(events[0], depth))
  }

  lemma {:induction false} DepthConcat(a: seq<Event>, b: seq<Event>, depth: nat)
    ensures Depth(a + b, depth) == Depth(b, Depth(a, depth))
    decreases |a|
  {
    hide DepthAfter;
    if a == [] {
      assert a + b == b;
    } else {
      assert (a + b)[1..] == a[1..] + b;
      DepthConcat(a[1..], b, DepthAfter(a[0], depth));
    }
  }

  lemma {:induction false} OpenLinksExactly(events: seq<Event>)
    ensures Depth(events, 0) == OpenLinks(events)
  {
    if events != [] {
      var n := |events| - 1;
      OpenLinksExactly(events[..n]);
      assert events == events[..n] + [events[n]];
      DepthConcat(events[..n], [events[n]], 0);
      assert [events[n]][1..] == [];
    }
  }

  /** A stream is linkified event by event, each by the links that are open in front of it. */
  lemma StreamExactly(before: seq<Event>, e: Event, after: seq<Event>)
    ensures Linkify([], 0) == []
    ensures Linkify(before + [e], 0) == Linkify(before, 0) + Becomes(before, e)
  {
    hide LinkifyText;
    DepthIsOpenLinks(before, [e], 0);
    OpenLinksExactly(before);
    assert [e][1..] == [];
    var depth := OpenLinks(before);
    assert Linkify([e], depth) == LinkifyEvent(e, depth) + Linkify([], DepthAfter(e, depth));
    assert LinkifyEvent(e, depth) + [] == LinkifyEvent(e, depth);
  }
}
