/** Bare URLs in the text of a markdown event stream become links. */
module Markdown {
  import opened Options

  datatype LinkType = Inline | OtherLink(name: string)

  datatype Tag = LinkTag(linkType: LinkType, url: string, title: string, id: string) | OtherTag(name: string)
  datatype TagEnd = LinkEnd | OtherEnd(name: string)

  datatype Event =
    | Start(tag: Tag)
    | End(tagEnd: TagEnd)
    | Text(text: string)
    | Other(content: string)

  function ToEnd(tag: Tag): TagEnd {
    match tag
    case LinkTag(_, _, _, _) => LinkEnd
    case OtherTag(name) => OtherEnd(name)
  }

  // ----- the pattern: http or https, "://", then one or more characters that are no white space or bracket

  predicate IsSpace(c: char) {
    || '\t' <= c <= '\r' || c == ' ' || c == '\U{85}' || c == '\U{A0}' || c == '\U{1680}'
    || '\U{2000}' <= c <= '\U{200A}' || c == '\U{2028}' || c == '\U{2029}' || c == '\U{202F}' || c == '\U{205F}'
    || c == '\U{3000}'
  }

  predicate UrlChar(c: char) {
    !IsSpace(c) && c !in {'<', '>', '(', ')'}
  }

  function Run(s: string): (n: nat)
    ensures n <= |s|
  {
    if s != "" && UrlChar(s[0]) then 1 + Run(s[1..]) else 0
  }

  /** The length of the match at the start of a text; zero when there is none. */
  function MatchLength(s: string): (n: nat)
    ensures n <= |s|
    ensures n > 0 ==> n >= 8 && s[0] == 'h'
  {
    var scheme := if "http://" <= s then 7 else if "https://" <= s then 8 else 0;
    if scheme == 0 || Run(s[scheme..]) == 0 then 0 else scheme + Run(s[scheme..])
  }

  /** Where the leftmost match starts and how long it is. */
  function FirstMatch(s: string): (m: Option<(nat, nat)>)
    ensures m.Some? ==> m.value.1 > 0 && m.value.0 + m.value.1 <= |s|
    ensures m.Some? ==> MatchLength(s[m.value.0..]) == m.value.1
  {
    if MatchLength(s) > 0 then assert s[0..] == s; Some((0, MatchLength(s)))
    else if s == "" then None
    else
      match FirstMatch(s[1..])
      case None => None
      case Some((start, length)) => assert s[1..][start..] == s[start + 1..]; Some((start + 1, length))
  }

  const PUNCTUATION: set<char> := {'.', ',', '!', '?', ':', ';'}

  function TrimPunctuation(s: string): (t: string)
    ensures t <= s
    ensures t != "" ==> t[|t| - 1] !in PUNCTUATION
    ensures forall i | |t| <= i < |s| :: s[i] in PUNCTUATION
  {
    if s != "" && s[|s| - 1] in PUNCTUATION then TrimPunctuation(s[..|s| - 1]) else s
  }

  // ----- what the rewriting means

  function TextEvent(s: string): seq<Event> {
    if s == "" then [] else [Text(s)]
  }

  function LinkTo(url: string): Tag {
    LinkTag(Inline, url, "", "")
  }

  function LinkEvents(rawUrl: string): seq<Event> {
    var url := TrimPunctuation(rawUrl);
    if url == "" then [Text(rawUrl)]
    else [Start(LinkTo(url)), Text(url), End(LinkEnd)] + TextEvent(rawUrl[|url|..])
  }

  function Pieces(s: string): seq<Event>
    decreases |s|
  {
    match FirstMatch(s)
    case None => TextEvent(s)
    case Some((start, length)) =>
      TextEvent(s[..start]) + LinkEvents(s[start..start + length]) + Pieces(s[start + length..])
  }

  function LinkifyText(text: string): seq<Event> {
    if FirstMatch(text).None? then [Text(text)] else Pieces(text)
  }

  function DepthAfter(e: Event, depth: nat): nat {
    if e.Start? && e.tag.LinkTag? then depth + 1
    else if e.End? && e.tagEnd.LinkEnd? && depth > 0 then depth - 1
    else depth
  }

  function LinkifyEvent(e: Event, depth: nat): seq<Event> {
    if e.Text? && depth == 0 then LinkifyText(e.text) else [e]
  }

  function Linkify(events: seq<Event>, depth: nat): seq<Event> {
    if events == [] then []
    else LinkifyEvent(events[0], depth) + Linkify(events[1..], DepthAfter(events[0], depth))
  }

  lemma LinkifyNothing(events: seq<Event>, depth: nat)
    requires events == []
    ensures Linkify(events, depth) == []
  {
  }

  lemma LinkifyStep(events: seq<Event>, depth: nat)
    requires events != []
    ensures Linkify(events, depth) == LinkifyEvent(events[0], depth) + Linkify(events[1..], DepthAfter(events[0], depth))
  {
    hide LinkifyEvent;
  }

  lemma PiecesEnd(s: string)
    requires FirstMatch(s).None?
    ensures Pieces(s) == TextEvent(s)
  {
  }

  lemma PiecesStep(s: string, start: nat, length: nat)
    requires FirstMatch(s) == Some((start, length))
    ensures Pieces(s) == TextEvent(s[..start]) + LinkEvents(s[start..start + length]) + Pieces(s[start + length..])
  {
    hide FirstMatch, LinkEvents;
  }

  // ----- the loops

  lemma Assoc(a: seq<Event>, b: seq<Event>, c: seq<Event>)
    ensures (a + b) + c == a + (b + c)
  {
  }

  /** The part of the loop that turns one match into a link and what was trimmed from it. */
  method AppendUrl(before: seq<Event>, rawUrl: string) returns (result: seq<Event>)
    ensures result == before + LinkEvents(rawUrl)
  {
    var url := TrimPunctuation(rawUrl);
    var trailing := rawUrl[|url|..];
    if url == "" {
      return before + [Text(rawUrl)];
    }
    var tag := LinkTag(Inline, url, "", "");
    result := before + [Start(tag)];
    result := result + [Text(url)];
    result := result + [End(ToEnd(tag))];
    assert result == before + [Start(tag), Text(url), End(LinkEnd)];
    if trailing != "" {
      Assoc(before, [Start(tag), Text(url), End(LinkEnd)], [Text(trailing)]);
      result := result + [Text(trailing)];
    }
  }

  method AppendLinkifiedText(before: seq<Event>, text: string) returns (result: seq<Event>)
    ensures result == before + LinkifyText(text)
  {
    hide FirstMatch, MatchLength, Pieces, LinkEvents;
    result := before;
    var covered := 0;
    var next := FirstMatch(text);
    assert text[0..] == text;
    while next.Some?
      invariant covered <= |text| && next == FirstMatch(text[covered..])
      invariant result + Pieces(text[covered..]) == before + Pieces(text)
      invariant if covered == 0 then result == before else FirstMatch(text).Some?
      decreases |text| - covered
    {
      ghost var pushed := result;
      var start := covered + next.value.0;
      var end := start + next.value.1;
      PiecesStep(text[covered..], next.value.0, next.value.1);
      Slices(text, covered, start, end);
      if covered < start {
        result := result + [Text(text[covered..start])];
      }
      ghost var text_, link, rest := TextEvent(text[covered..start]), LinkEvents(text[start..end]), Pieces(text[end..]);
      assert result == pushed + text_;
      result := AppendUrl(result, text[start..end]);
      Assoc(pushed, text_, link);
      Assoc(pushed, text_ + link, rest);
      covered := end;
      next := FirstMatch(text[covered..]);
    }
    PiecesEnd(text[covered..]);
    if covered == 0 {
      result := result + [Text(text)];
    } else if covered < |text| {
      result := result + [Text(text[covered..])];
    }
  }

  lemma Slices(text: string, covered: nat, start: nat, end: nat)
    requires covered <= start <= end <= |text|
    ensures text[covered..][..start - covered] == text[covered..start]
    ensures text[covered..][start - covered..end - covered] == text[start..end]
    ensures text[covered..][end - covered..] == text[end..]
  {
  }

  method LinkifyBareUrls(stream: seq<Event>) returns (result: seq<Event>)
    ensures result == Linkify(stream, 0)
  {
    hide LinkifyText, Linkify;
    result := [];
    var linkDepth := 0;
    assert stream[0..] == stream;
    for i := 0 to |stream|
      invariant linkDepth >= 0
      invariant result + Linkify(stream[i..], linkDepth) == Linkify(stream, 0)
    {
      var event := stream[i];
      assert stream[i..][0] == event && stream[i..][1..] == stream[i + 1..];
      LinkifyStep(stream[i..], linkDepth);
      Assoc(result, LinkifyEvent(event, linkDepth), Linkify(stream[i + 1..], DepthAfter(event, linkDepth)));
      if event.Start? && event.tag.LinkTag? {
        linkDepth := linkDepth + 1;
        result := result + [event];
      } else if event.End? && event.tagEnd.LinkEnd? {
        linkDepth := if linkDepth > 0 then linkDepth - 1 else 0;
        result := result + [event];
      } else if event.Text? && linkDepth == 0 {
        result := AppendLinkifiedText(result, event.text);
      } else {
        result := result + [event];
      }
    }
    LinkifyNothing(stream[|stream|..], linkDepth);
  }

  // ----- the shape of rewritten text

  /** Texts without URLs, and links whose text is their target, side by side. */
  predicate Rewritten(r: seq<Event>) {
    r == []
    || (r[0].Text? && FirstMatch(r[0].text).None? && Rewritten(r[1..]))
    || (&& |r| >= 3 && r[0].Start? && r[1].Text? && r[0].tag == LinkTo(r[1].text) && GoodUrl(r[1].text)
        && r[2] == End(LinkEnd) && Rewritten(r[3..]))
  }

  /** What becomes a link: a URL that does not end in punctuation. */
  predicate GoodUrl(url: string) {
    && ("http://" <= url || "https://" <= url)
    && (forall i | 0 <= i < |url| :: UrlChar(url[i]))
    && url != "" && url[|url| - 1] !in PUNCTUATION
  }

  lemma {:induction false} RunPrefix(s: string, n: nat)
    requires n <= |s|
    ensures Run(s[..n]) <= Run(s)
    ensures n <= Run(s) ==> forall i | 0 <= i < n :: UrlChar(s[i])
  {
    if n > 0 {
      assert s[..n][1..] == s[1..][..n - 1];
      RunPrefix(s[1..], n - 1);
      if n <= Run(s) {
        forall i | 0 <= i < n ensures UrlChar(s[i]) {
          if i > 0 { assert s[i] == s[1..][i - 1]; }
        }
      }
    }
  }

  /** A match inside the beginning of a text is a match in the text. */
  lemma MatchPrefix(s: string, n: nat)
    requires n <= |s| && MatchLength(s[..n]) > 0
    ensures MatchLength(s) > 0
  {
    var t := s[..n];
    var scheme := if "http://" <= t then 7 else 8;
    assert t[..scheme] == s[..scheme];
    assert t[scheme..] == s[scheme..][..n - scheme];
    RunPrefix(s[scheme..], n - scheme);
  }

  /** The text in front of the first match has no match. */
  lemma {:induction false} NoneBeforeFirst(s: string, n: nat)
    requires n <= |s| && (FirstMatch(s).Some? ==> n <= FirstMatch(s).value.0)
    ensures FirstMatch(s[..n]).None?
    decreases n
  {
    if MatchLength(s[..n]) > 0 {
      MatchPrefix(s, n);
      assert false;
    }
    if n > 0 {
      assert s[..n][1..] == s[1..][..n - 1];
      NoneBeforeFirst(s[1..], n - 1);
    }
  }

  lemma {:induction false} NoMatchWithoutH(s: string)
    requires 'h' !in s
    ensures FirstMatch(s).None?
  {
    if s != "" {
      NoMatchWithoutH(s[1..]);
    }
  }

  lemma {:induction false} RewrittenConcat(a: seq<Event>, b: seq<Event>)
    requires Rewritten(a) && Rewritten(b)
    ensures Rewritten(a + b)
    decreases |a|
  {
    hide FirstMatch, GoodUrl;
    if a == [] {
      assert a + b == b;
    } else if a[0].Text? {
      assert (a + b)[1..] == a[1..] + b;
      RewrittenConcat(a[1..], b);
    } else {
      assert (a + b)[3..] == a[3..] + b;
      RewrittenConcat(a[3..], b);
    }
  }

  lemma TextEventIsRewritten(s: string)
    requires FirstMatch(s).None?
    ensures Rewritten(TextEvent(s))
  {
  }

  lemma MatchIsGood(s: string)
    requires MatchLength(s) > 0
    ensures var raw := s[..MatchLength(s)];
      && ("http://" <= raw || "https://" <= raw)
      && forall i | 0 <= i < |raw| :: UrlChar(raw[i])
  {
    var scheme := if "http://" <= s then 7 else 8;
    RunPrefix(s[scheme..], Run(s[scheme..]));
    var raw := s[..MatchLength(s)];
    assert raw[..scheme] == s[..scheme];
    forall i | 0 <= i < |raw| ensures UrlChar(raw[i]) {
      if i >= scheme {
        assert raw[i] == s[scheme..][i - scheme];
      } else {
        assert raw[i] == (if scheme == 7 then "http://" else "https://")[i];
      }
    }
  }

  lemma LinkAlone(url: string)
    requires GoodUrl(url)
    ensures Rewritten([Start(LinkTo(url)), Text(url), End(LinkEnd)])
  {
    hide GoodUrl, FirstMatch;
    assert [Start(LinkTo(url)), Text(url), End(LinkEnd)][3..] == [];
  }

  lemma TrimmedIsGood(raw: string)
    requires |raw| >= 8 && ("http://" <= raw || "https://" <= raw)
    requires forall i | 0 <= i < |raw| :: UrlChar(raw[i])
    ensures GoodUrl(TrimPunctuation(raw))
    ensures 'h' !in raw[|TrimPunctuation(raw)|..]
  {
    SchemeSurvives(raw);
    var n := |TrimPunctuation(raw)|;
    assert forall i | 0 <= i < |raw[n..]| :: raw[n..][i] == raw[n + i];
  }

  lemma LinkIsRewritten(s: string)
    requires MatchLength(s) > 0
    ensures Rewritten(LinkEvents(s[..MatchLength(s)]))
  {
    hide MatchLength, Run, Rewritten, GoodUrl, FirstMatch, UrlChar, TextEvent;
    MatchIsGood(s);
    var raw := s[..MatchLength(s)];
    TrimmedIsGood(raw);
    var url := TrimPunctuation(raw);
    GoodIsNotEmpty(url);
    NoMatchWithoutH(raw[|url|..]);
    TextEventIsRewritten(raw[|url|..]);
    LinkAlone(url);
    RewrittenConcat([Start(LinkTo(url)), Text(url), End(LinkEnd)], TextEvent(raw[|url|..]));
  }

  lemma GoodIsNotEmpty(url: string)
    requires GoodUrl(url)
    ensures url != ""
  {
  }

  /** Punctuation is trimmed from the end only, and never reaches into the scheme. */
  lemma SchemeSurvives(raw: string)
    requires |raw| >= 8 && ("http://" <= raw || "https://" <= raw)
    ensures "http://" <= TrimPunctuation(raw) || "https://" <= TrimPunctuation(raw)
  {
    var url, n := TrimPunctuation(raw), if "http://" <= raw then 7 else 8;
    assert raw[n - 1] == (if n == 7 then "http://" else "https://")[n - 1] == '/';
    assert |url| >= n;
    assert url[..n] == raw[..n];
  }

  lemma {:induction false} PiecesAreRewritten(s: string)
    ensures Rewritten(Pieces(s))
    decreases |s|
  {
    hide Rewritten, MatchLength, FirstMatch, LinkEvents, TextEvent, Pieces;
    match FirstMatch(s) {
      case None =>
        PiecesEnd(s);
        TextEventIsRewritten(s);
      case Some((start, length)) =>
        PiecesStep(s, start, length);
        var before, link, after := TextEvent(s[..start]), LinkEvents(s[start..start + length]), Pieces(s[start + length..]);
        NoneBeforeFirst(s, start);
        TextEventIsRewritten(s[..start]);
        LinkIsRewritten(s[start..]);
        assert s[start..][..length] == s[start..start + length];
        PiecesAreRewritten(s[start + length..]);
        RewrittenConcat(before, link);
        RewrittenConcat(before + link, after);
    }
  }

  /** Every text becomes link-free text and links to themselves, side by side. */
  lemma LinkifiedIsRewritten(text: string)
    ensures Rewritten(LinkifyText(text))
  {
    PiecesAreRewritten(text);
    if FirstMatch(text).None? {
      assert [Text(text)][1..] == [];
    }
  }

  // ----- the text stays

  function Plain(events: seq<Event>): string {
    if events == [] then ""
    else if events[0].Text? then events[0].text + Plain(events[1..])
    else Plain(events[1..])
  }

  lemma {:induction false} PlainConcat(a: seq<Event>, b: seq<Event>)
    ensures Plain(a + b) == Plain(a) + Plain(b)
  {
    if a == [] {
      assert a + b == b;
    } else {
      assert (a + b)[1..] == a[1..] + b;
      PlainConcat(a[1..], b);
    }
  }

  lemma PlainFirst(e: Event, rest: seq<Event>)
    ensures Plain([e] + rest) == if e.Text? then e.text + Plain(rest) else Plain(rest)
  {
    assert ([e] + rest)[1..] == rest;
  }

  lemma PlainOne(s: string)
    ensures Plain([Text(s)]) == s
  {
    assert [Text(s)][1..] == [];
  }

  lemma PlainOfThree(url: string, trailing: seq<Event>)
    ensures Plain([Start(LinkTo(url)), Text(url), End(LinkEnd)] + trailing) == url + Plain(trailing)
  {
    hide Plain;
    var end := [End(LinkEnd)] + trailing;
    PlainFirst(Start(LinkTo(url)), [Text(url)] + end);
    PlainFirst(Text(url), end);
    PlainFirst(End(LinkEnd), trailing);
    assert [Start(LinkTo(url)), Text(url), End(LinkEnd)] + trailing == [Start(LinkTo(url))] + ([Text(url)] + end);
  }

  lemma PlainOfLink(raw: string)
    ensures Plain(LinkEvents(raw)) == raw
  {
    hide Plain;
    var url := TrimPunctuation(raw);
    if url == "" {
      PlainOne(raw);
    } else {
      PlainOfThree(url, TextEvent(raw[|url|..]));
      PlainOfTextEvent(raw[|url|..]);
    }
  }

  lemma PlainOfTextEvent(s: string)
    ensures Plain(TextEvent(s)) == s
  {
    PlainOne(s);
  }

  lemma {:induction false} PlainOfPieces(s: string)
    ensures Plain(Pieces(s)) == s
    decreases |s|
  {
    hide FirstMatch, MatchLength, LinkEvents, Pieces;
    match FirstMatch(s) {
      case None => PiecesEnd(s);
      case Some((start, length)) =>
        PiecesStep(s, start, length);
        var before, link, after := s[..start], s[start..start + length], s[start + length..];
        assert s == before + link + after;
        PlainOfLink(link);
        PlainOfPieces(after);
        PlainConcat(TextEvent(before), LinkEvents(link));
        PlainConcat(TextEvent(before) + LinkEvents(link), Pieces(after));
    }
  }

  /** Linkifying leaves the concatenated text of every stream unchanged. */
  lemma {:induction false} TextStays(events: seq<Event>, depth: nat)
    ensures Plain(Linkify(events, depth)) == Plain(events)
    decreases |events|
  {
    hide LinkifyText;
    if events != [] {
      var e, rest := events[0], events[1..];
      var depth' := DepthAfter(e, depth);
      TextStays(rest, depth');
      if e.Text? && depth == 0 {
        PlainOfText(e.text);
        PlainConcat(LinkifyText(e.text), Linkify(rest, 0));
      } else {
        PlainConcat([e], Linkify(rest, depth'));
      }
    }
  }

  lemma PlainOfText(text: string)
    ensures Plain(LinkifyText(text)) == text
  {
    PlainOfPieces(text);
    if FirstMatch(text).None? {
      assert [Text(text)][1..] == [];
    }
  }

  lemma Triple(r: seq<Event>, rest: seq<Event>)
    requires |r| >= 3
    ensures (r + rest)[1..] == r[1..] + rest && (r + rest)[0] == r[0]
    ensures (r[1..] + rest)[1..] == r[2..] + rest && (r[1..] + rest)[0] == r[1]
    ensures (r[2..] + rest)[1..] == r[3..] + rest && (r[2..] + rest)[0] == r[2]
  {
  }

  // ----- tags stay matched and links are not nested

  /** The open tags after a stream, or nothing when an end tag does not match. */
  function Open(events: seq<Event>, stack: seq<TagEnd>): Option<seq<TagEnd>> {
    if events == [] then Some(stack)
    else
      match events[0]
      case Start(tag) => Open(events[1..], [ToEnd(tag)] + stack)
      case End(tagEnd) =>
        if stack != [] && stack[0] == tagEnd then Open(events[1..], stack[1..]) else None
      case _ => Open(events[1..], stack)
  }

  lemma {:induction false} OpenSkips(r: seq<Event>, rest: seq<Event>, stack: seq<TagEnd>)
    requires Rewritten(r)
    ensures Open(r + rest, stack) == Open(rest, stack)
    decreases |r|
  {
    hide FirstMatch, GoodUrl;
    if r == [] {
      assert r + rest == rest;
    } else if r[0].Text? {
      assert (r + rest)[1..] == r[1..] + rest;
      OpenSkips(r[1..], rest, stack);
    } else {
      Triple(r, rest);
      var inside := r[1..] + rest;
      assert ([LinkEnd] + stack)[1..] == stack;
      assert Open(r + rest, stack) == Open(inside, [LinkEnd] + stack);
      assert Open(inside, [LinkEnd] + stack) == Open(r[2..] + rest, [LinkEnd] + stack) == Open(r[3..] + rest, stack);
      OpenSkips(r[3..], rest, stack);
    }
  }

  /** Tags match after linkifying exactly as they did before, with the same tags left open. */
  lemma {:induction false} TagsStayMatched(events: seq<Event>, depth: nat, stack: seq<TagEnd>)
    ensures Open(Linkify(events, depth), stack) == Open(events, stack)
    decreases |events|
  {
    hide LinkifyText, Rewritten;
    if events != [] {
      var e, rest := events[0], events[1..];
      if e.Text? && depth == 0 {
        TagsStayMatched(rest, 0, stack);
        LinkifiedIsRewritten(e.text);
        OpenSkips(LinkifyText(e.text), Linkify(rest, 0), stack);
      } else {
        var depth' := DepthAfter(e, depth);
        assert Linkify(events, depth)[1..] == Linkify(rest, depth');
        if e.Start? {
          TagsStayMatched(rest, depth', [ToEnd(e.tag)] + stack);
        } else if e.End? {
          if stack != [] {
            TagsStayMatched(rest, depth', stack[1..]);
          }
        } else {
          TagsStayMatched(rest, depth', stack);
        }
      }
    }
  }

  /** How many links are opened inside another link. */
  function Nested(events: seq<Event>, depth: nat): nat {
    if events == [] then 0
    else
      (if events[0].Start? && events[0].tag.LinkTag? && depth > 0 then 1 else 0)
      + Nested(events[1..], DepthAfter(events[0], depth))
  }

  lemma {:induction false} NestedSkips(r: seq<Event>, rest: seq<Event>)
    requires Rewritten(r)
    ensures Nested(r + rest, 0) == Nested(rest, 0)
    decreases |r|
  {
    hide FirstMatch, GoodUrl;
    if r == [] {
      assert r + rest == rest;
    } else if r[0].Text? {
      assert (r + rest)[1..] == r[1..] + rest;
      NestedSkips(r[1..], rest);
    } else {
      Triple(r, rest);
      assert Nested(r + rest, 0) == Nested(r[1..] + rest, 1);
      assert Nested(r[1..] + rest, 1) == Nested(r[2..] + rest, 1) == Nested(r[3..] + rest, 0);
      NestedSkips(r[3..], rest);
    }
  }

  /** No new link is opened inside a link. */
  lemma {:induction false} NoNewNesting(events: seq<Event>, depth: nat)
    ensures Nested(Linkify(events, depth), depth) == Nested(events, depth)
    decreases |events|
  {
    hide LinkifyText, Rewritten;
    if events != [] {
      var e, rest := events[0], events[1..];
      if e.Text? && depth == 0 {
        NoNewNesting(rest, 0);
        LinkifiedIsRewritten(e.text);
        NestedSkips(LinkifyText(e.text), Linkify(rest, 0));
      } else {
        var depth' := DepthAfter(e, depth);
        assert Linkify(events, depth)[1..] == Linkify(rest, depth');
        NoNewNesting(rest, depth');
      }
    }
  }

  // ----- once is enough

  lemma LinkStays(r: seq<Event>, rest: seq<Event>)
    requires |r| >= 3 && r[0].Start? && r[0].tag.LinkTag? && r[1].Text? && r[2] == End(LinkEnd)
    ensures Linkify(r + rest, 0) == [r[0], r[1], r[2]] + Linkify(r[3..] + rest, 0)
  {
    hide Linkify;
    Triple(r, rest);
    LinkifyStep(r + rest, 0);
    LinkifyStep(r[1..] + rest, 1);
    LinkifyStep(r[2..] + rest, 1);
    var x := Linkify(r[3..] + rest, 0);
    assert [r[0]] + ([r[1]] + ([r[2]] + x)) == [r[0], r[1], r[2]] + x;
  }

  lemma {:induction false} RewrittenStays(r: seq<Event>, rest: seq<Event>)
    requires Rewritten(r)
    ensures Linkify(r + rest, 0) == r + Linkify(rest, 0)
    decreases |r|
  {
    hide FirstMatch, GoodUrl, Linkify, Pieces;
    var x := Linkify(rest, 0);
    if r == [] {
      assert r + rest == rest && r + x == x;
    } else if r[0].Text? {
      assert (r + rest)[0] == r[0] && (r + rest)[1..] == r[1..] + rest;
      LinkifyStep(r + rest, 0);
      RewrittenStays(r[1..], rest);
      Assoc([r[0]], r[1..], x);
      assert [r[0]] + r[1..] == r;
    } else {
      LinkStays(r, rest);
      RewrittenStays(r[3..], rest);
      Assoc([r[0], r[1], r[2]], r[3..], x);
      assert [r[0], r[1], r[2]] + r[3..] == r;
    }
  }

  /** Linkifying a linkified stream changes nothing. */
  lemma {:induction false} LinkifyIsIdempotent(events: seq<Event>, depth: nat)
    ensures Linkify(Linkify(events, depth), depth) == Linkify(events, depth)
    decreases |events|
  {
    hide LinkifyText, Rewritten;
    if events != [] {
      var e, rest := events[0], events[1..];
      if e.Text? && depth == 0 {
        LinkifyIsIdempotent(rest, 0);
        LinkifiedIsRewritten(e.text);
        RewrittenStays(LinkifyText(e.text), Linkify(rest, 0));
      } else {
        var depth' := DepthAfter(e, depth);
        assert Linkify(events, depth)[1..] == Linkify(rest, depth');
        LinkifyIsIdempotent(rest, depth');
      }
    }
  }
}
