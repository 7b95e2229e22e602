/** Errors that retrying cannot cure: the classifier of the worker, the pattern list of the janitor,
    and why the second covers the first for inbox tasks. */
module TerminalErrors {
  import opened Tasks

  // ----- text

  function AsciiLower(c: char): char {
    if 'A' <= c <= 'Z' then (c as int + 32) as char else c
  }

  function ToAsciiLower(s: string): string {
    seq(|s|, i requires 0 <= i < |s| => AsciiLower(s[i]))
  }

  /** Every backslash in front of a double quote removed, left to right. */
  function Unescape(s: string): string {
    if s == "" then ""
    else if |s| >= 2 && s[0] == '\\' && s[1] == '"' then "\"" + Unescape(s[2..])
    else [s[0]] + Unescape(s[1..])
  }

  predicate At(s: string, i: nat, w: string) {
    i + |w| <= |s| && s[i..i + |w|] == w
  }

  predicate Contains(s: string, w: string) {
    exists i: nat | i <= |s| :: At(s, i, w)
  }

  const MAX_ERROR_CHARS := 4096

  /** The error text that is classified and stored. */
  function Truncate(error: string): string {
    if |error| > MAX_ERROR_CHARS then error[..MAX_ERROR_CHARS] + "\n[truncated]" else error
  }

  // ----- the classifier of the worker

  function JsonError(code: string): string {
    "\"error\":\"" + code + "\""
  }

  const UNTAGGED := "data did not match any variant" + " of untagged enum "

  const INBOX_NEEDLES: seq<string> := [
    "just a moment",
    "<!doctype html",
    "<html",
    JsonError("gone"),
    JsonError("couldnt_find_activity"),
    JsonError("not found"),
    "no such like",
    "tombstone",
    "status: 404",
    "status: 410",
    "unknown content type found for activity",
    "invalid or unsupported data",
    "signature check failed",
    "request not signed",
    "http body exceeded",
    "entity too large",
    "not a person",
    "not a group",
    UNTAGGED + "knownobject",
    UNTAGGED + "either",
    "notcontained",
    "status: 400",
    "status: 403"]

  const DELIVERY_NEEDLES: seq<string> := [
    "just a moment",
    "cloudflare challenge remained",
    "<!doctype html",
    "<html",
    "domain_blocked"]

  predicate IsTerminal(kind: Kind, error: string) {
    var text := Unescape(ToAsciiLower(error));
    if IsInbox(kind) then exists i | 0 <= i < |INBOX_NEEDLES| :: Contains(text, INBOX_NEEDLES[i])
    else if kind.DeliverToInbox? then
      || (Contains(text, "domain ") && Contains(text, " is blocked"))
      || exists i | 0 <= i < |DELIVERY_NEEDLES| :: Contains(text, DELIVERY_NEEDLES[i])
    else false
  }

  // ----- the pattern list of the janitor

  /** SQL pattern matching: a percent sign stands for any text, an underscore for any character. */
  predicate Like(pattern: string, s: string)
    decreases |pattern| + |s|
  {
    if pattern == "" then s == ""
    else if pattern[0] == '%' then Like(pattern[1..], s) || (s != "" && Like(pattern, s[1..]))
    else if s == "" then false
    else if pattern[0] == '_' then Like(pattern[1..], s[1..])
    else if pattern[0] == '\\' && |pattern| > 1 then pattern[1] == s[0] && Like(pattern[2..], s[1..])
    else pattern[0] == s[0] && Like(pattern[1..], s[1..])
  }

  function Within(w: string): string {
    "%" + w + "%"
  }

  // Any of these, each a conjunction of patterns.
  const PATTERNS: seq<seq<string>> := [
    [Within("just a moment")],
    [Within("<!doctype html")],
    [Within("<html")],
    [Within("error"), Within("gone")],
    [Within("couldnt_find_activity")],
    [Within("not found")],
    [Within("no such like")],
    [Within("tombstone")],
    [Within("status: 404")],
    [Within("status: 410")],
    [Within("unknown content type found for activity")],
    [Within("invalid or unsupported data")],
    [Within("signature check failed")],
    [Within("request not signed")],
    [Within("http body exceeded")],
    [Within("entity too large")],
    [Within("not a person")],
    [Within("not a group")],
    [Within(UNTAGGED + "knownobject")],
    [Within(UNTAGGED + "either")],
    [Within("notcontained")],
    [Within("status: 400")],
    [Within("status: 403")]]

  /** The lower-casing of the database: any folding of characters that is the usual one on ASCII. */
  ghost predicate FoldsAscii(fold: char -> string) {
    forall c | c < 128 as char :: fold(c) == [AsciiLower(c)]
  }

  function Lower(s: string, fold: char -> string): string {
    if s == "" then "" else fold(s[0]) + Lower(s[1..], fold)
  }

  predicate MatchesAll(patterns: seq<string>, s: string) {
    forall j | 0 <= j < |patterns| :: Like(patterns[j], s)
  }

  predicate JanitorMatches(error: string, fold: char -> string) {
    var text := Lower(error, fold);
    exists i | 0 <= i < |PATTERNS| :: MatchesAll(PATTERNS[i], text)
  }

  // ----- substrings through the three transformations

  /** A quote-free text that is found after unescaping was there before. */
  lemma {:induction false} ThroughUnescape(s: string, w: string, i: nat)
    requires w != "" && '"' !in w
    requires At(Unescape(s), i, w)
    ensures Contains(s, w)
    decreases |s|, |w|
  {
    var u := Unescape(s);
    assert u[i] == u[i..i + |w|][0] == w[0];
    if |s| >= 2 && s[0] == '\\' && s[1] == '"' {
      assert u[0] == '"' && w[0] in w;
      Shifted(u, Unescape(s[2..]), i, w);
      ThroughUnescape(s[2..], w, i - 1);
      Deeper(s, 2, w);
    } else if i > 0 {
      Shifted(u, Unescape(s[1..]), i, w);
      ThroughUnescape(s[1..], w, i - 1);
      Deeper(s, 1, w);
    } else {
      PrefixThroughUnescape(s, w);
      assert At(s, 0, w);
    }
  }

  lemma Shifted(u: string, rest: string, i: nat, w: string)
    requires i > 0 && At(u, i, w) && u != "" && u[1..] == rest
    ensures At(rest, i - 1, w)
  {
    assert rest[i - 1..i - 1 + |w|] == u[i..i + |w|];
  }

  /** At the front even the position is kept. */
  lemma {:induction false} PrefixThroughUnescape(s: string, w: string)
    requires '"' !in w
    requires At(Unescape(s), 0, w)
    ensures At(s, 0, w)
    decreases |w|
  {
    var u := Unescape(s);
    if w != "" {
      assert u[0] == u[0..|w|][0] == w[0];
      assert !(|s| >= 2 && s[0] == '\\' && s[1] == '"');
      assert u[1..] == Unescape(s[1..]);
      assert u[1..][0..|w| - 1] == u[0..|w|][1..] == w[1..];
      PrefixThroughUnescape(s[1..], w[1..]);
      assert s[0..|w|] == [s[0]] + s[1..][0..|w| - 1];
    }
  }

  lemma Deeper(s: string, n: nat, w: string)
    requires n <= |s| && Contains(s[n..], w)
    ensures Contains(s, w)
  {
    var i: nat :| i <= |s[n..]| && At(s[n..], i, w);
    assert s[n..][i..i + |w|] == s[n + i..n + i + |w|];
    assert At(s, n + i, w);
  }

  lemma {:induction false} LowerConcat(a: string, b: string, fold: char -> string)
    ensures Lower(a + b, fold) == Lower(a, fold) + Lower(b, fold)
  {
    if a == "" {
      assert a + b == b;
    } else {
      assert (a + b)[1..] == a[1..] + b;
      LowerConcat(a[1..], b, fold);
    }
  }

  predicate Ascii(s: string) {
    forall i | 0 <= i < |s| :: s[i] < 128 as char
  }

  lemma {:induction false} LowerAscii(s: string, fold: char -> string)
    requires FoldsAscii(fold) && Ascii(ToAsciiLower(s))
    ensures Lower(s, fold) == ToAsciiLower(s)
  {
    if s != "" {
      assert ToAsciiLower(s)[0] == AsciiLower(s[0]);
      assert ToAsciiLower(s)[1..] == ToAsciiLower(s[1..]);
      LowerAscii(s[1..], fold);
    }
  }

  /** An ASCII text found after ASCII lower-casing is found after the lower-casing of the database. */
  lemma ThroughLower(s: string, w: string, fold: char -> string)
    requires FoldsAscii(fold) && Ascii(w)
    requires Contains(ToAsciiLower(s), w)
    ensures Contains(Lower(s, fold), w)
  {
    hide Lower;
    var i: nat :| i <= |s| && At(ToAsciiLower(s), i, w);
    var before, middle, after := s[..i], s[i..i + |w|], s[i + |w|..];
    assert s == before + (middle + after);
    assert ToAsciiLower(middle) == ToAsciiLower(s)[i..i + |w|];
    LowerAscii(middle, fold);
    LowerConcat(before, middle + after, fold);
    LowerConcat(middle, after, fold);
    var n := |Lower(before, fold)|;
    assert Lower(s, fold)[n..n + |w|] == w;
    assert At(Lower(s, fold), n, w);
  }

  /** A pattern without wildcards for longer texts matches a text that starts with it. */
  lemma {:induction false} LikePrefix(w: string, s: string)
    requires '%' !in w && '\\' !in w
    requires At(s, 0, w)
    ensures Like(w + "%", s)
    decreases |w|
  {
    if w == "" {
      assert w + "%" == "%";
      LikeAnything(s);
    } else {
      assert (w + "%")[1..] == w[1..] + "%";
      assert s[0] == s[0..|w|][0];
      assert s[1..][0..|w| - 1] == s[0..|w|][1..];
      LikePrefix(w[1..], s[1..]);
    }
  }

  lemma {:induction false} LikeAnything(s: string)
    ensures Like("%", s)
  {
    if s != "" {
      LikeAnything(s[1..]);
    }
  }

  lemma {:induction false} LikeContains(w: string, s: string, i: nat)
    requires '%' !in w && '\\' !in w
    requires At(s, i, w)
    ensures Like(Within(w), s)
    decreases i
  {
    var pattern := Within(w);
    assert pattern[1..] == w + "%";
    if i == 0 {
      LikePrefix(w, s);
    } else {
      assert s[1..][i - 1..i - 1 + |w|] == s[i..i + |w|];
      LikeContains(w, s[1..], i - 1);
    }
  }

  /** What the special characters of a pattern stand for; behind a backslash they stand for themselves. */
  lemma LikeExactly(c: char, s: string)
    ensures Like("%", s)
    ensures Like("_", s) <==> |s| == 1
    ensures Like(['\\', c], s) <==> s == [c]
    ensures c !in {'%', '_', '\\'} ==> (Like([c], s) <==> s == [c])
  {
    LikeAnything(s);
    assert ['\\', c][2..] == [] && [c][1..] == [] && "_"[1..] == [];
    assert |s| == 1 ==> s[1..] == [];
    assert |s| >= 1 && s[1..] == "" ==> |s| == 1;
  }

  predicate PlainChar(c: char) {
    'a' <= c <= 'z' || '0' <= c <= '9' || c in {' ', ':', '!', '<'}
  }

  /** A text that no transformation on either side can change and that is no wildcard either. */
  predicate Plain(w: string) {
    w != "" && forall i | 0 <= i < |w| :: PlainChar(w[i])
  }

  predicate StableChar(c: char) {
    PlainChar(c) || c == '_'
  }

  /** A fragment that no transformation between the two sides can change. */
  predicate Stable(w: string) {
    w != "" && forall i | 0 <= i < |w| :: StableChar(w[i])
  }

  lemma StableFacts(w: string)
    requires Stable(w)
    ensures w != "" && Ascii(w) && '"' !in w && '%' !in w && '\\' !in w
  {
    assert forall c | c in w :: StableChar(c);
  }

  lemma PlainIsStable(w: string)
    requires Plain(w)
    ensures Stable(w) && '_' !in w
  {
    assert forall c | c in w :: PlainChar(c);
  }

  lemma PlainConcat(a: string, b: string)
    requires Plain(a) && Plain(b)
    ensures Plain(a + b)
  {
    assert forall i | 0 <= i < |a + b| :: (a + b)[i] == if i < |a| then a[i] else b[i - |a|];
  }

  lemma Inside(s: string, i: nat, needle: string, j: nat, w: string)
    requires At(s, i, needle) && At(needle, j, w)
    ensures At(s, i + j, w)
  {
    forall k | 0 <= k < |w| ensures s[i + j..i + j + |w|][k] == w[k] {
      assert s[i..i + |needle|][j + k] == needle[j..j + |w|][k];
    }
  }

  /** A stable fragment of the classified text is matched in the stored text. */
  lemma StableFragment(error: string, needle: string, w: string, fold: char -> string)
    requires FoldsAscii(fold) && Stable(w)
    requires Contains(Unescape(ToAsciiLower(error)), needle) && Contains(needle, w)
    ensures Like(Within(w), Lower(error, fold))
  {
    hide Unescape, ToAsciiLower, Stable, Lower, Like, Ascii;
    StableFacts(w);
    var text := Unescape(ToAsciiLower(error));
    var i: nat :| i <= |text| && At(text, i, needle);
    var j: nat :| j <= |needle| && At(needle, j, w);
    Inside(text, i, needle, j, w);
    ThroughUnescape(ToAsciiLower(error), w, i + j);
    ThroughLower(error, w, fold);
    var k: nat :| k <= |Lower(error, fold)| && At(Lower(error, fold), k, w);
    LikeContains(w, Lower(error, fold), k);
  }

  lemma WholeIsContained(w: string)
    ensures Contains(w, w)
  {
    assert At(w, 0, w);
  }

  /** An error code inside JSON is covered by the pattern made of the code, and so is the word "error". */
  lemma Code(error: string, code: string, fold: char -> string)
    requires Stable(code) && FoldsAscii(fold)
    requires Contains(Unescape(ToAsciiLower(error)), JsonError(code))
    ensures Like(Within(code), Lower(error, fold))
    ensures Like(Within("error"), Lower(error, fold))
  {
    hide Unescape, ToAsciiLower, Lower, Like;
    assert At(JsonError(code), 9, code);
    StableFragment(error, JsonError(code), code, fold);
    var key := "\"error\":\"";
    assert key[1..6] == "error";
    assert JsonError(code)[1..6] == key[1..6];
    assert At(JsonError(code), 1, "error");
    StableFragment(error, JsonError(code), "error", fold);
  }

  // The needles whose pattern is made of the needle itself: all but the three error codes.
  const OWN: set<nat> := {0, 1, 2, 6, 7, 8, 9, 10, 11, 12, 13, 14, 15, 16, 17, 18, 19, 20, 21, 22}

  lemma ShortNeedles(i: nat)
    requires i in {0, 1, 2, 6, 7, 8, 9}
    ensures Plain(INBOX_NEEDLES[i])
  {
    hide JsonError;
  }

  lemma LongNeedles(i: nat)
    requires i in {10, 11}
    ensures Plain(INBOX_NEEDLES[i])
  {
    hide JsonError;
  }

  lemma MiddleNeedles(i: nat)
    requires i in {12, 13, 14}
    ensures Plain(INBOX_NEEDLES[i])
  {
    hide JsonError;
  }

  lemma LastNeedles(i: nat)
    requires i in {15, 16, 17, 20, 21, 22}
    ensures Plain(INBOX_NEEDLES[i])
  {
    hide JsonError;
  }

  lemma UntaggedNeedles(i: nat)
    requires i in {18, 19}
    ensures Plain(INBOX_NEEDLES[i])
  {
    hide JsonError;
    assert Plain("data did not match any variant") && Plain(" of untagged enum ");
    assert Plain("knownobject") && Plain("either");
    hide Plain;
    PlainConcat("data did not match any variant", " of untagged enum ");
    PlainConcat(UNTAGGED, "knownobject");
    PlainConcat(UNTAGGED, "either");
  }

  /** These needles are plain, and the pattern at their place is made of them. */
  lemma OwnNeedle(i: nat)
    requires i in OWN
    ensures i < |INBOX_NEEDLES| && Plain(INBOX_NEEDLES[i]) && PATTERNS[i] == [Within(INBOX_NEEDLES[i])]
  {
    hide Plain, JsonError;
    if i in {0, 1, 2, 6, 7, 8, 9} { ShortNeedles(i); }
    if i in {10, 11} { LongNeedles(i); }
    if i in {12, 13, 14} { MiddleNeedles(i); }
    if i in {15, 16, 17, 20, 21, 22} { LastNeedles(i); }
    if i in {18, 19} { UntaggedNeedles(i); }
  }

  lemma Codes(error: string, i: nat, fold: char -> string)
    requires i in {3, 4, 5} && FoldsAscii(fold)
    requires Contains(Unescape(ToAsciiLower(error)), INBOX_NEEDLES[i])
    ensures MatchesAll(PATTERNS[i], Lower(error, fold))
  {
    hide Unescape, ToAsciiLower, Lower, Like;
    match i {
      case 3 => Code(error, "gone", fold);
      case 4 => Code(error, "couldnt_find_activity", fold);
      case 5 => Code(error, "not found", fold);
    }
  }

  /** Every needle of the classifier is covered by the pattern at its place. */
  lemma NeedleIsCovered(error: string, i: nat, fold: char -> string)
    requires i < |INBOX_NEEDLES| && FoldsAscii(fold)
    requires Contains(Unescape(ToAsciiLower(error)), INBOX_NEEDLES[i])
    ensures MatchesAll(PATTERNS[i], Lower(error, fold))
  {
    hide Unescape, ToAsciiLower, Lower, Like, Plain, JsonError, Contains;
    if i in {3, 4, 5} {
      Codes(error, i, fold);
    } else {
      OwnNeedle(i);
      PlainIsStable(INBOX_NEEDLES[i]);
      WholeIsContained(INBOX_NEEDLES[i]);
      StableFragment(error, INBOX_NEEDLES[i], INBOX_NEEDLES[i], fold);
    }
  }

  /** For every inbox error text: what the worker calls terminal, the janitor matches in the stored text,
      whatever the database does to characters outside ASCII. */
  lemma TerminalIsMatched(kind: Kind, error: string, fold: char -> string)
    requires IsInbox(kind) && IsTerminal(kind, error) && FoldsAscii(fold)
    ensures JanitorMatches(error, fold)
  {
    var i :| 0 <= i < |INBOX_NEEDLES| && Contains(Unescape(ToAsciiLower(error)), INBOX_NEEDLES[i]);
    NeedleIsCovered(error, i, fold);
  }

  // ----- when the janitor and the worker agree

  /** A text without backslashes and quotes survives the removal of backslashes. */
  lemma {:induction false} SurvivesUnescape(s: string, w: string, i: nat)
    requires w != "" && '"' !in w && '\\' !in w
    requires At(s, i, w)
    ensures Contains(Unescape(s), w)
    decreases |s|
  {
    assert s[i] == s[i..i + |w|][0] == w[0] && w[0] in w;
    if |s| >= 2 && s[0] == '\\' && s[1] == '"' {
      assert s[2..][i - 2..i - 2 + |w|] == s[i..i + |w|];
      SurvivesUnescape(s[2..], w, i - 2);
      assert Unescape(s)[1..] == Unescape(s[2..]);
      Deeper(Unescape(s), 1, w);
    } else if i > 0 {
      assert s[1..][i - 1..i - 1 + |w|] == s[i..i + |w|];
      SurvivesUnescape(s[1..], w, i - 1);
      assert Unescape(s)[1..] == Unescape(s[1..]);
      Deeper(Unescape(s), 1, w);
    } else {
      PrefixSurvives(s, w);
      assert At(Unescape(s), 0, w);
    }
  }

  lemma {:induction false} PrefixSurvives(s: string, w: string)
    requires '\\' !in w && At(s, 0, w)
    ensures At(Unescape(s), 0, w)
    decreases |w|
  {
    if w != "" {
      assert s[0] == s[0..|w|][0] == w[0] && w[0] in w;
      assert s[1..][0..|w| - 1] == s[0..|w|][1..] == w[1..];
      PrefixSurvives(s[1..], w[1..]);
      var u, rest := Unescape(s), Unescape(s[1..]);
      assert u == [s[0]] + rest;
      assert u[0..|w|] == [s[0]] + rest[0..|w| - 1];
    }
  }

  /** A pattern of literal characters that ends in a percent sign matches only what starts with them. */
  lemma {:induction false} LikeMeansPrefix(w: string, s: string)
    requires '%' !in w && '\\' !in w && '_' !in w
    requires Like(w + "%", s)
    ensures At(s, 0, w)
    decreases |w|
  {
    if w != "" {
      assert w[0] in w && (w + "%")[0] == w[0] && (w + "%")[1..] == w[1..] + "%";
      LikeMeansPrefix(w[1..], s[1..]);
      assert s[0..|w|] == [s[0]] + s[1..][0..|w| - 1];
    }
  }

  lemma {:induction false} LikeMeansContains(w: string, s: string)
    requires '%' !in w && '\\' !in w && '_' !in w
    requires Like(Within(w), s)
    ensures Contains(s, w)
    decreases |s|
  {
    assert Within(w)[1..] == w + "%";
    if Like(w + "%", s) {
      LikeMeansPrefix(w, s);
      assert At(s, 0, w);
    } else {
      LikeMeansContains(w, s[1..]);
      Deeper(s, 1, w);
    }
  }

  /** On every text, in whatever way it was lower-cased, one of these patterns matches exactly what contains its needle. */
  lemma OwnPatternExactly(i: nat, text: string)
    requires i in OWN
    ensures MatchesAll(PATTERNS[i], text) <==> Contains(text, INBOX_NEEDLES[i])
  {
    hide Like, Plain, JsonError, Stable;
    OwnNeedle(i);
    var w := INBOX_NEEDLES[i];
    PlainIsStable(w);
    StableFacts(w);
    if MatchesAll(PATTERNS[i], text) {
      assert Like(PATTERNS[i][0], text);
      LikeMeansContains(w, text);
    }
    if Contains(text, w) {
      var k: nat :| k <= |text| && At(text, k, w);
      LikeContains(w, text, k);
    }
  }

  lemma AsciiLowers(s: string)
    requires Ascii(s)
    ensures Ascii(ToAsciiLower(s))
  {
  }

  /** In ASCII texts a needle of these that the janitor finds is one that the worker finds. */
  lemma OwnPatternIsTerminal(error: string, i: nat, fold: char -> string)
    requires i in OWN && FoldsAscii(fold) && Ascii(error)
    requires MatchesAll(PATTERNS[i], Lower(error, fold))
    ensures IsTerminal(VerifyAndIngestObjectFromInbox, error)
  {
    hide Like, Plain, JsonError, Stable, Lower, Unescape, ToAsciiLower, Ascii, MatchesAll;
    AsciiLowers(error);
    LowerAscii(error, fold);
    OwnPatternExactly(i, ToAsciiLower(error));
    OwnNeedle(i);
    var w := INBOX_NEEDLES[i];
    PlainIsStable(w);
    StableFacts(w);
    var k: nat :| k <= |ToAsciiLower(error)| && At(ToAsciiLower(error), k, w);
    SurvivesUnescape(ToAsciiLower(error), w, k);
  }

  /** For ASCII texts the janitor and the worker agree except on the three patterns made of error codes: the
      janitor matches a text if and only if the worker calls it terminal or one of the three matches. */
  lemma JanitorMatchesExactly(error: string, fold: char -> string)
    requires FoldsAscii(fold) && Ascii(error)
    ensures JanitorMatches(error, fold)
       <==> || IsTerminal(VerifyAndIngestObjectFromInbox, error)
            || exists i :: i in {3, 4, 5} && MatchesAll(PATTERNS[i], Lower(error, fold))
  {
    hide MatchesAll, IsTerminal, Lower, Ascii, JsonError, Within;
    if IsTerminal(VerifyAndIngestObjectFromInbox, error) {
      TerminalIsMatched(VerifyAndIngestObjectFromInbox, error, fold);
    }
    if JanitorMatches(error, fold) {
      var i :| 0 <= i < |PATTERNS| && MatchesAll(PATTERNS[i], Lower(error, fold));
      if i !in {3, 4, 5} {
        OwnPatternIsTerminal(error, i, fold);
      }
    }
    if i :| i in {3, 4, 5} && MatchesAll(PATTERNS[i], Lower(error, fold)) {
      assert i < |PATTERNS|;
    }
  }

  lemma {:induction false} NothingToUnescape(s: string)
    requires '\\' !in s
    ensures Unescape(s) == s
  {
    if s != "" {
      NothingToUnescape(s[1..]);
    }
  }

  lemma NeedleLengths(i: nat)
    requires i < |INBOX_NEEDLES| && i != 2 && i != 7
    ensures |INBOX_NEEDLES[i]| > 9
  {
    hide JsonError;
    assert forall code :: |JsonError(code)| == |code| + 10 by { JsonErrorLength(); }
  }

  lemma JsonErrorLength()
    ensures forall code :: |JsonError(code)| == |code| + 10
  {
  }

  const CLOSE_CALL := "errorgone"

  lemma NoNeedle(i: nat)
    requires i < |INBOX_NEEDLES|
    ensures !Contains(CLOSE_CALL, INBOX_NEEDLES[i])
  {
    hide JsonError;
    if i == 2 || i == 7 {
      assert INBOX_NEEDLES[i][0] !in CLOSE_CALL;
    } else {
      NeedleLengths(i);
    }
  }

  lemma CloseCallIsMatched(fold: char -> string)
    requires FoldsAscii(fold)
    ensures JanitorMatches(CLOSE_CALL, fold)
  {
    hide Lower, Like;
    assert ToAsciiLower(CLOSE_CALL) == CLOSE_CALL;
    LowerAscii(CLOSE_CALL, fold);
    LikeContains("error", CLOSE_CALL, 0);
    LikeContains("gone", CLOSE_CALL, 5);
    assert MatchesAll(PATTERNS[3], Lower(CLOSE_CALL, fold));
  }

  /** The janitor matches more: here is a text that it fails and that the worker would retry. */
  lemma MatchedButRetried(fold: char -> string) returns (error: string)
    requires FoldsAscii(fold)
    ensures JanitorMatches(error, fold)
    ensures !IsTerminal(VerifyAndIngestObjectFromInbox, error)
  {
    error := CLOSE_CALL;
    CloseCallIsMatched(fold);
    hide Unescape, JanitorMatches, Contains;
    assert ToAsciiLower(error) == error;
    NothingToUnescape(error);
    forall i | 0 <= i < |INBOX_NEEDLES| ensures !Contains(error, INBOX_NEEDLES[i]) {
      NoNeedle(i);
    }
  }
}
