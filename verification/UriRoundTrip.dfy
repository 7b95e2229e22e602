/** Which printed URIs of local objects parse back, and to what. */
module UriRoundTrip {
  import opened Options
  import opened Decimal
  import opened Texts
  import opened Trout
  import opened LocalObjectRef

  /** The path of a base URL in front of pushed segments. */
  function Stem(base: BaseUrl): string {
    if |base.path| > 1 then base.path else ""
  }

  lemma PushPlain(base: BaseUrl, segment: string)
    requires base.path == "/" || |base.path| > 1
    requires Plain(segment)
    ensures base.Push(segment) == base.(path := Stem(base) + ("/" + segment))
  {
    assert PlainChar(segment[0]);
    assert base.path + "/" + segment == base.path + ("/" + segment);
  }

  lemma Associate(stem: string, head: string, rest: string)
    ensures (stem + ("/" + head)) + ("/" + rest) == stem + ("/" + (head + ("/" + rest)))
  {
    assert ("/" + head) + ("/" + rest) == "/" + (head + ("/" + rest));
  }

  /** Pushing plain segments appends them to the path, each behind a slash. */
  lemma {:induction false} ExtendPath(base: BaseUrl, segments: seq<string>)
    requires base.path == "/" || |base.path| > 1
    requires segments != [] && forall i | 0 <= i < |segments| :: Plain(segments[i])
    ensures base.Extend(segments) == base.(path := Stem(base) + ("/" + Join(segments)))
    decreases |segments|
  {
    hide BaseUrl.Push, Plain;
    var head, rest := segments[0], segments[1..];
    PushPlain(base, head);
    var pushed := base.Push(head);
    assert base.Extend(segments) == pushed.Extend(rest);
    if rest == [] {
      assert pushed.Extend(rest) == pushed;
    } else {
      assert |head| > 0 by { NonEmpty(head); }
      ExtendPath(pushed, rest);
      Associate(Stem(base), head, Join(rest));
      assert Join(segments) == head + ("/" + Join(rest));
    }
  }

  lemma NonEmpty(segment: string)
    requires Plain(segment)
    ensures segment != ""
  {
  }

  function PathOf(r: Ref): string {
    "/" + Join(Segments(r))
  }

  /** A printed reference: the base without its tail, the path of the reference, the tail. */
  lemma Printed(r: Ref, base: BaseUrl)
    requires base.WellFormed()
    ensures LocalUri(r, base).Serialize() == base.origin + (Stem(base) + PathOf(r)) + base.Tail()
  {
    hide Segments;
    RoutePrinted(r);
    ExtendPath(base, Segments(r));
  }

  /** The path of a reference: one slash, then plain characters that route back to the reference. */
  lemma PathFacts(r: Ref)
    ensures |PathOf(r)| > 1 && PathOf(r)[0] == '/' && PathOf(r)[1] != '/'
    ensures '?' !in PathOf(r) && '#' !in PathOf(r)
    ensures TryFromPath(PathOf(r)) == Some(Cut(r))
  {
    hide Segments, Cut, Route;
    RoutePrinted(r);
    JoinChars(Segments(r));
    assert PathOf(r)[1..] == Join(Segments(r));
    assert PathOf(r)[1] == Join(Segments(r))[0];
  }

  lemma {:induction false} JoinChars(segments: seq<string>)
    requires forall i | 0 <= i < |segments| :: Plain(segments[i])
    ensures '?' !in Join(segments) && '#' !in Join(segments)
    ensures segments != [] ==> Join(segments) != "" && Join(segments)[0] != '/'
    decreases |segments|
  {
    if segments != [] {
      assert forall c | c in segments[0] :: PlainChar(c);
      assert PlainChar(segments[0][0]);
      JoinChars(segments[1..]);
    }
  }

  lemma {:induction false} TrimKeepsUpTo(s: string, n: nat)
    requires n < |s| && s[n] != '/'
    ensures |TrimSlashes(s)| > n
    decreases |s|
  {
    if s[|s| - 1] == '/' {
      TrimKeepsUpTo(s[..|s| - 1], n);
    }
  }

  /** What is stripped for a base without query, fragment or trailing slash. */
  lemma TrimmedBase(base: BaseUrl)
    requires base.WellFormed() && base.Strippable()
    ensures TrimSlashes(base.Serialize()) == base.origin + Stem(base)
  {
    var host := base.origin + Stem(base);
    assert host[|host| - 1] != '/';
    if |base.path| == 1 {
      assert base.Serialize() == host + "/";
      assert (host + "/")[..|host|] == host;
    } else {
      assert base.Serialize() == host;
    }
  }

  lemma StripTrimmed(uri: string, base: BaseUrl, host: string, path: string, suffix: string)
    requires TrimSlashes(base.Serialize()) == host
    requires '?' !in path && '#' !in path
    requires suffix == "" || suffix[0] == '?' || suffix[0] == '#'
    requires uri == host + (path + suffix)
    ensures TryStripHost(uri, base) == Some(path)
  {
    hide TrimSlashes;
    assert uri[|host|..] == path + suffix;
    FirstOfPrefix(path, suffix, {'?', '#'});
    assert (path + suffix)[..|path|] == path;
  }

  lemma Regrouped(origin: string, stem: string, path: string, suffix: string)
    ensures origin + (stem + path) + "" + suffix == origin + stem + (path + suffix)
  {
    assert origin + (stem + path) == origin + stem + path;
    assert origin + stem + path + suffix == origin + stem + (path + suffix);
  }

  /** Whatever query or fragment follows it, a printed URI parses back to its reference. */
  lemma ParseWithSuffix(r: Ref, base: BaseUrl, suffix: string)
    requires base.WellFormed() && base.Strippable()
    requires suffix == "" || suffix[0] == '?' || suffix[0] == '#'
    ensures TryFromUri(LocalUri(r, base).Serialize() + suffix, base) == Some(Cut(r))
  {
    hide Cut, TryFromPath, LocalUri, TryStripHost, PathOf, TrimSlashes, Stem;
    Printed(r, base);
    PathFacts(r);
    TrimmedBase(base);
    var host, path := base.origin + Stem(base), PathOf(r);
    Regrouped(base.origin, Stem(base), path, suffix);
    StripTrimmed(LocalUri(r, base).Serialize() + suffix, base, host, path, suffix);
  }

  /** The URI of another host is not local, even if the name of ours is the beginning of its name. */
  lemma OtherHost(base: BaseUrl, rest: string)
    requires base.WellFormed() && base.Strippable()
    requires rest != "" && rest[0] != '/'
    ensures TryFromUri(base.origin + Stem(base) + rest, base) == None
  {
    TrimmedBase(base);
    hide TrimSlashes, Stem, FirstOf, Route;
    var host := base.origin + Stem(base);
    assert (host + rest)[|host|..] == rest;
    var path := rest[..FirstOf(rest, {'?', '#'})];
    assert path == "" || path[0] == rest[0];
  }

  lemma CharAfter(before: string, middle: string, after: string, i: nat)
    requires i < |middle|
    ensures (before + middle + after)[|before| + i] == middle[i]
  {
  }

  /** A base URL with a query or a fragment is no prefix of what it prints. */
  lemma TailIsNotStripped(r: Ref, base: BaseUrl)
    requires base.WellFormed() && base.Tail() != ""
    ensures TryFromUri(LocalUri(r, base).Serialize(), base) == None
  {
    hide LocalUri, PathOf, TryFromPath;
    Printed(r, base);
    PathFacts(r);
    var uri, whole, tail := LocalUri(r, base).Serialize(), base.Serialize(), base.Tail();
    var at := |base.origin| + |base.path|;
    assert tail[0] == '?' || tail[0] == '#';
    assert whole[at] == tail[0];
    TrimKeepsUpTo(whole, at);
    CharAfter(base.origin, Stem(base) + PathOf(r), tail, |base.path|);
    assert uri[at] == (Stem(base) + PathOf(r))[|base.path|] == PathOf(r)[|base.path| - |Stem(base)|];
    assert TrimSlashes(whole)[at] == tail[0] != uri[at];
  }

  lemma RootRefusesSlash(path: string)
    requires |path| >= 2 && path[0] == path[1] == '/'
    ensures TryFromPath(path) == None
  {
    hide Children, Handle;
    RootWords();
    LiteralsRefuseSlash(ROUTES, Children(Root), path[1..], []);
  }

  /** A base URL with a trailing slash prints two slashes in a row, which no route takes. */
  lemma TrailingSlashIsNotRouted(r: Ref, base: BaseUrl)
    requires base.WellFormed() && base.Tail() == "" && !base.Strippable()
    ensures TryFromUri(LocalUri(r, base).Serialize(), base) == None
  {
    hide TryFromPath, LocalUri, PathOf;
    Printed(r, base);
    PathFacts(r);
    var uri, whole := LocalUri(r, base).Serialize(), base.Serialize();
    assert whole == base.origin + base.path;
    var host := TrimSlashes(whole);
    assert whole[|whole| - 1] == '/';
    TrimKeepsUpTo(whole, |base.origin| - 1);
    assert uri == whole + PathOf(r);
    var remaining := uri[|host|..];
    assert remaining[0] == '/' && remaining[1] == '/';
    RootRefusesSlash(remaining[..FirstOf(remaining, {'?', '#'})]);
  }

  /** The round trip of printing and parsing holds exactly for base URLs without query, fragment or
      trailing slash; with any of them nothing that is printed can be read back. */
  lemma RoundTrip(r: Ref, base: BaseUrl)
    requires base.WellFormed()
    ensures TryFromUri(LocalUri(r, base).Serialize(), base) == if base.Strippable() then Some(Cut(r)) else None
  {
    if base.Strippable() {
      ParseWithSuffix(r, base, "");
      assert LocalUri(r, base).Serialize() + "" == LocalUri(r, base).Serialize();
    } else if base.Tail() != "" {
      TailIsNotStripped(r, base);
    } else {
      TrailingSlashIsNotRouted(r, base);
    }
  }

  lemma {:induction false} CutPrintsTheSame(r: Ref)
    ensures Segments(Cut(r)) == Segments(r)
  {
  }

  /** Two references print the same URI exactly when they agree up to the cut of page timestamps. */
  lemma PrintingIsInjective(r: Ref, s: Ref, base: BaseUrl)
    requires base.WellFormed()
    ensures LocalUri(r, base).Serialize() == LocalUri(s, base).Serialize() <==> Cut(r) == Cut(s)
  {
    hide Segments, Cut, PathOf, TryFromPath;
    CutPrintsTheSame(r);
    CutPrintsTheSame(s);
    if LocalUri(r, base).Serialize() == LocalUri(s, base).Serialize() {
      Printed(r, base);
      Printed(s, base);
      SameMiddle(base.origin, Stem(base) + PathOf(r), Stem(base) + PathOf(s), base.Tail());
      SameMiddle(Stem(base), PathOf(r), PathOf(s), "");
      PathFacts(r);
      PathFacts(s);
    }
  }

  lemma SameMiddle(before: string, a: string, b: string, after: string)
    requires before + a + after == before + b + after
    ensures a == b
  {
    assert |a| == |b|;
    assert (before + a + after)[|before|..|before| + |a|] == a;
    assert (before + b + after)[|before|..|before| + |b|] == b;
  }

  // ----- activity ids of follows

  /** The id of a follow activity: the URI of the follow with a fresh nonce as its query. */
  function FollowId(community: I64, follower: I64, nonce: string, base: BaseUrl): string {
    LocalUri(CommunityFollow(community, follower), base).Serialize() + "?activity=" + nonce
  }

  /** Responses that name a follow by a nonce-bearing id still find the row of the follow. */
  lemma FollowIdNamesTheFollow(community: I64, follower: I64, nonce: string, base: BaseUrl)
    requires base.WellFormed() && base.Strippable()
    ensures TryFromUri(FollowId(community, follower, nonce, base), base) == Some(CommunityFollow(community, follower))
  {
    var r := CommunityFollow(community, follower);
    var suffix := "?activity=" + nonce;
    assert FollowId(community, follower, nonce, base) == LocalUri(r, base).Serialize() + suffix;
    ParseWithSuffix(r, base, suffix);
  }

  /** Follow ids with different nonces, or of different follows, are different. */
  lemma FollowIdsDiffer(c: I64, f: I64, n: string, c': I64, f': I64, n': string, base: BaseUrl)
    requires base.WellFormed() && base.Strippable()
    requires FollowId(c, f, n, base) == FollowId(c', f', n', base)
    ensures c == c' && f == f' && n == n'
  {
    FollowIdNamesTheFollow(c, f, n, base);
    FollowIdNamesTheFollow(c', f', n', base);
    var before := LocalUri(CommunityFollow(c, f), base).Serialize() + "?activity=";
    assert (before + n)[|before|..] == n;
    assert (before + n')[|before|..] == n';
  }

  /** The plain URI of a follow is no activity id, of whichever follow. */
  lemma PlainFollowIsNoId(c: I64, f: I64, c': I64, f': I64, n: string, base: BaseUrl)
    requires base.WellFormed() && base.Strippable()
    ensures LocalUri(CommunityFollow(c, f), base).Serialize() != FollowId(c', f', n, base)
  {
    var r := CommunityFollow(c, f);
    RoundTrip(r, base);
    FollowIdNamesTheFollow(c', f', n, base);
    if c == c' && f == f' {
      assert |FollowId(c', f', n, base)| > |LocalUri(r, base).Serialize()|;
    }
  }
}
