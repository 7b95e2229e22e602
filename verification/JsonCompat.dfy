/** Rewrites that make JSON from other servers fit the typed ActivityPub model. */
module JsonCompat {
  import opened Options

  datatype Json =
    | Null
    | Bool(value: bool)
    | Number(text: string)
    | Str(s: string)
    | Arr(items: seq<Json>)
    | Obj(fields: map<string, Json>)

  function Get(v: Json, field: string): Option<Json> {
    if v.Obj? && field in v.fields then Some(v.fields[field]) else None
  }

  function StrField(v: Json, field: string): Option<string> {
    match Get(v, field)
    case Some(Str(s)) => Some(s)
    case _ => None
  }

  // ----- the text in front of, and after, the first occurrence of a character

  function Before(s: string, c: char): (t: string)
    ensures t <= s && c !in t
    ensures c in s ==> |t| < |s| && s[|t|] == c
    ensures c !in s ==> t == s
  {
    if s == "" || s[0] == c then "" else [s[0]] + Before(s[1..], c)
  }

  // ----- media types

  function Normalize(v: Json): Json
    decreases v, 0
  {
    match v
    case Arr(items) => Arr(seq(|items|, i requires 0 <= i < |items| => Normalize(items[i])))
    case Obj(fields) => Obj(map key | key in fields :: NormalizeField(key, fields[key]))
    case _ => v
  }

  function NormalizeField(key: string, v: Json): Json
    decreases v, 1
  {
    if key == "mediaType" && v.Str? && '?' in v.s then Str(Before(v.s, '?')) else Normalize(v)
  }

  // ----- date-times

  const DATETIME_FIELDS: set<string> := {"published", "updated", "startTime", "endTime", "closed"}

  /** A date-time without zone, given what the date-time library can parse without one. */
  function NaiveToUtc(s: string, parses: string -> bool): Option<string> {
    if 'T' !in s then None
    else
      var time := s[|Before(s, 'T')| + 1..];
      if (time != "" && time[|time| - 1] == 'Z') || '+' in time || '-' in time then None
      else if !parses(s) then None
      else Some(s + "Z")
  }

  function Datetimes(v: Json, parses: string -> bool): Json
    decreases v, 0
  {
    match v
    case Arr(items) => Arr(seq(|items|, i requires 0 <= i < |items| => Datetimes(items[i], parses)))
    case Obj(fields) => Obj(map key | key in fields :: DatetimeField(key, fields[key], parses))
    case _ => v
  }

  function DatetimeField(key: string, v: Json, parses: string -> bool): Json
    decreases v, 1
  {
    if key in DATETIME_FIELDS && v.Str? && NaiveToUtc(v.s, parses).Some? then Str(NaiveToUtc(v.s, parses).value)
    else Datetimes(v, parses)
  }

  // ----- videos

  function HtmlHref(items: seq<Json>): Option<string> {
    if items == [] then None
    else if StrField(items[0], "mediaType") == Some("text/html") && StrField(items[0], "href").Some? then
      StrField(items[0], "href")
    else HtmlHref(items[1..])
  }

  function WebHref(items: seq<Json>): Option<string> {
    if items == [] then None
    else
      match StrField(items[0], "href")
      case Some(href) => if "https://" <= href || "http://" <= href then Some(href) else WebHref(items[1..])
      case None => WebHref(items[1..])
  }

  /** The URL that replaces a list: the first HTML page, or else the first web address. */
  function Replacement(url: Json): Option<string> {
    if !url.Arr? then None
    else if HtmlHref(url.items).Some? then HtmlHref(url.items)
    else WebHref(url.items)
  }

  function Video(v: Json): Json {
    if StrField(v, "type") != Some("Video") || Get(v, "url").None? then v
    else
      match Replacement(v.fields["url"])
      case None => v
      case Some(href) => v.(fields := v.fields["url" := Str(href)])
  }

  // ----- groups

  predicate GroupLike(kind: Json) {
    match kind
    case Str(s) => s == "PublicGroup"
    case Arr(kinds) => exists i | 0 <= i < |kinds| :: kinds[i] == Str("Group") || kinds[i] == Str("PublicGroup")
    case _ => false
  }

  function Group(v: Json): Json {
    if Get(v, "inbox").None? || Get(v, "outbox").None? || Get(v, "type").None? then v
    else if GroupLike(v.fields["type"]) then v.(fields := v.fields["type" := Str("Group")])
    else v
  }

  function Compat(v: Json, parses: string -> bool): Json {
    Group(Datetimes(Video(v), parses))
  }

  // ----- the loops

  method NormalizeInPlace(value: Json) returns (result: Json)
    ensures result == Normalize(value)
    decreases value
  {
    match value {
      case Arr(items) =>
        var values: seq<Json> := [];
        for i := 0 to |items|
          invariant |values| == i && forall j | 0 <= j < i :: values[j] == Normalize(items[j])
        {
          var item := NormalizeInPlace(items[i]);
          values := values + [item];
        }
        result := Arr(values);
      case Obj(fields) =>
        var values := fields;
        var left := fields.Keys;
        while left != {}
          invariant left <= fields.Keys && values.Keys == fields.Keys
          invariant forall key | key in fields ::
            values[key] == if key in left then fields[key] else NormalizeField(key, fields[key])
          decreases left
        {
          var key :| key in left;
          left := left - {key};
          var field := fields[key];
          if key == "mediaType" && field.Str? && '?' in field.s {
            values := values[key := Str(Before(field.s, '?'))];
          } else {
            field := NormalizeInPlace(field);
            values := values[key := field];
          }
        }
        result := Obj(values);
      case _ => result := value;
    }
  }

  method RewriteDatetimes(value: Json, parses: string -> bool) returns (result: Json)
    ensures result == Datetimes(value, parses)
    decreases value
  {
    match value {
      case Arr(items) =>
        var values: seq<Json> := [];
        for i := 0 to |items|
          invariant |values| == i && forall j | 0 <= j < i :: values[j] == Datetimes(items[j], parses)
        {
          var item := RewriteDatetimes(items[i], parses);
          values := values + [item];
        }
        result := Arr(values);
      case Obj(fields) =>
        var values := fields;
        var left := fields.Keys;
        while left != {}
          invariant left <= fields.Keys && values.Keys == fields.Keys
          invariant forall key | key in fields ::
            values[key] == if key in left then fields[key] else DatetimeField(key, fields[key], parses)
          decreases left
        {
          var key :| key in left;
          left := left - {key};
          var field := fields[key];
          var replacement: Option<string> := None;
          if key in DATETIME_FIELDS && field.Str? {
            replacement := NaiveToUtc(field.s, parses);
          }
          if replacement.Some? {
            values := values[key := Str(replacement.value)];
          } else {
            field := RewriteDatetimes(field, parses);
            values := values[key := field];
          }
        }
        result := Obj(values);
      case _ => result := value;
    }
  }

  // ----- each rewrite once is enough

  /** What was cut at its query has no query left. */
  lemma {:induction false} NormalizeIsIdempotent(v: Json)
    ensures Normalize(Normalize(v)) == Normalize(v)
    decreases v
  {
    match v {
      case Arr(items) =>
        forall i | 0 <= i < |items| ensures Normalize(Normalize(items[i])) == Normalize(items[i]) {
          NormalizeIsIdempotent(items[i]);
        }
      case Obj(fields) =>
        forall key | key in fields
          ensures NormalizeField(key, NormalizeField(key, fields[key])) == NormalizeField(key, fields[key])
        {
          NormalizeIsIdempotent(fields[key]);
        }
      case _ =>
    }
  }

  lemma UtcIsNotNaive(s: string, parses: string -> bool)
    requires NaiveToUtc(s, parses).Some?
    ensures NaiveToUtc(s + "Z", parses).None?
  {
    BeforeStays(s, "Z", 'T');
    var n := |Before(s, 'T')|;
    assert (s + "Z")[n + 1..] == s[n + 1..] + "Z";
  }

  lemma {:induction false} BeforeStays(s: string, more: string, c: char)
    requires c in s
    ensures Before(s + more, c) == Before(s, c)
  {
    if s[0] != c {
      assert (s + more)[1..] == s[1..] + more;
      BeforeStays(s[1..], more, c);
    }
  }

  /** A date-time that was given its zone is not given another. */
  lemma {:induction false} DatetimesIsIdempotent(v: Json, parses: string -> bool)
    ensures Datetimes(Datetimes(v, parses), parses) == Datetimes(v, parses)
    decreases v
  {
    hide NaiveToUtc;
    match v {
      case Arr(items) =>
        forall i | 0 <= i < |items|
          ensures Datetimes(Datetimes(items[i], parses), parses) == Datetimes(items[i], parses)
        {
          DatetimesIsIdempotent(items[i], parses);
        }
      case Obj(fields) =>
        forall key | key in fields
          ensures DatetimeField(key, DatetimeField(key, fields[key], parses), parses) == DatetimeField(key, fields[key], parses)
        {
          DatetimesIsIdempotent(fields[key], parses);
          if key in DATETIME_FIELDS && fields[key].Str? && NaiveToUtc(fields[key].s, parses).Some? {
            UtcIsNotNaive(fields[key].s, parses);
            ZoneIsAdded(fields[key].s, parses);
          }
        }
      case _ =>
    }
  }

  lemma ZoneIsAdded(s: string, parses: string -> bool)
    requires NaiveToUtc(s, parses).Some?
    ensures NaiveToUtc(s, parses).value == s + "Z"
  {
  }

  lemma VideoIsIdempotent(v: Json)
    ensures Video(Video(v)) == Video(v)
  {
    hide HtmlHref, WebHref;
  }

  lemma GroupIsIdempotent(v: Json)
    ensures Group(Group(v)) == Group(v)
  {
  }

  // ----- what each rewrite achieves

  /** No media type anywhere carries a query. */
  predicate Queryless(v: Json) {
    match v
    case Arr(items) => forall i | 0 <= i < |items| :: Queryless(items[i])
    case Obj(fields) =>
      forall key | key in fields ::
        !(key == "mediaType" && fields[key].Str? && '?' in fields[key].s) && Queryless(fields[key])
    case _ => true
  }

  /** Afterwards no media type carries a query, and what had none is unchanged. */
  lemma {:induction false} NormalizeExactly(v: Json)
    ensures Queryless(Normalize(v))
    ensures Normalize(v) == v <==> Queryless(v)
    decreases v
  {
    match v {
      case Arr(items) =>
        forall i | 0 <= i < |items|
          ensures Queryless(Normalize(items[i])) && (Normalize(items[i]) == items[i] <==> Queryless(items[i]))
        {
          NormalizeExactly(items[i]);
        }
        SameItems(items, Normalize(v).items);
      case Obj(fields) =>
        forall key | key in fields
          ensures Queryless(Normalize(fields[key])) && (Normalize(fields[key]) == fields[key] <==> Queryless(fields[key]))
        {
          NormalizeExactly(fields[key]);
        }
        SameFields(fields, Normalize(v).fields);
      case _ =>
    }
  }

  lemma SameItems(a: seq<Json>, b: seq<Json>)
    requires |a| == |b|
    ensures Arr(b) == Arr(a) <==> forall i | 0 <= i < |a| :: b[i] == a[i]
  {
    if forall i | 0 <= i < |a| :: b[i] == a[i] {
      assert a == b;
    }
  }

  lemma SameFields(a: map<string, Json>, b: map<string, Json>)
    requires a.Keys == b.Keys
    ensures Obj(b) == Obj(a) <==> forall key | key in a :: b[key] == a[key]
  {
    if forall key | key in a :: b[key] == a[key] {
      assert a == b;
    }
  }

  /** No date-time field anywhere lacks a zone that could be added. */
  predicate Zoned(v: Json, parses: string -> bool) {
    match v
    case Arr(items) => forall i | 0 <= i < |items| :: Zoned(items[i], parses)
    case Obj(fields) =>
      forall key | key in fields ::
        && !(key in DATETIME_FIELDS && fields[key].Str? && NaiveToUtc(fields[key].s, parses).Some?)
        && Zoned(fields[key], parses)
    case _ => true
  }

  /** Afterwards every such field has its zone, and what had them all is unchanged. */
  lemma {:induction false} DatetimesExactly(v: Json, parses: string -> bool)
    ensures Zoned(Datetimes(v, parses), parses)
    ensures Datetimes(v, parses) == v <==> Zoned(v, parses)
    decreases v
  {
    hide NaiveToUtc;
    match v {
      case Arr(items) =>
        forall i | 0 <= i < |items|
          ensures Zoned(Datetimes(items[i], parses), parses)
          ensures Datetimes(items[i], parses) == items[i] <==> Zoned(items[i], parses)
        {
          DatetimesExactly(items[i], parses);
        }
        SameItems(items, Datetimes(v, parses).items);
      case Obj(fields) =>
        forall key | key in fields
          ensures Zoned(Datetimes(fields[key], parses), parses)
          ensures Datetimes(fields[key], parses) == fields[key] <==> Zoned(fields[key], parses)
          ensures fields[key].Str? && NaiveToUtc(fields[key].s, parses).Some? ==>
            && NaiveToUtc(fields[key].s, parses).value == fields[key].s + "Z"
            && NaiveToUtc(fields[key].s + "Z", parses).None?
        {
          DatetimesExactly(fields[key], parses);
          if fields[key].Str? && NaiveToUtc(fields[key].s, parses).Some? {
            UtcIsNotNaive(fields[key].s, parses);
            ZoneIsAdded(fields[key].s, parses);
          }
        }
        SameFields(fields, Datetimes(v, parses).fields);
      case _ =>
    }
  }

  predicate IsHtml(item: Json) {
    StrField(item, "mediaType") == Some("text/html") && StrField(item, "href").Some?
  }

  predicate IsWeb(item: Json) {
    match StrField(item, "href")
    case Some(href) => "https://" <= href || "http://" <= href
    case None => false
  }

  /** The item comes first among those with a property. */
  ghost predicate FirstWith(items: seq<Json>, property: Json -> bool, i: int) {
    0 <= i < |items| && property(items[i]) && forall j | 0 <= j < i :: !property(items[j])
  }

  lemma {:induction false} HtmlHrefIsFirst(items: seq<Json>)
    ensures match HtmlHref(items)
            case None => forall i | 0 <= i < |items| :: !IsHtml(items[i])
            case Some(href) => exists i :: FirstWith(items, IsHtml, i) && StrField(items[i], "href") == Some(href)
  {
    hide StrField;
    if items != [] {
      if IsHtml(items[0]) {
        assert FirstWith(items, IsHtml, 0);
      } else {
        HtmlHrefIsFirst(items[1..]);
        if HtmlHref(items).Some? {
          var i :| FirstWith(items[1..], IsHtml, i) && StrField(items[1..][i], "href") == HtmlHref(items);
          assert items[i + 1] == items[1..][i];
          assert forall j | 1 <= j < i + 1 :: items[j] == items[1..][j - 1];
          assert FirstWith(items, IsHtml, i + 1);
        } else {
          assert forall j | 1 <= j < |items| :: items[j] == items[1..][j - 1];
        }
      }
    }
  }

  lemma {:induction false} WebHrefIsFirst(items: seq<Json>)
    ensures match WebHref(items)
            case None => forall i | 0 <= i < |items| :: !IsWeb(items[i])
            case Some(href) => exists i :: FirstWith(items, IsWeb, i) && StrField(items[i], "href") == Some(href)
  {
    hide StrField;
    if items != [] {
      if IsWeb(items[0]) {
        assert FirstWith(items, IsWeb, 0);
      } else {
        WebHrefIsFirst(items[1..]);
        if WebHref(items).Some? {
          var i :| FirstWith(items[1..], IsWeb, i) && StrField(items[1..][i], "href") == WebHref(items);
          assert items[i + 1] == items[1..][i];
          assert forall j | 1 <= j < i + 1 :: items[j] == items[1..][j - 1];
          assert FirstWith(items, IsWeb, i + 1);
        } else {
          assert forall j | 1 <= j < |items| :: items[j] == items[1..][j - 1];
        }
      }
    }
  }

  /** A video with a list of URLs gets the address of its first HTML page, or else of its first web link, and
      keeps everything else; any other value stays as it is. */
  lemma VideoExactly(v: Json)
    ensures if StrField(v, "type") == Some("Video") && Get(v, "url").Some? && v.fields["url"].Arr?
            then
              var items := v.fields["url"].items;
              if exists i | 0 <= i < |items| :: IsHtml(items[i]) then
                exists i :: FirstWith(items, IsHtml, i) && Video(v) == Obj(v.fields["url" := items[i].fields["href"]])
              else if exists i | 0 <= i < |items| :: IsWeb(items[i]) then
                exists i :: FirstWith(items, IsWeb, i) && Video(v) == Obj(v.fields["url" := items[i].fields["href"]])
              else Video(v) == v
            else Video(v) == v
  {
    hide HtmlHref, WebHref;
    if StrField(v, "type") == Some("Video") && Get(v, "url").Some? && v.fields["url"].Arr? {
      var items := v.fields["url"].items;
      HtmlHrefIsFirst(items);
      WebHrefIsFirst(items);
      if HtmlHref(items).Some? {
        var i :| FirstWith(items, IsHtml, i) && StrField(items[i], "href") == HtmlHref(items);
        assert IsHtml(items[i]) && items[i].fields["href"] == Str(HtmlHref(items).value);
      } else if WebHref(items).Some? {
        var i :| FirstWith(items, IsWeb, i) && StrField(items[i], "href") == WebHref(items);
        assert IsWeb(items[i]) && items[i].fields["href"] == Str(WebHref(items).value);
      }
    }
  }

  /** An actor with inbox and outbox is a plain group afterwards exactly when it was one or group-like before;
      everything else stays as it is. */
  lemma GroupExactly(v: Json)
    ensures Group(v) == v || (v.Obj? && Group(v) == Obj(v.fields["type" := Str("Group")]))
    ensures Get(v, "inbox").Some? && Get(v, "outbox").Some? && Get(v, "type").Some? ==>
      && !GroupLike(Group(v).fields["type"])
      && (StrField(Group(v), "type") == Some("Group") <==>
            StrField(v, "type") == Some("Group") || GroupLike(v.fields["type"]))
  {
    assert !GroupLike(Str("Group")) by {
      assert |"Group"| != |"PublicGroup"|;
    }
  }

  // ----- the order does not matter

  /** The recursive rewrites change no kind of value and no text of their own. */
  lemma ShapesStay(v: Json, parses: string -> bool)
    ensures v.Str? <==> Datetimes(v, parses).Str?
    ensures v.Str? <==> Normalize(v).Str?
    ensures v.Str? ==> Datetimes(v, parses) == v && Normalize(v) == v
    ensures v.Arr? <==> Datetimes(v, parses).Arr?
    ensures v.Arr? <==> Normalize(v).Arr?
  {
  }

  lemma DatetimesKeepText(v: Json, field: string, parses: string -> bool)
    requires field !in DATETIME_FIELDS
    ensures StrField(Datetimes(v, parses), field) == StrField(v, field)
    ensures Get(Datetimes(v, parses), field).Some? <==> Get(v, field).Some?
    ensures Get(v, field).Some? ==> Get(Datetimes(v, parses), field) == Some(Datetimes(v.fields[field], parses))
  {
    if Get(v, field).Some? {
      ShapesStay(v.fields[field], parses);
    }
  }

  lemma NormalizeKeepsText(v: Json, field: string)
    requires field != "mediaType"
    ensures StrField(Normalize(v), field) == StrField(v, field)
    ensures Get(Normalize(v), field).Some? <==> Get(v, field).Some?
    ensures Get(v, field).Some? ==> Get(Normalize(v), field) == Some(Normalize(v.fields[field]))
  {
    if Get(v, field).Some? {
      ShapesStay(v.fields[field], s => false);
    }
  }

  lemma {:induction false} DatetimesKeepHrefs(items: seq<Json>, parses: string -> bool)
    ensures var after := seq(|items|, i requires 0 <= i < |items| => Datetimes(items[i], parses));
      HtmlHref(after) == HtmlHref(items) && WebHref(after) == WebHref(items)
  {
    hide StrField, Datetimes;
    if items != [] {
      var after := seq(|items|, i requires 0 <= i < |items| => Datetimes(items[i], parses));
      assert after[1..] == seq(|items[1..]|, i requires 0 <= i < |items[1..]| => Datetimes(items[1..][i], parses));
      DatetimesKeepHrefs(items[1..], parses);
      DatetimesKeepText(items[0], "mediaType", parses);
      DatetimesKeepText(items[0], "href", parses);
    }
  }

  lemma DatetimesKeepReplacement(url: Json, parses: string -> bool)
    ensures Replacement(Datetimes(url, parses)) == Replacement(url)
  {
    hide HtmlHref, WebHref;
    if url.Arr? {
      DatetimesKeepHrefs(url.items, parses);
    }
  }

  lemma VideoAndDatetimesCommute(v: Json, parses: string -> bool)
    ensures Video(Datetimes(v, parses)) == Datetimes(Video(v), parses)
  {
    hide Replacement, StrField;
    DatetimesKeepText(v, "type", parses);
    DatetimesKeepText(v, "url", parses);
    if StrField(v, "type") == Some("Video") && Get(v, "url").Some? {
      DatetimesKeepReplacement(v.fields["url"], parses);
      match Replacement(v.fields["url"]) {
        case None =>
        case Some(href) =>
          ShapesStay(Str(href), parses);
          DatetimesOfSet(v, "url", Str(href), parses);
      }
    }
  }

  lemma DatetimesOfSet(v: Json, field: string, value: Json, parses: string -> bool)
    requires v.Obj? && field !in DATETIME_FIELDS
    ensures Datetimes(Obj(v.fields[field := value]), parses)
         == Obj(Datetimes(v, parses).fields[field := Datetimes(value, parses)])
  {
    var fields := v.fields[field := value];
    assert (map key | key in fields :: DatetimeField(key, fields[key], parses))
        == (map key | key in v.fields :: DatetimeField(key, v.fields[key], parses))[field := Datetimes(value, parses)];
  }

  lemma NormalizeOfSet(v: Json, field: string, value: Json)
    requires v.Obj? && field != "mediaType"
    ensures Normalize(Obj(v.fields[field := value])) == Obj(Normalize(v).fields[field := Normalize(value)])
  {
    var fields := v.fields[field := value];
    assert (map key | key in fields :: NormalizeField(key, fields[key]))
        == (map key | key in v.fields :: NormalizeField(key, v.fields[key]))[field := Normalize(value)];
  }

  lemma VideoAndGroupCommute(v: Json)
    ensures Video(Group(v)) == Group(Video(v))
  {
    hide Replacement;
  }

  lemma DatetimesKeepGroups(kind: Json, parses: string -> bool)
    ensures GroupLike(Datetimes(kind, parses)) <==> GroupLike(kind)
  {
    if kind.Arr? {
      var after := Datetimes(kind, parses).items;
      forall i | 0 <= i < |kind.items| ensures forall s :: after[i] == Str(s) <==> kind.items[i] == Str(s) {
        ShapesStay(kind.items[i], parses);
      }
    } else {
      ShapesStay(kind, parses);
    }
  }

  lemma DatetimesAndGroupCommute(v: Json, parses: string -> bool)
    ensures Group(Datetimes(v, parses)) == Datetimes(Group(v), parses)
  {
    hide GroupLike, StrField;
    DatetimesKeepText(v, "inbox", parses);
    DatetimesKeepText(v, "outbox", parses);
    DatetimesKeepText(v, "type", parses);
    if Get(v, "inbox").Some? && Get(v, "outbox").Some? && Get(v, "type").Some? {
      DatetimesKeepGroups(v.fields["type"], parses);
      if GroupLike(v.fields["type"]) {
        ShapesStay(Str("Group"), parses);
        DatetimesOfSet(v, "type", Str("Group"), parses);
      }
    }
  }

  /** The three compatibility rewrites give the same in every order, and all three together are idempotent. */
  lemma CompatInAnyOrder(v: Json, parses: string -> bool)
    ensures Compat(v, parses) == Group(Video(Datetimes(v, parses)))
    ensures Compat(v, parses) == Datetimes(Group(Video(v)), parses)
    ensures Compat(v, parses) == Datetimes(Video(Group(v)), parses)
    ensures Compat(v, parses) == Video(Group(Datetimes(v, parses)))
    ensures Compat(v, parses) == Video(Datetimes(Group(v), parses))
    ensures Compat(Compat(v, parses), parses) == Compat(v, parses)
  {
    hide Video, Group, Datetimes;
    var d := Datetimes(v, parses);
    VideoAndDatetimesCommute(v, parses);
    VideoAndGroupCommute(v);
    VideoAndGroupCommute(d);
    DatetimesAndGroupCommute(v, parses);
    DatetimesAndGroupCommute(Video(v), parses);
    VideoAndDatetimesCommute(Group(v), parses);
    var c := Compat(v, parses);
    VideoIsIdempotent(Group(d));
    assert Video(c) == c;
    DatetimesIsIdempotent(Group(Video(v)), parses);
    assert Datetimes(c, parses) == c;
    GroupIsIdempotent(Datetimes(Video(v), parses));
    assert Group(c) == c;
  }

  // ----- the normaliser and the rewrites

  lemma {:induction false} NormalizeAndDatetimesCommute(v: Json, parses: string -> bool)
    ensures Normalize(Datetimes(v, parses)) == Datetimes(Normalize(v), parses)
    decreases v
  {
    hide NaiveToUtc;
    match v {
      case Arr(items) =>
        forall i | 0 <= i < |items|
          ensures Normalize(Datetimes(items[i], parses)) == Datetimes(Normalize(items[i]), parses)
        {
          NormalizeAndDatetimesCommute(items[i], parses);
        }
      case Obj(fields) =>
        forall key | key in fields
          ensures NormalizeField(key, DatetimeField(key, fields[key], parses))
               == DatetimeField(key, NormalizeField(key, fields[key]), parses)
        {
          NormalizeAndDatetimesCommute(fields[key], parses);
        }
      case _ =>
    }
  }

  /** A page whose media type may still carry a query. */
  predicate IsPage(item: Json) {
    && StrField(item, "mediaType").Some? && Before(StrField(item, "mediaType").value, '?') == "text/html"
    && StrField(item, "href").Some?
  }

  /** The item whose address the video rewrite takes from a list: the first HTML page, or without one the
      first web link. */
  ghost predicate Chosen(items: seq<Json>, i: int) {
    || FirstWith(items, IsHtml, i)
    || ((forall j | 0 <= j < |items| :: !IsHtml(items[j])) && FirstWith(items, IsWeb, i))
  }

  /** The first page of the list, if there is one, has the address that the rewrite takes from the list. */
  ghost predicate FirstPageIsChosen(items: seq<Json>) {
    forall i | FirstWith(items, IsPage, i) ::
      exists j :: Chosen(items, j) && StrField(items[j], "href") == StrField(items[i], "href")
  }

  lemma NormalizedItem(item: Json)
    ensures IsHtml(Normalize(item)) <==> IsPage(item)
    ensures IsWeb(Normalize(item)) <==> IsWeb(item)
    ensures StrField(Normalize(item), "href") == StrField(item, "href")
  {
    NormalizeKeepsText(item, "href");
    if Get(item, "mediaType").Some? {
      ShapesStay(item.fields["mediaType"], s => false);
      assert Normalize(item).fields["mediaType"] == NormalizeField("mediaType", item.fields["mediaType"]);
    }
  }

  lemma HtmlIsPage(item: Json)
    requires IsHtml(item)
    ensures IsPage(item)
  {
    var s := "text/html";
    assert '?' !in s;
    assert Before(s, '?') == s;
  }

  lemma FirstIsUnique(items: seq<Json>, property: Json -> bool, i: int, j: int)
    requires FirstWith(items, property, i) && FirstWith(items, property, j)
    ensures i == j
  {
  }

  /** The rewrite takes the address of the chosen item, and nothing when none is. */
  lemma ReplacementIsChosen(items: seq<Json>)
    ensures match Replacement(Arr(items))
            case None => forall i :: !Chosen(items, i)
            case Some(href) => exists i :: Chosen(items, i) && StrField(items[i], "href") == Some(href)
    ensures forall i | Chosen(items, i) :: StrField(items[i], "href") == Replacement(Arr(items))
  {
    hide HtmlHref, WebHref, StrField;
    HtmlHrefIsFirst(items);
    WebHrefIsFirst(items);
    if HtmlHref(items).Some? {
      var k :| FirstWith(items, IsHtml, k) && StrField(items[k], "href") == HtmlHref(items);
      assert Chosen(items, k);
      forall i | Chosen(items, i) ensures i == k {
        FirstIsUnique(items, IsHtml, i, k);
      }
    } else if WebHref(items).Some? {
      var k :| FirstWith(items, IsWeb, k) && StrField(items[k], "href") == WebHref(items);
      assert Chosen(items, k);
      forall i | Chosen(items, i) ensures i == k {
        FirstIsUnique(items, IsWeb, i, k);
      }
    }
  }

  function NormalizedItems(items: seq<Json>): (after: seq<Json>)
    ensures |after| == |items| && Normalize(Arr(items)) == Arr(after)
  {
    seq(|items|, i requires 0 <= i < |items| => Normalize(items[i]))
  }

  lemma NormalizedFirst(items: seq<Json>, i: int)
    ensures FirstWith(NormalizedItems(items), IsHtml, i) <==> FirstWith(items, IsPage, i)
    ensures FirstWith(NormalizedItems(items), IsWeb, i) <==> FirstWith(items, IsWeb, i)
    ensures 0 <= i < |items| ==> StrField(NormalizedItems(items)[i], "href") == StrField(items[i], "href")
  {
    forall j | 0 <= j < |items|
      ensures IsHtml(NormalizedItems(items)[j]) <==> IsPage(items[j])
      ensures IsWeb(NormalizedItems(items)[j]) <==> IsWeb(items[j])
      ensures StrField(NormalizedItems(items)[j], "href") == StrField(items[j], "href")
    {
      NormalizedItem(items[j]);
    }
  }

  lemma {:induction false} FirstExists(items: seq<Json>, property: Json -> bool, i: nat)
    requires i < |items| && property(items[i])
    ensures exists k :: FirstWith(items, property, k)
    decreases i
  {
    if j: nat :| j < i && property(items[j]) {
      FirstExists(items, property, j);
    } else {
      assert FirstWith(items, property, i);
    }
  }

  /** After normalising, the chosen item is the first page, or without pages the one chosen before. */
  lemma ChosenAfterNormalizing(items: seq<Json>, i: int)
    ensures Chosen(NormalizedItems(items), i)
       <==> || FirstWith(items, IsPage, i)
            || ((forall k :: !FirstWith(items, IsPage, k)) && Chosen(items, i))
  {
    hide StrField, NormalizedItems, IsWeb;
    var after := NormalizedItems(items);
    NormalizedFirst(items, i);
    forall j | 0 <= j < |items| ensures IsHtml(after[j]) <==> IsPage(items[j]) {
      NormalizedItemAt(items, j);
    }
    if j :| 0 <= j < |items| && IsPage(items[j]) {
      FirstExists(items, IsPage, j);
      assert IsHtml(after[j]);
    } else {
      forall j | 0 <= j < |items| ensures !IsHtml(items[j]) {
        if IsHtml(items[j]) {
          HtmlIsPage(items[j]);
        }
      }
    }
  }

  lemma NormalizedItemAt(items: seq<Json>, j: nat)
    requires j < |items|
    ensures IsHtml(NormalizedItems(items)[j]) <==> IsPage(items[j])
  {
    NormalizedItem(items[j]);
  }

  /** Normalising does not change the address that is taken exactly when the first page already has it. */
  lemma SameReplacement(items: seq<Json>)
    ensures Replacement(Normalize(Arr(items))) == Replacement(Arr(items)) <==> FirstPageIsChosen(items)
  {
    hide Replacement, Chosen, FirstWith, StrField, Normalize;
    var after := NormalizedItems(items);
    ReplacementIsChosen(items);
    ReplacementIsChosen(after);
    forall i ensures Chosen(after, i)
                <==> FirstWith(items, IsPage, i) || ((forall k :: !FirstWith(items, IsPage, k)) && Chosen(items, i)) {
      ChosenAfterNormalizing(items, i);
    }
    forall i | Chosen(items, i) || FirstWith(items, IsPage, i) ensures 0 <= i < |items| {
      InRange(items, i);
    }
    forall i | 0 <= i < |items| ensures StrField(after[i], "href") == StrField(items[i], "href") {
      NormalizedFirst(items, i);
    }
    if i :| FirstWith(items, IsPage, i) {
      assert Chosen(after, i);
      PageHasHref(items, i);
      forall k | FirstWith(items, IsPage, k) ensures k == i {
        FirstIsUnique(items, IsPage, i, k);
      }
    }
  }

  lemma InRange(items: seq<Json>, i: int)
    requires Chosen(items, i) || FirstWith(items, IsPage, i)
    ensures 0 <= i < |items|
  {
  }

  lemma PageHasHref(items: seq<Json>, i: int)
    requires FirstWith(items, IsPage, i)
    ensures StrField(items[i], "href").Some?
  {
  }

  /** The normaliser and the video rewrite commute exactly when the value is no video with a list of URLs, or
      the first page of the list, queries in media types ignored, has the address that the list yields with
      them, or there is no such page. */
  lemma NormalizeAndVideoCommuteExactly(v: Json)
    ensures Video(Normalize(v)) == Normalize(Video(v))
       <==> || StrField(v, "type") != Some("Video") || Get(v, "url").None? || !v.fields["url"].Arr?
            || FirstPageIsChosen(v.fields["url"].items)
  {
    hide Replacement, StrField, FirstPageIsChosen;
    NormalizeKeepsText(v, "type");
    NormalizeKeepsText(v, "url");
    if StrField(v, "type") == Some("Video") && Get(v, "url").Some? {
      var url := v.fields["url"];
      ShapesStay(url, s => false);
      ReplacesArrays(url);
      ReplacesArrays(Normalize(url));
      if url.Arr? {
        SameReplacement(url.items);
      }
      if Replacement(url).Some? {
        var href := Str(Replacement(url).value);
        ShapesStay(href, s => false);
        NormalizeOfSet(v, "url", href);
        assert Get(Normalize(Video(v)), "url") == Some(href);
      }
    }
  }

  lemma ReplacesArrays(url: Json)
    ensures Replacement(url).Some? ==> url.Arr?
  {
  }

  lemma {:induction false} BeforeAt(a: string, b: string, c: char)
    requires c !in a
    ensures Before(a + [c] + b, c) == a
  {
    if a != "" {
      assert (a + [c] + b)[1..] == a[1..] + [c] + b;
      BeforeAt(a[1..], b, c);
    }
  }

  function Link(mediaType: string, href: string): Json {
    Obj(map["mediaType" := Str(mediaType), "href" := Str(href)])
  }

  lemma LinkFields(mediaType: string, href: string)
    ensures StrField(Link(mediaType, href), "mediaType") == Some(mediaType)
    ensures StrField(Link(mediaType, href), "href") == Some(href)
  {
  }

  lemma NormalizedLink(mediaType: string, query: string, href: string)
    requires '?' !in mediaType
    ensures Normalize(Link(mediaType, href)) == Link(mediaType, href)
    ensures Normalize(Link(mediaType + ['?'] + query, href)) == Link(mediaType, href)
  {
    BeforeAt(mediaType, query, '?');
    var long := mediaType + ['?'] + query;
    assert long[|mediaType|] == '?';
    ShapesStay(Str(href), s => false);
    ShapesStay(Str(mediaType), s => false);
    assert NormalizeField("href", Str(href)) == Str(href);
    assert NormalizeField("mediaType", Str(mediaType)) == Str(mediaType);
    assert NormalizeField("mediaType", Str(long)) == Str(mediaType);
    NormalizeTwo(Str(mediaType), Str(href));
    NormalizeTwo(Str(long), Str(href));
  }

  lemma NormalizeTwo(mediaType: Json, href: Json)
    ensures Normalize(Obj(map["mediaType" := mediaType, "href" := href]))
         == Obj(map["mediaType" := NormalizeField("mediaType", mediaType), "href" := NormalizeField("href", href)])
  {
    hide NormalizeField;
    var fields := map["mediaType" := mediaType, "href" := href];
    assert (map key | key in fields :: NormalizeField(key, fields[key]))
        == map["mediaType" := NormalizeField("mediaType", mediaType), "href" := NormalizeField("href", href)];
  }

  /** What is chosen from a file and a page. */
  lemma ChosenUrl(fileType: string, file: string, pageType: string, page: string)
    requires fileType != "text/html" && "https://" <= file
    ensures Replacement(Arr([Link(fileType, file), Link(pageType, page)]))
         == Some(if pageType == "text/html" then page else file)
  {
    hide StrField, Link;
    var a, b := Link(fileType, file), Link(pageType, page);
    LinkFields(fileType, file);
    LinkFields(pageType, page);
    assert [a, b][1..] == [b] && [b][1..] == [];
    assert HtmlHref([b]) == if pageType == "text/html" then Some(page) else None;
    assert HtmlHref([a, b]) == HtmlHref([b]);
    assert WebHref([a, b]) == Some(file);
  }

  /** They do not always commute: a page whose media type carries a query is chosen only after normalising. */
  lemma NormalizeAndVideoDiffer(fileType: string, file: string, query: string, page: string) returns (v: Json)
    requires fileType != "text/html" && '?' !in fileType && "https://" <= file && file != page
    ensures Video(Normalize(v)) != Normalize(Video(v))
  {
    hide Replacement, Video, Link, FirstPageIsChosen;
    var html := "text/html";
    var items := [Link(fileType, file), Link(html + ['?'] + query, page)];
    v := Obj(map["type" := Str("Video"), "url" := Arr(items)]);
    assert '?' !in html;
    NormalizedLink(fileType, "", file);
    NormalizedLink(html, query, page);
    assert Normalize(Arr(items)) == Arr([Link(fileType, file), Link(html, page)]);
    ChosenUrl(fileType, file, html, page);
    assert |html + ['?'] + query| > |html|;
    ChosenUrl(fileType, file, html + ['?'] + query, page);
    SameReplacement(items);
    NormalizeAndVideoCommuteExactly(v);
  }
}
