/** What the JSON rewrites do, said of the values before and after. */
module JsonEffects {
  import opened Options
  import opened JsonCompat

  // ----- media types

  /** A text up to its first question mark. */
  predicate IsUpToQuery(s: string, t: string) {
    |t| < |s| && t == s[..|t|] && s[|t|] == '?' && '?' !in t
  }

  /** The same value, except that every media type with a query lost it. */
  ghost predicate Cut(v: Json, w: Json)
    decreases v
  {
    match v
    case Arr(items) =>
      w.Arr? && |w.items| == |items| && forall i | 0 <= i < |items| :: Cut(items[i], w.items[i])
    case Obj(fields) =>
      && w.Obj? && w.fields.Keys == fields.Keys
      && forall key | key in fields ::
           if key == "mediaType" && fields[key].Str? && '?' in fields[key].s then
             w.fields[key].Str? && IsUpToQuery(fields[key].s, w.fields[key].s)
           else Cut(fields[key], w.fields[key])
    case _ => w == v
  }

  /** The normaliser cuts the queries of media types, at every depth, and changes nothing else. */
  lemma {:induction false} NormalizeCuts(v: Json)
    ensures Cut(v, Normalize(v))
    decreases v
  {
    match v {
      case Arr(items) =>
        forall i | 0 <= i < |items| ensures Cut(items[i], Normalize(v).items[i]) {
          NormalizeCuts(items[i]);
        }
      case Obj(fields) =>
        forall key | key in fields && !(key == "mediaType" && fields[key].Str? && '?' in fields[key].s)
          ensures Cut(fields[key], Normalize(v).fields[key])
        {
          NormalizeCuts(fields[key]);
        }
      case _ =>
    }
  }

  // ----- date-times

  /** A date-time that the library parses and that says nothing about a zone behind its first T. */
  ghost predicate IsNaive(s: string, parses: string -> bool) {
    && parses(s)
    && exists n | 0 <= n < |s| ::
         && s[n] == 'T' && 'T' !in s[..n]
         && '+' !in s[n + 1..] && '-' !in s[n + 1..] && s[|s| - 1] != 'Z'
  }

  lemma {:induction false} BeforeFirst(s: string, c: char, n: nat)
    requires n < |s| && s[n] == c && c !in s[..n]
    ensures |JsonCompat.Before(s, c)| == n
    decreases n
  {
    if n > 0 {
      assert s[0] in s[..n] && s[1..][..n - 1] == s[..n][1..];
      BeforeFirst(s[1..], c, n - 1);
    }
  }

  lemma NaiveExactly(s: string, parses: string -> bool)
    ensures NaiveToUtc(s, parses) == if IsNaive(s, parses) then Some(s + "Z") else None
  {
    if 'T' in s {
      var n := |JsonCompat.Before(s, 'T')|;
      assert s[n] == 'T' && s[..n] == JsonCompat.Before(s, 'T');
      assert s[n + 1..] != "" ==> s[n + 1..][|s[n + 1..]| - 1] == s[|s| - 1];
      forall m | 0 <= m < |s| && s[m] == 'T' && 'T' !in s[..m] ensures m == n {
        BeforeFirst(s, 'T', m);
      }
    }
  }

  /** The same value, except that every naive date-time in one of five fields got the zone of UTC. */
  ghost predicate InUtc(v: Json, w: Json, parses: string -> bool)
    decreases v
  {
    match v
    case Arr(items) =>
      w.Arr? && |w.items| == |items| && forall i | 0 <= i < |items| :: InUtc(items[i], w.items[i], parses)
    case Obj(fields) =>
      && w.Obj? && w.fields.Keys == fields.Keys
      && forall key | key in fields ::
           if key in {"published", "updated", "startTime", "endTime", "closed"}
              && fields[key].Str? && IsNaive(fields[key].s, parses) then
             w.fields[key] == Str(fields[key].s + "Z")
           else InUtc(fields[key], w.fields[key], parses)
    case _ => w == v
  }

  /** The rewrite gives the zone to those, at every depth, and changes nothing else. */
  lemma {:induction false} DatetimesInUtc(v: Json, parses: string -> bool)
    ensures InUtc(v, Datetimes(v, parses), parses)
    decreases v
  {
    hide IsNaive, NaiveToUtc;
    match v {
      case Arr(items) =>
        forall i | 0 <= i < |items| ensures InUtc(items[i], Datetimes(v, parses).items[i], parses) {
          DatetimesInUtc(items[i], parses);
        }
      case Obj(fields) =>
        forall key | key in fields
          ensures InUtc(fields[key], Datetimes(fields[key], parses), parses)
          ensures fields[key].Str? ==>
            NaiveToUtc(fields[key].s, parses) == if IsNaive(fields[key].s, parses) then Some(fields[key].s + "Z") else None
        {
          DatetimesInUtc(fields[key], parses);
          if fields[key].Str? {
            NaiveExactly(fields[key].s, parses);
          }
        }
      case _ =>
    }
  }

  // ----- groups

  /** An actor of a kind that extends groups, or of several kinds with a group among them. */
  ghost predicate IsGroupActor(v: Json) {
    && v.Obj? && "inbox" in v.fields && "outbox" in v.fields && "type" in v.fields
    && (|| v.fields["type"] == Str("PublicGroup")
        || (v.fields["type"].Arr?
            && (Str("Group") in v.fields["type"].items || Str("PublicGroup") in v.fields["type"].items)))
  }

  /** Such an actor becomes a plain group and keeps its other fields; every other value stays as it is. */
  lemma GroupBecomesPlain(v: Json)
    ensures Group(v) == if IsGroupActor(v) then Obj(v.fields["type" := Str("Group")]) else v
  {
  }
}
