/** Which errors are terminal, said of the error text itself. */
module TerminalWords {
  import opened Tasks
  import opened TerminalErrors

  /** A character is a small letter in either case, or the same character. */
  predicate SameLetter(c: char, small: char) {
    c == small || ('a' <= small <= 'z' && c as int + 32 == small as int)
  }

  /** A text starts with words in either case of ASCII letters, with or without a backslash before each quote. */
  predicate StartsWith(s: string, w: string)
    decreases |w|
  {
    || w == ""
    || (s != "" && SameLetter(s[0], w[0]) && StartsWith(s[1..], w[1..]))
    || (|s| >= 2 && w[0] == '"' && s[0] == '\\' && s[1] == '"' && StartsWith(s[2..], w[1..]))
  }

  /** A text says words somewhere. */
  ghost predicate Says(s: string, w: string) {
    exists i | 0 <= i <= |s| :: StartsWith(s[i..], w)
  }

  /** Words as the classifier has them: small letters, no backslash. */
  predicate Small(w: string) {
    w != "" && forall c | c in w :: c != '\\' && !('A' <= c <= 'Z')
  }

  lemma LowerTail(s: string)
    requires s != ""
    ensures ToAsciiLower(s)[0] == AsciiLower(s[0]) && ToAsciiLower(s)[1..] == ToAsciiLower(s[1..])
    ensures |s| >= 2 ==> ToAsciiLower(s)[1] == AsciiLower(s[1]) && ToAsciiLower(s)[2..] == ToAsciiLower(s[2..])
  {
  }

  lemma AtFront(u: string, w: string)
    requires u != "" && w != "" && u[0] == w[0]
    ensures At(u, 0, w) <==> At(u[1..], 0, w[1..])
  {
    if At(u, 0, w) {
      assert u[1..][0..|w| - 1] == u[0..|w|][1..];
    }
    if At(u[1..], 0, w[1..]) {
      assert u[0..|w|] == [u[0]] + u[1..][0..|w| - 1];
    }
  }

  lemma SmallTail(w: string)
    requires w != "" && (Small(w) || w == "")
    ensures w[0] != '\\' && !('A' <= w[0] <= 'Z')
    ensures Small(w[1..]) || w[1..] == ""
  {
    assert w[0] in w && forall c | c in w[1..] :: c in w;
  }

  /** At the front of the transformed text, and of the text. */
  lemma {:induction false} FrontExactly(s: string, w: string)
    requires Small(w) || w == ""
    ensures At(Unescape(ToAsciiLower(s)), 0, w) <==> StartsWith(s, w)
    decreases |w|
  {
    if w != "" && s != "" {
      SmallTail(w);
      LowerTail(s);
      var l := ToAsciiLower(s);
      var u := Unescape(l);
      hide Small, ToAsciiLower;
      if |s| >= 2 && s[0] == '\\' && s[1] == '"' {
        FrontExactly(s[2..], w[1..]);
        assert u == "\"" + Unescape(l[2..]) && u[1..] == Unescape(l[2..]);
      } else {
        FrontExactly(s[1..], w[1..]);
        assert u == [l[0]] + Unescape(l[1..]) && u[1..] == Unescape(l[1..]);
      }
      assert At(u, 0, w) ==> u[0] == u[0..|w|][0] == w[0];
      if u[0] == w[0] {
        AtFront(u, w);
      }
    }
  }

  lemma {:induction false} FoundIsSaid(s: string, w: string, i: nat)
    requires Small(w) && At(Unescape(ToAsciiLower(s)), i, w)
    ensures Says(s, w)
    decreases i
  {
    if i == 0 {
      FrontExactly(s, w);
      assert s[0..] == s;
    } else {
      LowerTail(s);
      var l := ToAsciiLower(s);
      var u := Unescape(l);
      hide StartsWith, ToAsciiLower, Small;
      if |s| >= 2 && s[0] == '\\' && s[1] == '"' {
        assert u[1..] == Unescape(l[2..]);
        Shifted(u, Unescape(l[2..]), i, w);
        FoundIsSaid(s[2..], w, i - 1);
        SaidLater(s, 2, w);
      } else {
        assert u[1..] == Unescape(l[1..]);
        Shifted(u, Unescape(l[1..]), i, w);
        FoundIsSaid(s[1..], w, i - 1);
        SaidLater(s, 1, w);
      }
    }
  }

  lemma SaidLater(s: string, n: nat, w: string)
    requires n <= |s| && Says(s[n..], w)
    ensures Says(s, w)
  {
    var i: nat :| i <= |s[n..]| && StartsWith(s[n..][i..], w);
    assert s[n..][i..] == s[n + i..];
  }

  lemma {:induction false} SaidIsFound(s: string, w: string, i: nat)
    requires Small(w) && i <= |s| && StartsWith(s[i..], w)
    ensures Contains(Unescape(ToAsciiLower(s)), w)
    decreases i
  {
    if i == 0 {
      assert s[0..] == s;
      FrontExactly(s, w);
    } else {
      LowerTail(s);
      SmallTail(w);
      var l := ToAsciiLower(s);
      var u := Unescape(l);
      hide ToAsciiLower;
      if |s| >= 2 && s[0] == '\\' && s[1] == '"' {
        assert u[1..] == Unescape(l[2..]) && u[0] == '"';
        if i == 1 {
          QuoteFirst(s, w);
          assert At(u, 0, w) by { AtFront(u, w); }
        } else {
          assert s[2..][i - 2..] == s[i..];
          SaidIsFound(s[2..], w, i - 2);
          Deeper(u, 1, w);
        }
      } else {
        assert u[1..] == Unescape(l[1..]);
        assert s[1..][i - 1..] == s[i..];
        SaidIsFound(s[1..], w, i - 1);
        Deeper(u, 1, w);
      }
    }
  }

  lemma QuoteFirst(s: string, w: string)
    requires |s| >= 2 && s[1] == '"' && Small(w) && StartsWith(s[1..], w)
    ensures w[0] == '"' && At(Unescape(ToAsciiLower(s[2..])), 0, w[1..])
  {
    SmallTail(w);
    assert s[1..][1..] == s[2..];
    FrontExactly(s[2..], w[1..]);
  }

  /** What the classifier looks for in the transformed text is what the text says. */
  lemma FoundExactly(s: string, w: string)
    requires Small(w)
    ensures Contains(Unescape(ToAsciiLower(s)), w) <==> Says(s, w)
  {
    if Contains(Unescape(ToAsciiLower(s)), w) {
      var i: nat :| At(Unescape(ToAsciiLower(s)), i, w);
      FoundIsSaid(s, w, i);
    }
    if Says(s, w) {
      var i: nat :| i <= |s| && StartsWith(s[i..], w);
      SaidIsFound(s, w, i);
    }
  }

  // ----- the three groups of kinds

  /** The answers of a remote inbox that no repetition of a delivery can change. */
  ghost predicate RefusesDelivery(error: string) {
    || Says(error, "just a moment")
    || Says(error, "cloudflare challenge remained")
    || Says(error, "<!doctype html")
    || Says(error, "<html")
    || Says(error, "domain_blocked")
    || (Says(error, "domain ") && Says(error, " is blocked"))
  }

  lemma StableIsSmall(w: string)
    requires Stable(w)
    ensures Small(w)
  {
    assert forall c | c in w :: StableChar(c);
  }

  lemma ConcatSmall(a: string, b: string)
    requires Small(a) && Small(b)
    ensures Small(a + b)
  {
    assert forall c | c in a + b :: c in a || c in b;
  }

  lemma DeliveryWordsAreSmall(i: nat)
    requires i < |DELIVERY_NEEDLES|
    ensures Small(DELIVERY_NEEDLES[i])
  {
    hide Small;
    if i == 0 { assert Stable("just a moment"); }
    if i == 1 { assert Stable("cloudflare challenge remained"); }
    if i == 2 { assert Stable("<!doctype html"); }
    if i == 3 { assert Stable("<html"); }
    if i == 4 { assert Stable("domain_blocked"); }
    hide Stable;
    StableIsSmall(DELIVERY_NEEDLES[i]);
  }

  /** A delivery is refused for good exactly by these answers. */
  lemma DeliveryExactly(error: string)
    ensures IsTerminal(DeliverToInbox, error) <==> RefusesDelivery(error)
  {
    hide Small, Says, Contains, Unescape, ToAsciiLower;
    var text := Unescape(ToAsciiLower(error));
    forall i: nat | i < |DELIVERY_NEEDLES| ensures Contains(text, DELIVERY_NEEDLES[i]) <==> Says(error, DELIVERY_NEEDLES[i]) {
      DeliveryWordsAreSmall(i);
      FoundExactly(error, DELIVERY_NEEDLES[i]);
    }
    assert Stable("domain ") && Stable(" is blocked");
    StableIsSmall("domain ");
    StableIsSmall(" is blocked");
    FoundExactly(error, "domain ");
    FoundExactly(error, " is blocked");
    assert DELIVERY_NEEDLES[0] == "just a moment" && DELIVERY_NEEDLES[1] == "cloudflare challenge remained";
    assert DELIVERY_NEEDLES[2] == "<!doctype html" && DELIVERY_NEEDLES[3] == "<html" && DELIVERY_NEEDLES[4] == "domain_blocked";
  }

  const INGESTION_WORDS: seq<string> := [
    "just a moment", "<!doctype html", "<html",
    "no such like", "tombstone", "status: 404", "status: 410",
    "unknown content type found for activity", "invalid or unsupported data",
    "signature check failed", "request not signed", "http body exceeded", "entity too large",
    "not a person", "not a group", "notcontained", "status: 400", "status: 403",
    "data did not match any variant of untagged enum knownobject",
    "data did not match any variant of untagged enum either"]

  /** The errors that no repetition of an ingestion can change: answers with one of these words, or with one of
      three error codes in JSON, whose quotes may be escaped. */
  ghost predicate RefusesIngestion(error: string) {
    || (exists i | 0 <= i < |INGESTION_WORDS| :: Says(error, INGESTION_WORDS[i]))
    || Says(error, "\"error\":\"gone\"")
    || Says(error, "\"error\":\"couldnt_find_activity\"")
    || Says(error, "\"error\":\"not found\"")
  }

  // Where the words of that list stand among the needles.
  const PLACES: seq<nat> := [0, 1, 2, 6, 7, 8, 9, 10, 11, 12, 13, 14, 15, 16, 17, 20, 21, 22, 18, 19]

  lemma SameFirstWords(i: nat)
    requires i < 7
    ensures INGESTION_WORDS[i] == INBOX_NEEDLES[PLACES[i]]
  {
    hide JsonError;
  }

  lemma SameMiddleWords(i: nat)
    requires 7 <= i < 13
    ensures INGESTION_WORDS[i] == INBOX_NEEDLES[PLACES[i]]
  {
    hide JsonError;
  }

  lemma SameLastWords(i: nat)
    requires 13 <= i < 18
    ensures INGESTION_WORDS[i] == INBOX_NEEDLES[PLACES[i]]
  {
    hide JsonError;
  }

  lemma SameObject()
    ensures INGESTION_WORDS[18] == INBOX_NEEDLES[18]
  {
    hide JsonError;
  }

  lemma SameEither()
    ensures INGESTION_WORDS[19] == INBOX_NEEDLES[19]
  {
    hide JsonError;
  }

  lemma SameWords(i: nat)
    requires i < |INGESTION_WORDS|
    ensures PLACES[i] in OWN && PLACES[i] < |INBOX_NEEDLES| && INGESTION_WORDS[i] == INBOX_NEEDLES[PLACES[i]]
  {
    hide JsonError;
    if i < 7 {
      SameFirstWords(i);
    } else if i < 13 {
      SameMiddleWords(i);
    } else if i < 18 {
      SameLastWords(i);
    } else {
      SameObject();
      SameEither();
    }
  }

  lemma EveryPlace(i: nat)
    requires i in OWN
    ensures exists j: nat | j < |PLACES| :: PLACES[j] == i
  {
    var j := if i <= 2 then i else if i <= 17 then i - 3 else if i <= 19 then i else i - 5;
    assert PLACES[j] == i;
  }

  lemma CodeIsSmall(code: string)
    requires Stable(code)
    ensures Small(JsonError(code))
  {
    StableIsSmall(code);
    assert Small("\"error\":\"") && Small("\"");
    hide Small;
    ConcatSmall("\"error\":\"", code);
    ConcatSmall("\"error\":\"" + code, "\"");
  }

  lemma InboxNeedleIsSmall(i: nat)
    requires i < |INBOX_NEEDLES|
    ensures Small(INBOX_NEEDLES[i])
  {
    hide JsonError, Small, Plain;
    if i in OWN {
      OwnNeedle(i);
      PlainIsStable(INBOX_NEEDLES[i]);
      StableIsSmall(INBOX_NEEDLES[i]);
    } else {
      assert Stable("gone") && Stable("couldnt_find_activity") && Stable("not found");
      hide Stable;
      CodeIsSmall("gone");
      CodeIsSmall("couldnt_find_activity");
      CodeIsSmall("not found");
    }
  }

  lemma CodeNeedles()
    ensures INBOX_NEEDLES[3] == "\"error\":\"gone\""
    ensures INBOX_NEEDLES[4] == "\"error\":\"couldnt_find_activity\""
    ensures INBOX_NEEDLES[5] == "\"error\":\"not found\""
  {
    assert JsonError("gone") == "\"error\":\"gone\"";
    assert JsonError("couldnt_find_activity") == "\"error\":\"couldnt_find_activity\"";
    assert JsonError("not found") == "\"error\":\"not found\"";
    hide JsonError;
  }

  /** The words of the list are the needles that are no error codes. */
  lemma SaysOneOf(error: string)
    ensures (exists i | 0 <= i < |INGESTION_WORDS| :: Says(error, INGESTION_WORDS[i]))
       <==> exists i: nat | i < |INBOX_NEEDLES| && i in OWN :: Says(error, INBOX_NEEDLES[i])
  {
    hide Says, JsonError;
    if i: nat :| i < |INBOX_NEEDLES| && i in OWN && Says(error, INBOX_NEEDLES[i]) {
      EveryPlace(i);
      var j: nat :| j < |PLACES| && PLACES[j] == i;
      SameWords(j);
      assert Says(error, INGESTION_WORDS[j]);
    }
    if j: nat :| j < |INGESTION_WORDS| && Says(error, INGESTION_WORDS[j]) {
      SameWords(j);
      assert Says(error, INBOX_NEEDLES[PLACES[j]]);
    }
  }

  /** An ingestion fails for good exactly by these errors, and work of every other kind never does. */
  lemma IngestionExactly(kind: Kind, error: string)
    requires kind == IngestObjectFromInbox || kind == VerifyAndIngestObjectFromInbox
    ensures IsTerminal(kind, error) <==> RefusesIngestion(error)
  {
    hide Small, Says, Contains, Unescape, ToAsciiLower, JsonError;
    var text := Unescape(ToAsciiLower(error));
    forall i: nat | i < |INBOX_NEEDLES| ensures Contains(text, INBOX_NEEDLES[i]) <==> Says(error, INBOX_NEEDLES[i]) {
      InboxNeedleIsSmall(i);
      FoundExactly(error, INBOX_NEEDLES[i]);
    }
    SaysOneOf(error);
    CodeNeedles();
  }

  lemma OthersAreNeverTerminal(kind: Kind, error: string)
    requires kind !in {DeliverToInbox, IngestObjectFromInbox, VerifyAndIngestObjectFromInbox}
    ensures !IsTerminal(kind, error)
  {
  }

  /** When an error is terminal, by the kind of the work and the text of the error. */
  ghost predicate Final(kind: Kind, error: string) {
    if kind == DeliverToInbox then RefusesDelivery(error)
    else (kind == IngestObjectFromInbox || kind == VerifyAndIngestObjectFromInbox) && RefusesIngestion(error)
  }

  lemma TerminalExactly(kind: Kind, error: string)
    ensures IsTerminal(kind, error) <==> Final(kind, error)
  {
    hide IsTerminal, RefusesDelivery, RefusesIngestion;
    if kind == DeliverToInbox {
      DeliveryExactly(error);
    } else if kind == IngestObjectFromInbox || kind == VerifyAndIngestObjectFromInbox {
      IngestionExactly(kind, error);
    } else {
      OthersAreNeverTerminal(kind, error);
    }
  }

  // ----- the text that is classified and stored

  /** Long errors are cut; what is classified and stored is the error itself up to 4096 characters. */
  lemma TruncatedExactly(error: string)
    ensures |error| <= 4096 ==> Truncate(error) == error
    ensures |error| > 4096 ==> Truncate(error) == error[..4096] + "\n[truncated]"
  {
  }
}
