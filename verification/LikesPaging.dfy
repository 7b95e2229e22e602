/** The list of likes of a comment, page by page, with a cursor that names the first like of the next page. */
module LikesPaging {
  import opened Decimal
  import opened Options
  import opened Texts

  // When a like was made, in nanoseconds, and by whom; a person likes a comment at most once.
  datatype Key = Key(time: I64, person: I64)

  const LIMIT := 30

  /** The condition that the statement adds for a cursor. */
  predicate AtMost(k: Key, bound: Key) {
    k.time < bound.time || (k.time == bound.time && k.person <= bound.person)
  }

  // ----- rows in descending order

  ghost predicate IsMax(s: set<Key>, max: Key) {
    max in s && forall k | k in s :: AtMost(k, max)
  }

  lemma {:induction false} MaxExists(s: set<Key>)
    requires s != {}
    ensures exists max :: IsMax(s, max)
    decreases s
  {
    var one :| one in s;
    if s == {one} {
      assert IsMax(s, one);
    } else {
      MaxExists(s - {one});
      var rest :| IsMax(s - {one}, rest);
      var max := if AtMost(one, rest) then rest else one;
      forall k | k in s ensures AtMost(k, max) {
        assert k == one || k in s - {one};
      }
      assert IsMax(s, max);
    }
  }

  ghost function Listing(s: set<Key>): (rows: seq<Key>)
    ensures |rows| == |s|
    ensures forall k :: k in rows <==> k in s
  {
    if s == {} then []
    else
      var max := Max(s);
      [max] + Listing(s - {max})
  }

  ghost function Max(s: set<Key>): (max: Key)
    requires s != {}
    ensures IsMax(s, max)
  {
    MaxExists(s);
    var max :| IsMax(s, max);
    max
  }

  lemma MaxIsUnique(s: set<Key>, max: Key)
    requires IsMax(s, max)
    ensures Max(s) == max
  {
    assert AtMost(max, Max(s)) && AtMost(Max(s), max);
  }

  lemma ListingStep(s: set<Key>, max: Key)
    requires IsMax(s, max)
    ensures Listing(s) == [max] + Listing(s - {max})
  {
    MaxIsUnique(s, max);
    hide IsMax;
  }

  lemma MaxIsIn(s: set<Key>, max: Key)
    requires IsMax(s, max)
    ensures max in s
  {
  }

  function Bounded(table: set<Key>, bound: Option<Key>): set<Key> {
    set k | k in table && (bound.None? || AtMost(k, bound.value))
  }

  /** The listing is strictly descending. */
  lemma {:induction false} ListingDescends(s: set<Key>, i: nat, j: nat)
    requires i < j < |s|
    ensures !AtMost(Listing(s)[i], Listing(s)[j])
    decreases i
  {
    hide Listing;
    var max := Max(s);
    ListingStep(s, max);
    var rest := Listing(s - {max});
    assert Listing(s)[j] == rest[j - 1];
    if i == 0 {
      assert rest[j - 1] in s - {max};
      assert AtMost(rest[j - 1], max);
    } else {
      hide IsMax;
      ListingDescends(s - {max}, i - 1, j - 1);
    }
  }

  /** What lies at or below the i-th row is the listing from there on. */
  lemma {:induction false} ListingFrom(s: set<Key>, i: nat)
    requires i < |s|
    ensures Listing(Bounded(s, Some(Listing(s)[i]))) == Listing(s)[i..]
    decreases i
  {
    hide Listing;
    var max := Max(s);
    var rest := s - {max};
    ListingStep(s, max);
    if i == 0 {
      assert Bounded(s, Some(max)) == s;
      assert Listing(s)[0..] == Listing(s);
    } else {
      var k := Listing(rest)[i - 1];
      assert Listing(s)[i] == k && k in rest;
      assert Bounded(s, Some(k)) == Bounded(rest, Some(k)) by {
        assert AtMost(k, max) && k != max;
      }
      hide IsMax, Bounded;
      ListingFrom(rest, i - 1);
      assert ([max] + Listing(rest))[i..] == Listing(rest)[i - 1..];
    }
  }

  // ----- one page

  function PrintCursor(k: Key): string {
    Print(k.time) + "," + Print(k.person)
  }

  /** Exactly two integers with a comma between them. */
  function ParseCursor(s: string): Option<Key> {
    var pieces := Split(s, ',');
    if |pieces| != 2 then None
    else
      var time, person := Parse(pieces[0]), Parse(pieces[1]);
      if time.None? || person.None? then None else Some(Key(time.value, person.value))
  }

  /** A text of two parts with a comma between them, which parse to the time and the person of a key. */
  predicate Spells(time: string, person: string, k: Key) {
    Parse(time) == Some(k.time) && Parse(person) == Some(k.person)
  }

  /** What parses has no comma in it. */
  lemma ParsedHasNoComma(s: string)
    requires Parse(s).Some?
    ensures ',' !in s
  {
    hide Magnitude;
    if s[0] == '-' || s[0] == '+' {
      OnlyDigits(s[1..]);
      assert s == [s[0]] + s[1..];
    } else {
      OnlyDigits(s);
    }
  }

  /** A cursor is accepted exactly when it is two integers with one comma between them, and names that key. */
  lemma CursorExactly(s: string, k: Key)
    ensures ParseCursor(s) == Some(k) <==> exists time, person :: s == time + "," + person && Spells(time, person, k)
  {
    hide Parse;
    var pieces := Split(s, ',');
    if ParseCursor(s) == Some(k) {
      GlueSplit(s, ',');
      assert pieces[1..] == [pieces[1]];
      assert Glue(pieces, ',') == pieces[0] + "," + pieces[1];
      assert Spells(pieces[0], pieces[1], k);
    }
    forall time, person | s == time + "," + person && Spells(time, person, k) ensures ParseCursor(s) == Some(k) {
      ParsedHasNoComma(time);
      ParsedHasNoComma(person);
      SplitAt(time, person, ',');
      SplitOne(person, ',');
    }
  }

  /** The key of a cursor is the key that it was printed from. */
  lemma CursorRoundTrip(k: Key)
    ensures ParseCursor(PrintCursor(k)) == Some(k)
  {
    hide Print, Parse, ParseCursor;
    ParsePrint(k.time);
    ParsePrint(k.person);
    assert Spells(Print(k.time), Print(k.person), k);
    CursorExactly(PrintCursor(k), k);
  }

  lemma MalformedExactly(s: string)
    ensures ParseCursor(s).None? <==> forall k, time, person | Spells(time, person, k) :: s != time + "," + person
  {
    hide ParseCursor, Spells;
    if ParseCursor(s).Some? {
      CursorExactly(s, ParseCursor(s).value);
    }
    forall k, time, person | Spells(time, person, k) && s == time + "," + person ensures ParseCursor(s).Some? {
      CursorExactly(s, k);
    }
  }

  datatype Response = Page(items: seq<Key>, nextPage: Option<string>) | InvalidPage

  ghost function PageFrom(table: set<Key>, bound: Option<Key>): Response {
    var rows := Listing(Bounded(table, bound));
    if |rows| <= LIMIT then Page(rows, None) else Page(rows[..LIMIT], Some(PrintCursor(rows[LIMIT])))
  }

  /** The statement: the greatest rows that the cursor admits, at most `limit` of them. */
  method SelectRows(table: set<Key>, bound: Option<Key>, limit: nat) returns (rows: seq<Key>)
    ensures var all := Listing(Bounded(table, bound));
      rows == if |all| <= limit then all else all[..limit]
  {
    hide Listing, IsMax;
    rows := [];
    var left := Bounded(table, bound);
    hide Bounded;
    while |rows| < limit && left != {}
      invariant |rows| <= limit
      invariant rows + Listing(left) == Listing(Bounded(table, bound))
      decreases left
    {
      var next := FindMax(left);
      assert next in left by { MaxIsIn(left, next); }
      ListingStep(left, next);
      assert rows + ([next] + Listing(left - {next})) == rows + [next] + Listing(left - {next});
      rows := rows + [next];
      left := left - {next};
    }
  }

  method FindMax(s: set<Key>) returns (max: Key)
    requires s != {}
    ensures IsMax(s, max)
  {
    max :| max in s;
    var left := s - {max};
    while left != {}
      invariant left <= s && max in s
      invariant forall k | k in s - left :: AtMost(k, max)
      decreases left
    {
      var k :| k in left;
      ghost var seen := s - left;
      left := left - {k};
      assert s - left == seen + {k};
      if AtMost(max, k) {
        max := k;
      }
    }
  }

  /** Fetches one row more than fits on the page; the extra row becomes the cursor. */
  method ListLikes(table: set<Key>, page: Option<string>) returns (response: Response)
    ensures response == Answer(table, page)
    ensures response == InvalidPage <==>
      page.Some? && forall k, time, person | Spells(time, person, k) :: page.value != time + "," + person
  {
    hide ParseCursor, PrintCursor, Spells;
    if page.Some? {
      MalformedExactly(page.value);
    }
    var bound: Option<Key> := None;
    if page.Some? {
      bound := ParseCursor(page.value);
      if bound.None? {
        return InvalidPage;
      }
    }
    var rows := SelectRows(table, bound, LIMIT + 1);
    var nextPage: Option<string> := None;
    if |rows| > LIMIT {
      var row := rows[|rows| - 1];
      rows := rows[..|rows| - 1];
      nextPage := Some(PrintCursor(row));
    }
    response := Page(rows, nextPage);
  }

  ghost function Answer(table: set<Key>, page: Option<string>): Response {
    match page
    case None => PageFrom(table, None)
    case Some(cursor) =>
      match ParseCursor(cursor)
      case None => InvalidPage
      case Some(bound) => PageFrom(table, Some(bound))
  }

  // ----- all pages

  /** Follows the cursors from a page on, for at most so many pages. */
  ghost function Follow(table: set<Key>, page: Option<string>, most: nat): seq<seq<Key>>
    decreases most
  {
    if most == 0 then []
    else
      match Answer(table, page)
      case InvalidPage => []
      case Page(items, nextPage) =>
        [items] + if nextPage.None? then [] else Follow(table, nextPage, most - 1)
  }

  function Flat(pages: seq<seq<Key>>): seq<Key> {
    if pages == [] then [] else pages[0] + Flat(pages[1..])
  }

  function PageCount(n: nat): nat {
    if n == 0 then 1 else (n + LIMIT - 1) / LIMIT
  }

  /** The next cursor admits exactly the rows after the page. */
  lemma NextPageGoesOn(table: set<Key>, bound: Option<Key>)
    requires |Bounded(table, bound)| > LIMIT
    ensures var rows := Listing(Bounded(table, bound));
      && Answer(table, Some(PrintCursor(rows[LIMIT]))) == PageFrom(table, Some(rows[LIMIT]))
      && Listing(Bounded(table, Some(rows[LIMIT]))) == rows[LIMIT..]
  {
    hide ParseCursor, PrintCursor;
    var s := Bounded(table, bound);
    var k := Listing(s)[LIMIT];
    CursorRoundTrip(k);
    ListingFrom(s, LIMIT);
    assert k in s;
    assert Bounded(s, Some(k)) == Bounded(table, Some(k)) by {
      forall x | x in Bounded(table, Some(k)) ensures x in s {
        assert AtMost(x, k);
      }
    }
  }

  /** Pages of full size, except perhaps the last. */
  predicate Filled(pages: seq<seq<Key>>) {
    forall i | 0 <= i < |pages| :: |pages[i]| <= LIMIT && (i < |pages| - 1 ==> |pages[i]| == LIMIT)
  }

  lemma FullThenMore(first: seq<Key>, rest: seq<seq<Key>>)
    requires |first| == LIMIT && rest != [] && Filled(rest)
    ensures Filled([first] + rest) && Flat([first] + rest) == first + Flat(rest)
  {
    assert ([first] + rest)[1..] == rest;
  }

  lemma {:induction false} PagesFrom(table: set<Key>, bound: Option<Key>, page: Option<string>, most: nat)
    requires Answer(table, page) == PageFrom(table, bound)
    requires most >= PageCount(|Bounded(table, bound)|)
    ensures var pages := Follow(table, page, most);
      && Flat(pages) == Listing(Bounded(table, bound))
      && |pages| == PageCount(|Bounded(table, bound)|)
      && Filled(pages)
    decreases most
  {
    hide PrintCursor, Answer, Bounded, Listing, Flat, Filled;
    var rows := Listing(Bounded(table, bound));
    if |rows| <= LIMIT {
      assert Follow(table, page, most) == [rows];
      OnePage(rows);
    } else {
      NextPageGoesOn(table, bound);
      var next := Some(PrintCursor(rows[LIMIT]));
      PagesFrom(table, Some(rows[LIMIT]), next, most - 1);
      FullThenMore(rows[..LIMIT], Follow(table, next, most - 1));
      assert rows == rows[..LIMIT] + rows[LIMIT..];
    }
  }

  lemma OnePage(rows: seq<Key>)
    requires |rows| <= LIMIT
    ensures Flat([rows]) == rows && Filled([rows])
  {
    assert [rows][1..] == [];
  }

  /** Made later, or at the same time by a person with a greater number. */
  predicate Later(a: Key, b: Key) {
    a.time > b.time || (a.time == b.time && a.person > b.person)
  }

  /** Following the cursors from the first page yields every like exactly once, newest first, on full pages
      except for the last; however many pages one is willing to follow, there are ceil(n / 30) of them, or
      one when there are no likes. */
  lemma AllPages(table: set<Key>, most: nat)
    requires most >= PageCount(|table|)
    ensures var pages := Follow(table, None, most);
      && Flat(pages) == Listing(table)
      && |pages| == (if |table| == 0 then 1 else (|table| + 29) / 30)
      && (forall i | 0 <= i < |pages| - 1 :: |pages[i]| == 30)
      && (forall k :: k in Flat(pages) <==> k in table)
      && (forall i, j | 0 <= i < j < |Flat(pages)| :: Later(Flat(pages)[i], Flat(pages)[j]))
  {
    assert Bounded(table, None) == table;
    PagesFrom(table, None, None, most);
    forall i, j | 0 <= i < j < |table| ensures Later(Listing(table)[i], Listing(table)[j]) {
      ListingDescends(table, i, j);
    }
  }
}
