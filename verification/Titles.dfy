/** The title that the janitor gives to a post without one. */
module Titles {
  import opened Options
  import opened Posts
  import opened Texts

  const NO_TITLE := "[no title]"
  const MAX_TITLE := 80

  function Find(s: string, c: char): (i: nat)
    requires c in s
    ensures i < |s| && s[i] == c && c !in s[..i]
  {
    if s[0] == c then 0 else 1 + Find(s[1..], c)
  }

  /** Every tag, from a less-than sign to the next greater-than sign, replaced by a space. */
  function StripTags(s: string): string
    decreases |s|
  {
    if s == "" then ""
    else if s[0] == '<' && '>' in s then " " + StripTags(s[Find(s, '>') + 1..])
    else [s[0]] + StripTags(s[1..])
  }

  function Without(s: string, c: char): string {
    if s == "" then "" else (if s[0] == c then "" else [s[0]]) + Without(s[1..], c)
  }

  function Source(p: Post): string {
    if p.contentText.Some? then p.contentText.value
    else if p.contentMarkdown.Some? then p.contentMarkdown.value
    else if p.contentHtml.Some? then p.contentHtml.value
    else ""
  }

  function Lines(p: Post): seq<string> {
    Split(Without(StripTags(Source(p)), '\r'), '\n')
  }

  function FirstVisible(lines: seq<string>): Option<string> {
    if lines == [] then None
    else if Btrim(lines[0]) != "" then Some(Btrim(lines[0]))
    else FirstVisible(lines[1..])
  }

  function NewTitle(p: Post): string {
    match FirstVisible(Lines(p))
    case None => NO_TITLE
    case Some(line) =>
      var cut := if |line| <= MAX_TITLE then line else line[..MAX_TITLE];
      if cut == "" then NO_TITLE else cut
  }

  predicate LacksTitle(p: Post) {
    p.title.None? || Btrim(p.title.value) == ""
  }

  function Titled(p: Post): Post {
    p.(title := Some(NewTitle(p)))
  }

  lemma {:induction false} FirstVisibleFacts(lines: seq<string>)
    ensures match FirstVisible(lines)
            case None => forall i | 0 <= i < |lines| :: Blank(lines[i])
            case Some(line) => exists i | 0 <= i < |lines| ::
              && line == Btrim(lines[i]) && !Blank(lines[i])
              && forall j | 0 <= j < i :: Blank(lines[j])
  {
    hide Btrim, Blank;
    if lines != [] {
      BtrimFacts(lines[0]);
      if Btrim(lines[0]) == "" {
        FirstVisibleFacts(lines[1..]);
        if FirstVisible(lines[1..]).Some? {
          var i :| 0 <= i < |lines[1..]| && FirstVisible(lines[1..]).value == Btrim(lines[1..][i]) && !Blank(lines[1..][i])
            && forall j | 0 <= j < i :: Blank(lines[1..][j]);
          forall j | 0 <= j < i + 1 ensures Blank(lines[j]) {
            if j > 0 { assert lines[j] == lines[1..][j - 1]; }
          }
          assert lines[i + 1] == lines[1..][i];
        } else {
          forall j | 0 <= j < |lines| ensures Blank(lines[j]) {
            if j > 0 { assert lines[j] == lines[1..][j - 1]; }
          }
        }
      }
    }
  }

  lemma {:induction false} TextStays(before: string, rest: string)
    requires '<' !in before
    ensures StripTags(before + rest) == before + StripTags(rest)
  {
    hide Find;
    if before == "" {
      assert before + rest == rest;
    } else {
      assert before[0] in before && (before + rest)[1..] == before[1..] + rest;
      TextStays(before[1..], rest);
    }
  }

  lemma TagGoes(tag: string, after: string)
    requires '>' !in tag
    ensures StripTags("<" + tag + ">" + after) == " " + StripTags(after)
  {
    var s := "<" + tag + ">" + after;
    assert s[|tag| + 1] == '>' && '>' !in s[..|tag| + 1];
    FindFirst(s, '>', |tag| + 1);
    assert s[|tag| + 2..] == after;
  }

  /** Text stays and a tag becomes a space; without a closing sign nothing is a tag. */
  lemma StripTagsExactly(before: string, tag: string, after: string)
    requires '<' !in before && '>' !in tag
    ensures StripTags(before) == before
    ensures StripTags(before + ("<" + tag + ">" + after)) == before + (" " + StripTags(after))
    ensures StripTags(before + ("<" + tag)) == before + ("<" + StripTags(tag))
  {
    TextStays(before, "<" + tag + ">" + after);
    TagGoes(tag, after);
    TextStays(before, "");
    assert before + "" == before;
    var open := "<" + tag;
    TextStays(before, open);
    assert open[1..] == tag && '>' !in open;
  }

  lemma {:induction false} FindFirst(s: string, c: char, n: nat)
    requires n < |s| && s[n] == c && c !in s[..n]
    ensures c in s && Find(s, c) == n
    decreases n
  {
    if n > 0 {
      assert s[0] in s[..n] && s[1..][..n - 1] == s[..n][1..];
      FindFirst(s[1..], c, n - 1);
    }
  }

  lemma {:induction false} WithoutConcat(a: string, b: string, c: char)
    ensures Without(a + b, c) == Without(a, c) + Without(b, c)
  {
    if a == "" {
      assert a + b == b;
    } else {
      assert (a + b)[1..] == a[1..] + b;
      WithoutConcat(a[1..], b, c);
    }
  }

  /** All other characters, in their order. */
  lemma {:induction false} WithoutExactly(s: string, c: char)
    ensures c !in Without(s, c)
    ensures c !in s ==> Without(s, c) == s
    ensures Without([c], c) == ""
  {
    if s != "" {
      WithoutExactly(s[1..], c);
      assert s == [s[0]] + s[1..];
    }
    assert [c][1..] == "";
  }

  /** The lines come from the plain text of a post, or else from its Markdown, or else from its HTML. */
  lemma SourceExactly(p: Post, text: string)
    requires || p.contentText == Some(text)
             || (p.contentText == None && p.contentMarkdown == Some(text))
             || (p.contentText == None && p.contentMarkdown == None && p.contentHtml == Some(text))
    ensures '<' !in text && '\r' !in text ==> Glue(Lines(p), '\n') == text
    ensures Glue(Lines(p), '\n') == Without(StripTags(text), '\r')
    ensures forall i | 0 <= i < |Lines(p)| :: '\n' !in Lines(p)[i]
  {
    GlueSplit(Without(StripTags(text), '\r'), '\n');
    if '<' !in text && '\r' !in text {
      StripTagsExactly(text, "", "");
      WithoutExactly(text, '\r');
    }
  }

  /** A repaired title is visible, so the repair never has to be repeated, and it is the beginning of the
      first visible line, or the placeholder when there is none. */
  lemma TitledIsDone(p: Post)
    ensures !LacksTitle(Titled(p))
    ensures |NewTitle(p)| <= MAX_TITLE
    ensures if forall i | 0 <= i < |Lines(p)| :: Blank(Lines(p)[i]) then NewTitle(p) == NO_TITLE
            else exists i | 0 <= i < |Lines(p)| ::
              && !Blank(Lines(p)[i]) && (forall j | 0 <= j < i :: Blank(Lines(p)[j]))
              && NewTitle(p) <= Btrim(Lines(p)[i])
              && |NewTitle(p)| == if |Btrim(Lines(p)[i])| <= 80 then |Btrim(Lines(p)[i])| else 80
  {
    var lines, title := Lines(p), NewTitle(p);
    hide Lines, Btrim, Blank;
    FirstVisibleFacts(lines);
    if FirstVisible(lines).Some? {
      var i :| 0 <= i < |lines| && FirstVisible(lines).value == Btrim(lines[i]) && !Blank(lines[i])
        && forall j | 0 <= j < i :: Blank(lines[j]);
      BtrimFacts(lines[i]);
      assert title[0] != ' ';
    }
    VisibleStart(title);
  }

  lemma VisibleStart(s: string)
    requires s != "" && s[0] != ' '
    ensures Btrim(s) != ""
  {
    BtrimFacts(s);
  }
}
