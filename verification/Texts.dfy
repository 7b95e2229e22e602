/** Splitting and trimming of text. */
module Texts {
  /** The pieces between separators; always at least one. */
  function Split(s: string, sep: char): (pieces: seq<string>)
    ensures pieces != []
    ensures forall i | 0 <= i < |pieces| :: sep !in pieces[i]
  {
    if s == "" then [""]
    else
      var rest := Split(s[1..], sep);
      if s[0] == sep then [""] + rest else [[s[0]] + rest[0]] + rest[1..]
  }

  function Glue(pieces: seq<string>, sep: char): string
    requires pieces != []
  {
    if |pieces| == 1 then pieces[0] else pieces[0] + [sep] + Glue(pieces[1..], sep)
  }

  /** Splitting loses nothing. */
  lemma {:induction false} GlueSplit(s: string, sep: char)
    ensures Glue(Split(s, sep), sep) == s
  {
    if s != "" {
      GlueSplit(s[1..], sep);
      var rest, pieces := Split(s[1..], sep), Split(s, sep);
      if s[0] == sep {
        assert pieces[1..] == rest;
      } else if |rest| > 1 {
        assert pieces[1..] == rest[1..];
        assert [s[0]] + rest[0] + [sep] + Glue(rest[1..], sep) == [s[0]] + (rest[0] + [sep] + Glue(rest[1..], sep));
      }
    }
  }

  /** Pieces without separators come back. */
  lemma {:induction false} SplitOne(s: string, sep: char)
    requires sep !in s
    ensures Split(s, sep) == [s]
  {
    if s != "" {
      SplitOne(s[1..], sep);
      assert s[0] in s && [s[0]] + s[1..] == s;
    }
  }

  lemma {:induction false} SplitAt(a: string, b: string, sep: char)
    requires sep !in a
    ensures Split(a + [sep] + b, sep) == [a] + Split(b, sep)
  {
    var s := a + [sep] + b;
    if a == "" {
      assert s[1..] == b;
    } else {
      assert s[1..] == a[1..] + [sep] + b;
      SplitAt(a[1..], b, sep);
      assert a[0] in a && s[0] == a[0] && [a[0]] + a[1..] == a;
    }
  }

  // ----- trimming

  function TrimSlashes(s: string): (t: string)
    ensures t <= s
    ensures t == "" || t[|t| - 1] != '/'
    ensures forall i :: |t| <= i < |s| ==> s[i] == '/'
  {
    if s != "" && s[|s| - 1] == '/' then TrimSlashes(s[..|s| - 1]) else s
  }

  predicate Blank(s: string) {
    forall i | 0 <= i < |s| :: s[i] == ' '
  }

  function TrimLeft(s: string): string {
    if s != "" && s[0] == ' ' then TrimLeft(s[1..]) else s
  }

  function TrimRight(s: string): string {
    if s != "" && s[|s| - 1] == ' ' then TrimRight(s[..|s| - 1]) else s
  }

  /** The trim of the database: spaces only, at both ends. */
  function Btrim(s: string): string {
    TrimRight(TrimLeft(s))
  }

  lemma BlankTail(s: string)
    requires s != ""
    ensures Blank(s) <==> s[0] == ' ' && Blank(s[1..])
  {
    if s[0] == ' ' && Blank(s[1..]) {
      forall i | 0 <= i < |s| ensures s[i] == ' ' {
        if i > 0 { assert s[i] == s[1..][i - 1]; }
      }
    }
  }

  lemma BlankInit(s: string)
    requires s != ""
    ensures Blank(s) <==> s[|s| - 1] == ' ' && Blank(s[..|s| - 1])
  {
    if s[|s| - 1] == ' ' && Blank(s[..|s| - 1]) {
      forall i | 0 <= i < |s| ensures s[i] == ' ' {
        if i < |s| - 1 { assert s[i] == s[..|s| - 1][i]; }
      }
    }
  }

  lemma {:induction false} TrimRightFacts(s: string)
    ensures TrimRight(s) == "" <==> Blank(s)
    ensures TrimRight(s) <= s
  {
    if s != "" {
      BlankInit(s);
      if s[|s| - 1] == ' ' {
        hide Blank;
        TrimRightFacts(s[..|s| - 1]);
      }
    }
  }

  lemma {:induction false} TrimLeftFacts(s: string)
    ensures TrimLeft(s) == "" <==> Blank(s)
    ensures TrimLeft(s) != "" ==> TrimLeft(s)[0] != ' '
  {
    if s != "" {
      BlankTail(s);
      if s[0] == ' ' {
        hide Blank;
        TrimLeftFacts(s[1..]);
      }
    }
  }

  lemma {:induction false} TrimLeftExactly(before: string, core: string)
    requires Blank(before) && (core == "" || core[0] != ' ')
    ensures TrimLeft(before + core) == core
  {
    if before == "" {
      assert before + core == core;
    } else {
      assert (before + core)[1..] == before[1..] + core;
      TrimLeftExactly(before[1..], core);
    }
  }

  lemma {:induction false} TrimRightExactly(core: string, after: string)
    requires Blank(after) && (core == "" || core[|core| - 1] != ' ')
    ensures TrimRight(core + after) == core
    decreases |after|
  {
    if after == "" {
      assert core + after == core;
    } else {
      assert (core + after)[..|core + after| - 1] == core + after[..|after| - 1];
      TrimRightExactly(core, after[..|after| - 1]);
    }
  }

  /** Trimming takes away exactly the spaces at both ends. */
  lemma BtrimExactly(before: string, core: string, after: string)
    requires Blank(before) && Blank(after)
    requires core == "" || (core[0] != ' ' && core[|core| - 1] != ' ')
    ensures Btrim(before + (core + after)) == core
  {
    hide TrimLeft, TrimRight;
    if core == "" {
      assert before + (core + after) == (before + after) + "" && "" + "" == "";
      assert forall i | 0 <= i < |before + after| :: (before + after)[i] == if i < |before| then before[i] else after[i - |before|];
      TrimLeftExactly(before + after, "");
      TrimRightExactly("", "");
    } else {
      TrimLeftExactly(before, core + after);
      TrimRightExactly(core, after);
    }
  }

  /** A trimmed text is empty exactly when the text is blank, and otherwise starts with a visible character. */
  lemma BtrimFacts(s: string)
    ensures Btrim(s) == "" <==> Blank(s)
    ensures Btrim(s) != "" ==> Btrim(s)[0] != ' '
  {
    TrimLeftFacts(s);
    TrimRightFacts(TrimLeft(s));
    if TrimLeft(s) != "" && Blank(TrimLeft(s)) {
      assert false;
    }
  }
}
