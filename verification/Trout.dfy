/** The routing tree of the vendored `trout` crate, generic in its nodes, arguments and results. */
module Trout {
  import opened Options

  datatype Edge<!A> = Literal(name: string) | Parsed(parse: string -> Option<A>)

  datatype Branch<!N, !A> = Branch(edge: Edge<A>, node: N)

  // The children of every node, in the order they were added, and what the handler of a node
  // makes of the arguments parsed on the way to it; a node without a handler gives nothing.
  datatype Router<!N, !A, !R> = Router(children: N -> seq<Branch<N, A>>, handle: (N, seq<A>) -> Option<R>)

  function HexValue(c: char): Option<nat> {
    if '0' <= c <= '9' then Some(c as int - '0' as int)
    else if 'a' <= c <= 'f' then Some(c as int - 'a' as int + 10)
    else if 'A' <= c <= 'F' then Some(c as int - 'A' as int + 10)
    else None
  }

  /** Percent-decoding; a decoded byte outside ASCII stays a character that no segment parser accepts. */
  function PercentDecode(s: string): string {
    if s == "" then ""
    else if |s| >= 3 && s[0] == '%' && HexValue(s[1]).Some? && HexValue(s[2]).Some? then
      [(16 * HexValue(s[1]).value + HexValue(s[2]).value) as char] + PercentDecode(s[3..])
    else [s[0]] + PercentDecode(s[1..])
  }

  /** The index of the first character of `s` among `stops`, or the length of `s`. */
  function FirstOf(s: string, stops: set<char>): (i: nat)
    ensures i <= |s|
    ensures i < |s| ==> s[i] in stops
    ensures forall j :: 0 <= j < i ==> s[j] !in stops
  {
    if s == "" || s[0] in stops then 0 else 1 + FirstOf(s[1..], stops)
  }

  function Route<N, A, R>(router: Router<N, A, R>, n: N, path: string, args: seq<A>): Option<R>
    decreases |path|, |router.children(n)| + 1
  {
    if path == "" then router.handle(n, args) else RouteChildren(router, router.children(n), path, args)
  }

  /** The children in order; the first one that takes the head of the path decides. */
  function RouteChildren<N, A, R>(router: Router<N, A, R>, children: seq<Branch<N, A>>, path: string, args: seq<A>)
    : Option<R>
    requires path != ""
    decreases |path|, |children|
  {
    if children == [] then None
    else
      match children[0].edge
      case Literal(name) =>
        if name <= path && |name| == |path| then Route(router, children[0].node, "", args)
        else if name <= path && path[|name|] == '/' then
          Route(router, children[0].node, path[|name| + 1..], args)
        else RouteChildren(router, children[1..], path, args)
      case Parsed(parse) =>
        var end := FirstOf(path, {'/'});
        var remaining := if end == |path| then "" else path[end + 1..];
        match parse(PercentDecode(path[..end]))
        case Some(arg) => Route(router, children[0].node, remaining, args + [arg])
        case None => RouteChildren(router, children[1..], path, args)
  }

  // ----- routing a joined path

  predicate PlainChar(c: char) {
    'a' <= c <= 'z' || '0' <= c <= '9' || c == '_' || c == '-'
  }

  /** A nonempty segment of letters, digits, underscores and dashes: nothing in it is ever encoded. */
  predicate Plain(segment: string) {
    segment != "" && forall i | 0 <= i < |segment| :: PlainChar(segment[i])
  }

  function Join(segments: seq<string>): string {
    if segments == [] then ""
    else if |segments| == 1 then segments[0]
    else segments[0] + ("/" + Join(segments[1..]))
  }

  lemma {:induction false} NoDecoding(s: string)
    requires '%' !in s
    ensures PercentDecode(s) == s
  {
    if s != "" {
      NoDecoding(s[1..]);
    }
  }

  lemma {:induction false} FirstOfPrefix(s: string, rest: string, stops: set<char>)
    requires forall c | c in s :: c !in stops
    requires rest == "" || rest[0] in stops
    ensures FirstOf(s + rest, stops) == |s|
  {
    if s == "" {
      assert s + rest == rest;
    } else {
      assert (s + rest)[1..] == s[1..] + rest;
      assert (s + rest)[0] == s[0];
      FirstOfPrefix(s[1..], rest, stops);
    }
  }

  /** A joined path is its first segment and what follows it: nothing, or a slash and the joined rest. */
  lemma JoinHead(segments: seq<string>)
    requires segments != []
    ensures segments[0] <= Join(segments)
    ensures |segments| == 1 ==> Join(segments) == segments[0] && Join(segments[1..]) == ""
    ensures |segments| > 1 ==>
      var n := |segments[0]|;
      && n < |Join(segments)|
      && Join(segments)[n] == '/'
      && Join(segments)[n + 1..] == Join(segments[1..])
  {
    if |segments| > 1 {
      var rest := Join(segments[1..]);
      assert Join(segments) == segments[0] + ("/" + rest);
      assert ("/" + rest)[1..] == rest;
      assert Join(segments)[|segments[0]| + 1..] == ("/" + rest)[1..];
    }
  }

  /** A different literal never takes a path whose first segment is `name`. */
  lemma OtherLiteral(other: string, name: string, path: string)
    requires Plain(name) && Plain(other) && other != name
    requires name <= path && (|name| == |path| || path[|name|] == '/')
    ensures !(other <= path && (|other| == |path| || path[|other|] == '/'))
  {
    assert path[..|name|] == name;
  }

  /** A literal that takes no path whose first segment is `name`. */
  predicate OtherEdge<A>(edge: Edge<A>, name: string) {
    edge.Literal? && edge.name != name && Plain(edge.name)
  }

  /** The literal child with the name of the first segment is taken, whatever literals stand before it. */
  lemma {:induction false} TakeLiteral<N, A, R>(router: Router<N, A, R>, children: seq<Branch<N, A>>, i: nat,
                                                segments: seq<string>, args: seq<A>)
    requires segments != [] && Plain(segments[0])
    requires i < |children| && children[i].edge == Literal(segments[0])
    requires forall j | 0 <= j < i :: OtherEdge(children[j].edge, segments[0])
    ensures Join(segments) != ""
    ensures RouteChildren(router, children, Join(segments), args)
         == Route(router, children[i].node, Join(segments[1..]), args)
    decreases i
  {
    JoinHead(segments);
    if i > 0 {
      OtherLiteral(children[0].edge.name, segments[0], Join(segments));
      TakeLiteral(router, children[1..], i - 1, segments, args);
    }
  }

  /** A parsed first child takes any plain segment that its type accepts. */
  lemma TakeParsed<N, A, R>(router: Router<N, A, R>, children: seq<Branch<N, A>>, segments: seq<string>,
                            arg: A, args: seq<A>)
    requires segments != [] && Plain(segments[0])
    requires children != [] && children[0].edge.Parsed? && children[0].edge.parse(segments[0]) == Some(arg)
    ensures Join(segments) != ""
    ensures RouteChildren(router, children, Join(segments), args)
         == Route(router, children[0].node, Join(segments[1..]), args + [arg])
  {
    JoinHead(segments);
    var path, segment := Join(segments), segments[0];
    assert path == segment + path[|segment|..];
    FirstOfPrefix(segment, path[|segment|..], {'/'});
    assert path[..|segment|] == segment;
    NoDecoding(segment);
  }

  // A step from a node to one of its children: the index of the child, the segment, and what it parses to.
  datatype Step<A> = Step(child: nat, segment: string, args: seq<A>)

  ghost predicate Takes<N, A, R>(router: Router<N, A, R>, n: N, step: Step<A>) {
    && Plain(step.segment)
    && step.child < |router.children(n)|
    && match router.children(n)[step.child].edge
       case Literal(name) =>
         && name == step.segment
         && step.args == []
         && (forall j | 0 <= j < step.child :: OtherEdge(router.children(n)[j].edge, name))
       case Parsed(parse) =>
         step.child == 0 && |step.args| == 1 && parse(step.segment) == Some(step.args[0])
  }

  ghost predicate Leads<N, A, R>(router: Router<N, A, R>, n: N, args: seq<A>, steps: seq<Step<A>>,
                                 end: N, endArgs: seq<A>)
    decreases |steps|
  {
    if steps == [] then n == end && args == endArgs
    else
      && Takes(router, n, steps[0])
      && Leads(router, router.children(n)[steps[0].child].node, args + steps[0].args, steps[1..], end, endArgs)
  }

  function SegmentsOf<A>(steps: seq<Step<A>>): seq<string> {
    seq(|steps|, i requires 0 <= i < |steps| => steps[i].segment)
  }

  /** Routing takes exactly the steps that lead on. */
  lemma {:induction false} Follow<N, A, R>(router: Router<N, A, R>, n: N, args: seq<A>, steps: seq<Step<A>>,
                                           end: N, endArgs: seq<A>)
    requires Leads(router, n, args, steps, end, endArgs)
    ensures Route(router, n, Join(SegmentsOf(steps)), args) == router.handle(end, endArgs)
    decreases |steps|
  {
    if steps != [] {
      var segments, step := SegmentsOf(steps), steps[0];
      assert segments[1..] == SegmentsOf(steps[1..]);
      if step.args == [] {
        assert args + step.args == args;
        TakeLiteral(router, router.children(n), step.child, segments, args);
      } else {
        assert step.args == [step.args[0]];
        TakeParsed(router, router.children(n), segments, step.args[0], args);
      }
      Follow(router, router.children(n)[step.child].node, args + step.args, steps[1..], end, endArgs);
    }
  }

  lemma {:induction false} LeadsOn<N, A, R>(router: Router<N, A, R>, n: N, args: seq<A>, steps: seq<Step<A>>,
                                            mid: N, midArgs: seq<A>, more: seq<Step<A>>, end: N, endArgs: seq<A>)
    requires Leads(router, n, args, steps, mid, midArgs)
    requires Leads(router, mid, midArgs, more, end, endArgs)
    ensures Leads(router, n, args, steps + more, end, endArgs)
    decreases |steps|
  {
    var all := steps + more;
    if steps == [] {
      assert all == more;
    } else {
      assert all[1..] == steps[1..] + more && all[0] == steps[0];
      LeadsOn(router, router.children(n)[steps[0].child].node, args + steps[0].args, steps[1..],
              mid, midArgs, more, end, endArgs);
    }
  }

  lemma {:induction false} LeadsPlain<N, A, R>(router: Router<N, A, R>, n: N, args: seq<A>, steps: seq<Step<A>>,
                                               end: N, endArgs: seq<A>)
    requires Leads(router, n, args, steps, end, endArgs)
    ensures forall i | 0 <= i < |steps| :: Plain(SegmentsOf(steps)[i])
    decreases |steps|
  {
    if steps != [] {
      LeadsPlain(router, router.children(n)[steps[0].child].node, args + steps[0].args, steps[1..], end, endArgs);
      assert forall i | 1 <= i < |steps| :: SegmentsOf(steps)[i] == SegmentsOf(steps[1..])[i - 1];
    }
  }

  /** Literal children never take a path that starts with a slash. */
  lemma {:induction false} LiteralsRefuseSlash<N, A, R>(router: Router<N, A, R>, children: seq<Branch<N, A>>,
                                                        path: string, args: seq<A>)
    requires path != "" && path[0] == '/'
    requires forall j | 0 <= j < |children| :: children[j].edge.Literal? && Plain(children[j].edge.name)
    ensures RouteChildren(router, children, path, args) == None
    decreases |children|
  {
    if children != [] {
      var name := children[0].edge.name;
      assert PlainChar(name[0]);
      LiteralsRefuseSlash(router, children[1..], path, args);
    }
  }
}
