/** Images in sanitised HTML become links: what the rewriting of a tree means. */
module ImageLinks {
  import opened Options

  datatype Name = Name(prefix: Option<string>, ns: string, local: string)
  datatype Attribute = Attribute(name: Name, value: string)
  datatype Data = Element(name: Name, attrs: seq<Attribute>) | Text(contents: string) | OtherData(kind: string)
  datatype Tree = Tree(data: Data, children: seq<Tree>)

  const HTML := "http://www.w3.org/1999/xhtml"
  const IMG := Name(None, HTML, "img")
  const A := Name(None, HTML, "a")
  const UGC_LINK_REL := "ugc noopener"

  predicate IsImage(d: Data) {
    d.Element? && d.name == IMG
  }

  /** The first attribute with a local name, in whatever namespace. */
  function Find(attrs: seq<Attribute>, local: string): Option<string> {
    if attrs == [] then None
    else if attrs[0].name.local == local then Some(attrs[0].value)
    else Find(attrs[1..], local)
  }

  function LinkData(src: string): Data {
    Element(A, [Attribute(Name(None, "", "href"), src), Attribute(Name(None, "", "rel"), UGC_LINK_REL)])
  }

  function LinkText(attrs: seq<Attribute>): string {
    match Find(attrs, "alt")
    case Some(alt) => if alt != "" then alt else "Image"
    case None => "Image"
  }

  function Link(attrs: seq<Attribute>, src: string): Tree {
    Tree(LinkData(src), [Tree(Text(LinkText(attrs)), [])])
  }

  function Converted(t: Tree): Option<Tree> {
    if !t.data.Element? then Some(t)
    else if IsImage(t.data) then
      match Find(t.data.attrs, "src")
      case None => None
      case Some(src) => Some(Link(t.data.attrs, src))
    else Some(Tree(t.data, ConvertedAll(t.children)))
  }

  function Maybe(t: Option<Tree>): seq<Tree> {
    if t.Some? then [t.value] else []
  }

  function ConvertedAll(ts: seq<Tree>): seq<Tree> {
    if ts == [] then [] else Maybe(Converted(ts[0])) + ConvertedAll(ts[1..])
  }

  lemma {:induction false} ConvertedConcat(a: seq<Tree>, b: seq<Tree>)
    ensures ConvertedAll(a + b) == ConvertedAll(a) + ConvertedAll(b)
  {
    hide Converted;
    if a == [] {
      assert a + b == b;
    } else {
      assert (a + b)[1..] == a[1..] + b;
      ConvertedConcat(a[1..], b);
    }
  }

  // ----- no image is left

  predicate HasImage(t: Tree) {
    IsImage(t.data) || exists i | 0 <= i < |t.children| :: HasImage(t.children[i])
  }

  /** An image below a node that is no element, where the rewriting does not look. */
  predicate Shielded(t: Tree) {
    !IsImage(t.data)
    && if t.data.Element? then exists i | 0 <= i < |t.children| :: Shielded(t.children[i])
       else exists i | 0 <= i < |t.children| :: HasImage(t.children[i])
  }

  /** Only elements have children. */
  predicate Proper(t: Tree) {
    (t.data.Element? || t.children == []) && forall i | 0 <= i < |t.children| :: Proper(t.children[i])
  }

  ghost predicate AnyImage(ts: seq<Tree>) {
    exists i | 0 <= i < |ts| :: HasImage(ts[i])
  }

  ghost predicate AnyShielded(ts: seq<Tree>) {
    exists i | 0 <= i < |ts| :: Shielded(ts[i])
  }

  /** Converting one tree leaves an image exactly when one is shielded. */
  ghost predicate LeavesShielded(t: Tree) {
    AnyImage(Maybe(Converted(t))) <==> Shielded(t)
  }

  lemma {:induction false} ImagesOfAll(ts: seq<Tree>)
    requires forall i | 0 <= i < |ts| :: LeavesShielded(ts[i])
    ensures AnyImage(ConvertedAll(ts)) <==> AnyShielded(ts)
  {
    hide Converted, HasImage, Shielded;
    if ts != [] {
      ImagesOfAll(ts[1..]);
      Exists(Maybe(Converted(ts[0])), ConvertedAll(ts[1..]));
      assert LeavesShielded(ts[0]);
      if AnyShielded(ts) {
        var i :| 0 <= i < |ts| && Shielded(ts[i]);
        assert i > 0 ==> ts[1..][i - 1] == ts[i];
      }
      if AnyShielded(ts[1..]) {
        var i :| 0 <= i < |ts[1..]| && Shielded(ts[1..][i]);
        assert ts[i + 1] == ts[1..][i];
      }
    }
  }

  lemma Exists(a: seq<Tree>, b: seq<Tree>)
    ensures AnyImage(a + b) <==> AnyImage(a) || AnyImage(b)
  {
    hide HasImage;
    if AnyImage(a) {
      var i :| 0 <= i < |a| && HasImage(a[i]);
      assert (a + b)[i] == a[i];
    }
    if AnyImage(b) {
      var i :| 0 <= i < |b| && HasImage(b[i]);
      assert (a + b)[|a| + i] == b[i];
    }
  }

  lemma LinkIsNoImage(src: string)
    ensures !IsImage(LinkData(src))
  {
    assert |A.local| != |IMG.local|;
  }

  lemma LinkHasNoImage(attrs: seq<Attribute>, src: string)
    ensures !HasImage(Link(attrs, src))
  {
    LinkIsNoImage(src);
    var text := Link(attrs, src).children[0];
    assert !HasImage(text);
  }

  /** Exactly the images below nodes that are no elements survive. */
  lemma {:induction false} SurvivingImages(t: Tree)
    ensures AnyImage(Maybe(Converted(t))) <==> Shielded(t)
    decreases t
  {
    if t.data.Element? {
      if IsImage(t.data) {
        var src := Find(t.data.attrs, "src");
        if src.Some? {
          LinkHasNoImage(t.data.attrs, src.value);
        }
      } else {
        forall i | 0 <= i < |t.children| ensures LeavesShielded(t.children[i]) {
          SurvivingImages(t.children[i]);
        }
        ImagesOfAll(t.children);
        OneTree(Tree(t.data, ConvertedAll(t.children)));
      }
    } else {
      OneTree(t);
    }
  }

  lemma OneTree(t: Tree)
    ensures AnyImage([t]) <==> IsImage(t.data) || AnyImage(t.children)
  {
    assert [t][0] == t;
  }

  lemma {:induction false} ProperShieldsNothing(t: Tree)
    requires Proper(t)
    ensures !Shielded(t)
    decreases t
  {
    forall i | 0 <= i < |t.children| ensures !Shielded(t.children[i]) {
      ProperShieldsNothing(t.children[i]);
    }
  }

  /** When only elements have children, no image is left. */
  lemma NoImageIsLeft(t: Tree)
    requires Proper(t) && Converted(t).Some?
    ensures !HasImage(Converted(t).value)
  {
    SurvivingImages(t);
    ProperShieldsNothing(t);
    assert Maybe(Converted(t))[0] == Converted(t).value;
  }

  // ----- everything else survives in order

  /** The nodes in document order, without looking into images. */
  function Visit(t: Tree): seq<Data> {
    [t.data] + if IsImage(t.data) then [] else VisitAll(t.children)
  }

  function VisitAll(ts: seq<Tree>): seq<Data> {
    if ts == [] then [] else Visit(ts[0]) + VisitAll(ts[1..])
  }

  /** What stands for one node afterwards: the node itself, or for an image a link and its text. */
  function Instead(d: Data): seq<Data> {
    if !IsImage(d) then [d]
    else
      match Find(d.attrs, "src")
      case None => []
      case Some(src) => [LinkData(src), Text(LinkText(d.attrs))]
  }

  function InsteadAll(ds: seq<Data>): seq<Data> {
    if ds == [] then [] else Instead(ds[0]) + InsteadAll(ds[1..])
  }

  lemma {:induction false} InsteadConcat(a: seq<Data>, b: seq<Data>)
    ensures InsteadAll(a + b) == InsteadAll(a) + InsteadAll(b)
  {
    hide Instead;
    if a == [] {
      assert a + b == b;
    } else {
      assert (a + b)[1..] == a[1..] + b;
      InsteadConcat(a[1..], b);
    }
  }

  lemma {:induction false} VisitConcat(a: seq<Tree>, b: seq<Tree>)
    ensures VisitAll(a + b) == VisitAll(a) + VisitAll(b)
  {
    hide Visit;
    if a == [] {
      assert a + b == b;
    } else {
      assert (a + b)[1..] == a[1..] + b;
      VisitConcat(a[1..], b);
    }
  }

  lemma VisitLink(attrs: seq<Attribute>, src: string)
    ensures Visit(Link(attrs, src)) == [LinkData(src), Text(LinkText(attrs))]
  {
    LinkIsNoImage(src);
    var text := Tree(Text(LinkText(attrs)), []);
    assert [text][1..] == [];
    assert VisitAll([text]) == Visit(text) + VisitAll([]);
    assert Visit(text) == [Text(LinkText(attrs))];
  }

  /** What stands for a node: itself, or for an image its link and the text of that, or nothing without source. */
  ghost predicate RightInstead(d: Data, instead: seq<Data>) {
    if !IsImg(d) then instead == [d]
    else if HasNone(d.attrs, "src") then instead == []
    else |instead| == 2 && IsLinkFor(d.attrs, Tree(instead[0], [Tree(instead[1], [])]))
  }

  lemma InsteadIsRight(d: Data)
    ensures RightInstead(d, Instead(d))
  {
    hide IsLinkFor, Find, HasNone;
    if IsImg(d) {
      FindExactly(d.attrs, "src", "");
      if Find(d.attrs, "src").Some? {
        LinkIsRight(d.attrs, Find(d.attrs, "src").value);
      }
    }
  }

  /** The nodes of the result, in document order, are the nodes of the original with every image replaced
      by a link to its source, or left out when it has none. */
  lemma OthersSurviveInOrder(t: Tree)
    requires Proper(t)
    ensures VisitAll(Maybe(Converted(t))) == InsteadAll(Visit(t))
    ensures forall d :: RightInstead(d, Instead(d))
  {
    NodesInOrder(t);
    forall d ensures RightInstead(d, Instead(d)) {
      InsteadIsRight(d);
    }
  }

  lemma {:induction false} NodesInOrder(t: Tree)
    requires Proper(t)
    ensures VisitAll(Maybe(Converted(t))) == InsteadAll(Visit(t))
    decreases t, 1, 0
  {
    if !t.data.Element? {
      assert Maybe(Converted(t)) == [t] && [t][1..] == [];
      assert Visit(t) == [t.data] && [t.data][1..] == [];
    } else if IsImage(t.data) {
      assert Visit(t) == [t.data] && [t.data][1..] == [];
      var src := Find(t.data.attrs, "src");
      if src.Some? {
        VisitLink(t.data.attrs, src.value);
        var link := Link(t.data.attrs, src.value);
        assert [link][1..] == [];
      }
    } else {
      AllSurviveInOrder(t.children, t);
      var after := Tree(t.data, ConvertedAll(t.children));
      assert Maybe(Converted(t)) == [after] && [after][1..] == [];
      assert Visit(after) == [t.data] + VisitAll(after.children);
      assert Visit(t)[1..] == VisitAll(t.children);
    }
  }

  lemma {:induction false} AllSurviveInOrder(ts: seq<Tree>, parent: Tree)
    requires forall i | 0 <= i < |ts| :: ts[i] in parent.children && Proper(ts[i])
    ensures VisitAll(ConvertedAll(ts)) == InsteadAll(VisitAll(ts))
    decreases parent, 0, |ts|
  {
    hide Visit, Converted, Proper, InsteadAll;
    if ts == [] {
      NothingInstead();
    } else {
      NodesInOrder(ts[0]);
      AllSurviveInOrder(ts[1..], parent);
      VisitConcat(Maybe(Converted(ts[0])), ConvertedAll(ts[1..]));
      InsteadConcat(Visit(ts[0]), VisitAll(ts[1..]));
    }
  }

  lemma NothingInstead()
    ensures InsteadAll([]) == []
  {
  }

  // ----- once is enough

  lemma {:induction false} ConvertingIsIdempotent(t: Tree)
    ensures Converted(t).Some? ==> Converted(Converted(t).value) == Converted(t)
    decreases t, 1, 0
  {
    if t.data.Element? {
      if IsImage(t.data) {
        var src := Find(t.data.attrs, "src");
        if src.Some? {
          LinkStays(t.data.attrs, src.value);
        }
      } else {
        AllIdempotent(t.children, t);
      }
    }
  }

  lemma {:induction false} AllIdempotent(ts: seq<Tree>, parent: Tree)
    requires forall i | 0 <= i < |ts| :: ts[i] in parent.children
    ensures ConvertedAll(ConvertedAll(ts)) == ConvertedAll(ts)
    decreases parent, 0, |ts|
  {
    hide Converted;
    if ts != [] {
      ConvertingIsIdempotent(ts[0]);
      AllIdempotent(ts[1..], parent);
      var first := Maybe(Converted(ts[0]));
      ConvertedConcat(first, ConvertedAll(ts[1..]));
      if first != [] {
        assert first[1..] == [];
        assert ConvertedAll(first) == Maybe(Converted(first[0])) + [];
      }
    }
  }

  lemma LinkStays(attrs: seq<Attribute>, src: string)
    ensures Converted(Link(attrs, src)) == Some(Link(attrs, src))
  {
    LinkIsNoImage(src);
    var text := Tree(Text(LinkText(attrs)), []);
    assert [text][1..] == [];
    assert Converted(text) == Some(text);
    assert ConvertedAll([text]) == [text] + ConvertedAll([]) == [text];
    assert Converted(Tree(LinkData(src), [text])) == Some(Tree(LinkData(src), ConvertedAll([text])));
  }

  // ----- what becomes of each image, said of the nodes themselves

  /** The first attribute with a local name has a value. */
  predicate FirstIs(attrs: seq<Attribute>, local: string, value: string) {
    exists i | 0 <= i < |attrs| ::
      && attrs[i].name.local == local && attrs[i].value == value
      && forall j | 0 <= j < i :: attrs[j].name.local != local
  }

  predicate HasNone(attrs: seq<Attribute>, local: string) {
    forall i | 0 <= i < |attrs| :: attrs[i].name.local != local
  }

  lemma {:induction false} FindExactly(attrs: seq<Attribute>, local: string, value: string)
    ensures Find(attrs, local) == Some(value) <==> FirstIs(attrs, local, value)
    ensures Find(attrs, local) == None <==> HasNone(attrs, local)
  {
    if attrs != [] {
      FindExactly(attrs[1..], local, value);
      if attrs[0].name.local != local {
        if FirstIs(attrs, local, value) {
          var i :| 0 <= i < |attrs| && attrs[i].name.local == local && attrs[i].value == value
            && forall j | 0 <= j < i :: attrs[j].name.local != local;
          assert attrs[1..][i - 1] == attrs[i];
          assert forall j | 0 <= j < i - 1 :: attrs[1..][j] == attrs[j + 1];
        }
        if FirstIs(attrs[1..], local, value) {
          var i :| 0 <= i < |attrs[1..]| && attrs[1..][i].name.local == local && attrs[1..][i].value == value
            && forall j | 0 <= j < i :: attrs[1..][j].name.local != local;
          assert attrs[i + 1] == attrs[1..][i];
          assert forall j | 1 <= j < i + 1 :: attrs[j] == attrs[1..][j - 1];
        }
        assert forall j | 1 <= j < |attrs| :: attrs[j] == attrs[1..][j - 1];
      } else {
        assert FirstIs(attrs, local, attrs[0].value);
      }
    }
  }

  predicate IsImg(d: Data) {
    d.Element? && d.name == Name(None, "http://www.w3.org/1999/xhtml", "img")
  }

  /** A link to the source of an image, with its alternative text, or the word for one that has none. */
  ghost predicate IsLinkFor(image: seq<Attribute>, link: Tree) {
    && link.data.Element? && link.data.name == Name(None, "http://www.w3.org/1999/xhtml", "a")
    && (exists src :: FirstIs(image, "src", src) && FirstIs(link.data.attrs, "href", src))
    && FirstIs(link.data.attrs, "rel", "ugc noopener") && |link.data.attrs| == 2
    && exists text :: link.children == [Tree(Text(text), [])] && IsTextFor(image, text)
  }

  ghost predicate IsTextFor(image: seq<Attribute>, text: string) {
    || (text != "" && FirstIs(image, "alt", text))
    || (text == "Image" && (HasNone(image, "alt") || FirstIs(image, "alt", "")))
  }

  /** A tree with every image replaced by a link to its source, or left out when it has none; what is below a
      node that is no element is as it was. */
  ghost predicate Rewritten(t: Tree, t': Tree)
    decreases t
  {
    if IsImg(t.data) then IsLinkFor(t.data.attrs, t')
    else if t.data.Element? then t'.data == t.data && AllRewritten(t.children, t'.children)
    else t' == t
  }

  ghost predicate AllRewritten(ts: seq<Tree>, ts': seq<Tree>)
    decreases ts
  {
    if ts == [] then ts' == []
    else if IsImg(ts[0].data) && HasNone(ts[0].data.attrs, "src") then AllRewritten(ts[1..], ts')
    else ts' != [] && Rewritten(ts[0], ts'[0]) && AllRewritten(ts[1..], ts'[1..])
  }

  lemma LinkIsRight(attrs: seq<Attribute>, src: string)
    requires Find(attrs, "src") == Some(src)
    ensures IsLinkFor(attrs, Link(attrs, src))
  {
    hide Find, FirstIs, HasNone;
    var text, link := LinkText(attrs), Link(attrs, src);
    FindExactly(attrs, "src", src);
    FindExactly(attrs, "alt", text);
    FindExactly(attrs, "alt", "");
    assert link.data.attrs == [Attribute(Name(None, "", "href"), src), Attribute(Name(None, "", "rel"), "ugc noopener")];
    TwoAttributes(Name(None, "", "href"), src, Name(None, "", "rel"), "ugc noopener");
    assert IsTextFor(attrs, text);
  }

  lemma TwoAttributes(a: Name, v: string, b: Name, w: string)
    requires a.local != b.local
    ensures FirstIs([Attribute(a, v), Attribute(b, w)], a.local, v)
    ensures FirstIs([Attribute(a, v), Attribute(b, w)], b.local, w)
  {
    var attrs := [Attribute(a, v), Attribute(b, w)];
    assert attrs[0].name.local == a.local && attrs[1].name.local == b.local;
  }

  /** Every image in a tree, at any depth outside nodes that are no elements, becomes a link to its source. */
  lemma {:induction false} ImagesBecomeLinks(t: Tree)
    ensures Converted(t) == None <==> IsImg(t.data) && HasNone(t.data.attrs, "src")
    ensures Converted(t).Some? ==> Rewritten(t, Converted(t).value)
    decreases t, 1, 0
  {
    hide IsLinkFor, Find, HasNone;
    if t.data.Element? {
      if IsImg(t.data) {
        FindExactly(t.data.attrs, "src", "");
        if Find(t.data.attrs, "src").Some? {
          LinkIsRight(t.data.attrs, Find(t.data.attrs, "src").value);
        }
      } else {
        AllImagesBecomeLinks(t.children, t);
      }
    }
  }

  lemma {:induction false} AllImagesBecomeLinks(ts: seq<Tree>, parent: Tree)
    requires forall i | 0 <= i < |ts| :: ts[i] in parent.children
    ensures AllRewritten(ts, ConvertedAll(ts))
    decreases parent, 0, |ts|
  {
    hide Converted, Rewritten, HasNone;
    if ts != [] {
      ImagesBecomeLinks(ts[0]);
      AllImagesBecomeLinks(ts[1..], parent);
      var first, rest := Maybe(Converted(ts[0])), ConvertedAll(ts[1..]);
      assert first == [] ==> first + rest == rest;
      assert first != [] ==> (first + rest)[0] == first[0] && (first + rest)[1..] == rest;
    }
  }
}
