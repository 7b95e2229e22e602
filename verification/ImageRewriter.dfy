/** The same rewriting as it is done in place, on nodes whose lists of children change. */
module ImageRewriter {
  import opened ImageLinks
  import opened Options

  // The nodes of a tree, each with those of its children in order.
  datatype Ids = Ids(node: Node?, below: seq<Ids>)

  class Node {
    const data: Data
    var children: seq<Node>
    ghost var tree: Tree        // what the node and everything below it stands for
    ghost var ids: Ids          // and which nodes these are
    ghost var repr: set<Node>   // the node and everything below it

    ghost predicate Valid()
      reads this, repr
      decreases repr
    {
      && this in repr
      && tree.data == data && ids.node == this && |tree.children| == |ids.below| == |children|
      && (forall i | 0 <= i < |children| ::
            && children[i] in repr && children[i].repr < repr && this !in children[i].repr
            && children[i].tree == tree.children[i] && children[i].ids == ids.below[i] && children[i].Valid())
      && forall i, j | 0 <= i < j < |children| :: children[i].repr !! children[j].repr
    }

    constructor Leaf(data: Data)
      ensures Valid() && fresh(repr) && tree == Tree(data, [])
    {
      this.data := data;
      children := [];
      tree := Tree(data, []);
      repr := {this};
      new;
      ids := Ids(this, []);
    }

    constructor Parent(data: Data, child: Node)
      requires child.Valid()
      ensures Valid() && fresh(repr - child.repr) && tree == Tree(data, [child.tree])
    {
      this.data := data;
      children := [child];
      tree := Tree(data, [child.tree]);
      repr := {this} + child.repr;
      new;
      ids := Ids(this, [child.ids]);
    }
  }

  method NewLink(attrs: seq<Attribute>, src: string) returns (link: Node)
    ensures link.Valid() && fresh(link.repr) && link.tree == Link(attrs, src)
  {
    var alt := Find(attrs, "alt");
    var text := if alt.Some? && alt.value != "" then alt.value else "Image";
    var leaf := new Node.Leaf(Text(text));
    link := new Node.Parent(LinkData(src), leaf);
  }

  /** Separate trees: valid, disjoint, and below a common node. */
  ghost predicate Separate(nodes: seq<Node>, above: Node)
    reads nodes, set c, o | c in nodes && o in c.repr :: o
  {
    && (forall i | 0 <= i < |nodes| :: nodes[i].Valid() && above !in nodes[i].repr)
    && forall i, j | 0 <= i < j < |nodes| :: nodes[i].repr !! nodes[j].repr
  }

  ghost predicate Named(nodes: seq<Node>, ids: seq<Ids>)
    reads nodes
  {
    |nodes| == |ids| && forall i | 0 <= i < |nodes| :: nodes[i].ids == ids[i]
  }

  /** Which nodes are still there after a tree `t` of the nodes `a` became one of the nodes `b`: a node that is
      no element with everything below it, any other node itself and so on below it. */
  ghost predicate Kept(t: Tree, a: Ids, b: Ids, known: set<Node>) {
    if t.data.Element? then b.node == a.node && KeptAll(t.children, a.below, b.below, known) else b == a
  }

  /** The same for children: an image made way for a node that was not known before, or for none. */
  ghost predicate KeptAll(ts: seq<Tree>, a: seq<Ids>, b: seq<Ids>, known: set<Node>) {
    if ts == [] then b == []
    else if a == [] then false
    else if Converted(ts[0]).None? then KeptAll(ts[1..], a[1..], b, known)
    else if b == [] then false
    else if IsImage(ts[0].data) then b[0].node !in known && KeptAll(ts[1..], a[1..], b[1..], known)
    else Kept(ts[0], a[0], b[0], known) && KeptAll(ts[1..], a[1..], b[1..], known)
  }

  lemma {:induction false} KeptPrefix(ts: seq<Tree>, a: seq<Ids>, b: seq<Ids>, k: nat, next: seq<Ids>, known: set<Node>)
    requires k < |ts| == |a| && KeptAll(ts[..k], a[..k], b, known)
    requires if Converted(ts[k]).None? then next == []
             else |next| == 1 && if IsImage(ts[k].data) then next[0].node !in known else Kept(ts[k], a[k], next[0], known)
    ensures KeptAll(ts[..k + 1], a[..k + 1], b + next, known)
    decreases k
  {
    hide Kept, Converted;
    if k == 0 {
      assert b + next == next;
      assert ts[..1][1..] == [] && a[..1][1..] == [];
      if next != [] {
        assert next[1..] == [];
      }
    } else {
      assert ts[..k][1..] == ts[1..][..k - 1] && a[..k][1..] == a[1..][..k - 1];
      assert ts[..k + 1][1..] == ts[1..][..k] && a[..k + 1][1..] == a[1..][..k];
      if Converted(ts[0]).None? {
        KeptPrefix(ts[1..], a[1..], b, k - 1, next, known);
      } else {
        assert (b + next)[1..] == b[1..] + next;
        KeptPrefix(ts[1..], a[1..], b[1..], k - 1, next, known);
      }
    }
  }

  ghost predicate StandFor(nodes: seq<Node>, trees: seq<Tree>)
    reads nodes
  {
    |nodes| == |trees| && forall i | 0 <= i < |nodes| :: nodes[i].tree == trees[i]
  }

  lemma {:induction false} ConvertedPrefix(trees: seq<Tree>, k: nat)
    requires k < |trees|
    ensures ConvertedAll(trees[..k + 1]) == ConvertedAll(trees[..k]) + Maybe(Converted(trees[k]))
  {
    hide Converted;
    assert trees[..k + 1] == trees[..k] + [trees[k]];
    ConvertedConcat(trees[..k], [trees[k]]);
    assert [trees[k]][1..] == [];
    assert Maybe(Converted(trees[k])) + [] == Maybe(Converted(trees[k]));
  }

  function Among(nodes: seq<Node>, old_: set<Node>): seq<Node> {
    if nodes == [] then [] else (if nodes[0] in old_ then [nodes[0]] else []) + Among(nodes[1..], old_)
  }

  function NonImages(nodes: seq<Node>): seq<Node> {
    if nodes == [] then [] else (if IsImage(nodes[0].data) then [] else [nodes[0]]) + NonImages(nodes[1..])
  }

  /** In particular the nodes that are left of a list are those that are no images, in order. */
  lemma {:induction false} KeptInOrder(ts: seq<Tree>, a: seq<Ids>, b: seq<Ids>, old_: seq<Node>, new_: seq<Node>, known: set<Node>)
    requires KeptAll(ts, a, b, known) && |ts| == |a| == |old_| && |b| == |new_|
    requires forall i | 0 <= i < |a| :: a[i].node == old_[i] && old_[i].data == ts[i].data && old_[i] in known
    requires forall i | 0 <= i < |b| :: b[i].node == new_[i]
    ensures Among(new_, known) == NonImages(old_)
    decreases |ts|
  {
    hide Find;
    if ts != [] {
      if Converted(ts[0]).None? {
        KeptInOrder(ts[1..], a[1..], b, old_[1..], new_, known);
      } else {
        KeptInOrder(ts[1..], a[1..], b[1..], old_[1..], new_[1..], known);
      }
    }
  }

  lemma ChildIds(node: Node)
    requires node.Valid()
    ensures |node.ids.below| == |node.tree.children| == |node.children|
    ensures forall i | 0 <= i < |node.children| ::
      && node.ids.below[i].node == node.children[i] && node.children[i].data == node.tree.children[i].data
      && node.children[i] in node.repr
  {
    forall i | 0 <= i < |node.children|
      ensures node.ids.below[i].node == node.children[i] && node.children[i].data == node.tree.children[i].data
    {
      assert node.children[i].Valid();
    }
  }

  /** Rewrites a node in place; nothing is left when the node was an image without source. Every node but
      an image stays the same node, all the way down. Nodes that were known before are never used anew. */
  method ProcessNode(node: Node, ghost known: set<Node>) returns (result: Node?)
    requires node.Valid() && node.repr <= known
    modifies node.repr
    ensures match Converted(old(node.tree))
            case None => result == null
            case Some(t) => result != null && result.Valid() && result.tree == t && fresh(result.repr - old(node.repr))
    ensures result == null <==> IsImg(node.data) && HasNone(node.data.attrs, "src")
    ensures result != null ==> Rewritten(old(node.tree), result.tree)
    ensures !IsImage(node.data) ==> result == node && Kept(old(node.tree), old(node.ids), node.ids, known)
    ensures IsImage(node.data) && result != null ==> fresh(result)
    ensures node.data.Element? && !IsImage(node.data) ==> Among(node.children, known) == NonImages(old(node.children))
    decreases node.repr, 1
  {
    hide Converted, ConvertedAll, KeptAll, Rewritten, HasNone;
    ImagesBecomeLinks(node.tree);
    match node.data {
      case Element(name, attrs) =>
        if name == IMG {
          var src := Find(attrs, "src");
          ImageConverted(node.tree);
          match src {
            case Some(value) => result := NewLink(attrs, value);
            case None => result := null;
          }
        } else {
          ChildIds(node);
          ProcessChildren(node, known);
          ChildIds(node);
          KeptInOrder(old(node.tree.children), old(node.ids.below), node.ids.below, old(node.children), node.children, known);
          ElementConverted(old(node.tree));
          result := node;
        }
      case _ =>
        OtherConverted(node.tree);
        result := node;
    }
  }

  lemma ImageConverted(t: Tree)
    requires t.data.Element? && t.data.name == IMG
    ensures Converted(t) == match Find(t.data.attrs, "src") case None => None case Some(src) => Some(Link(t.data.attrs, src))
  {
  }

  lemma ElementConverted(t: Tree)
    requires t.data.Element? && t.data.name != IMG
    ensures Converted(t) == Some(Tree(t.data, ConvertedAll(t.children)))
  {
  }

  lemma OtherConverted(t: Tree)
    requires !t.data.Element?
    ensures Converted(t) == Some(t)
  {
  }

  lemma Opened(node: Node)
    requires node.Valid()
    ensures node in node.repr && Separate(node.children, node) && StandFor(node.children, node.tree.children)
    ensures node.tree.data == node.data && node.ids.node == node && Named(node.children, node.ids.below)
    ensures forall c | c in node.children :: c in c.repr && c.repr < node.repr
  {
    forall c | c in node.children ensures c in c.repr && c.repr < node.repr {
      assert c.Valid();
    }
  }

  lemma Closed(node: Node, acc: set<Node>)
    requires Separate(node.children, node) && StandFor(node.children, node.tree.children) && Below(node.children, acc)
    requires node.tree.data == node.data && node.repr == {node} + acc && node !in acc
    requires node.ids.node == node && Named(node.children, node.ids.below)
    ensures node.Valid()
  {
  }

  lemma InOwnRepr(node: Node)
    requires node.Valid()
    ensures node in node.repr && node.tree.data == node.data && node.ids.node == node
  {
  }

  ghost predicate Below(nodes: seq<Node>, acc: set<Node>)
    reads nodes
  {
    forall i | 0 <= i < |nodes| :: nodes[i] in nodes[i].repr && nodes[i].repr <= acc
  }

  ghost predicate Apart(nodes: seq<Node>, acc: set<Node>)
    reads nodes
  {
    forall i | 0 <= i < |nodes| :: nodes[i] in nodes[i].repr && nodes[i].repr !! acc
  }

  /** Between two rounds of the loop: the nodes that were kept, with everything below them in `acc`, and the
      nodes that are still as they were, each with the trees that they stand for. */
  ghost predicate Halfway(done: seq<Node>, doneTrees: seq<Tree>, rest: seq<Node>, restTrees: seq<Tree>,
                          above: Node, acc: set<Node>)
    reads done, rest, set c, o | c in done && o in c.repr :: o
    reads set c, o | c in rest && o in c.repr :: o
  {
    && Separate(done, above) && StandFor(done, doneTrees) && Below(done, acc)
    && Separate(rest, above) && StandFor(rest, restTrees) && Apart(rest, acc)
    && above !in acc
  }

  lemma AtStart(node: Node)
    requires node.Valid()
    ensures Halfway([], [], node.children, node.tree.children, node, {})
    ensures forall c | c in node.children :: c.repr < node.repr
    ensures Named(node.children, node.ids.below) && |node.ids.below| == |node.tree.children|
    ensures ConvertedAll([]) == []
  {
    Opened(node);
  }

  lemma FirstOfRest(done: seq<Node>, doneTrees: seq<Tree>, rest: seq<Node>, restTrees: seq<Tree>, above: Node, acc: set<Node>)
    requires Halfway(done, doneTrees, rest, restTrees, above, acc) && rest != []
    ensures rest[0].Valid() && |restTrees| > 0 && rest[0].tree == restTrees[0]
    ensures rest[0].repr !! acc && above !in rest[0].repr && Apart(rest[1..], rest[0].repr)
    ensures Halfway(done, doneTrees, rest[1..], restTrees[1..], above, acc)
  {
    hide Node.Valid;
  }

  lemma OneMore(done: seq<Node>, doneTrees: seq<Tree>, rest: seq<Node>, restTrees: seq<Tree>, above: Node, acc: set<Node>, next: Node)
    requires Halfway(done, doneTrees, rest, restTrees, above, acc)
    requires next.Valid() && above !in next.repr && next.repr !! acc && Apart(rest, next.repr)
    ensures Halfway(done + [next], doneTrees + [next.tree], rest, restTrees, above, acc + next.repr)
  {
    InOwnRepr(next);
    hide Node.Valid;
  }

  /** Processing one child leaves its siblings alone, those that are done and those that are not. */
  method ProcessChild(child: Node, ghost done: seq<Node>, ghost doneTrees: seq<Tree>, ghost rest: seq<Node>,
                      ghost restTrees: seq<Tree>, ghost above: Node, ghost acc: set<Node>,
                      ghost doneIds: seq<Ids>, ghost restIds: seq<Ids>, ghost known: set<Node>)
    returns (result: Node?)
    requires Halfway(done, doneTrees, rest, restTrees, above, acc) && Named(done, doneIds) && Named(rest, restIds)
    requires child.Valid() && child.repr <= known && child.repr !! acc && above !in child.repr && Apart(rest, child.repr)
    modifies child.repr
    ensures match Converted(old(child.tree))
            case None => result == null
            case Some(t) =>
              && result != null && result.Valid() && result.tree == t && fresh(result.repr - old(child.repr))
              && result.repr !! acc && above !in result.repr && Apart(rest, result.repr)
    ensures Halfway(done, doneTrees, rest, restTrees, above, acc)
    ensures forall c | c in rest :: c.repr == old(c.repr)
    ensures Named(done, doneIds) && Named(rest, restIds)
    ensures if IsImage(child.data) then result != null ==> fresh(result)
            else result == child && Kept(old(child.tree), old(child.ids), child.ids, known)
    decreases child.repr, 2
  {
    hide Converted, Node.Valid, Kept;
    assert forall c | c in done :: c.repr !! child.repr;
    result := ProcessNode(child, known);
  }

  /** Gives the list of children back to its node. */
  method SetChildren(node: Node, children: seq<Node>, ghost trees: seq<Tree>, ghost ids: seq<Ids>, ghost acc: set<Node>)
    requires Halfway(children, trees, [], [], node, acc) && Named(children, ids)
    modifies node
    ensures node.ids == Ids(node, ids)
    ensures node.Valid() && node.tree == Tree(node.data, trees) && node.repr == {node} + acc
    ensures node.children == children
  {
    hide Node.Valid;
    assert node !in children;
    node.children := children;
    node.tree := Tree(node.data, trees);
    node.ids := Ids(node, ids);
    node.repr := {node} + acc;
    Closed(node, acc);
  }

  lemma NextOf<T>(s: seq<T>, i: nat, t: seq<T>, k: nat)
    requires i < |s| && k <= |t| && s[i..] == t[k..]
    ensures k < |t| && s[i] == t[k] && s[i + 1..] == t[k + 1..] && t[k..][1..] == t[k + 1..] && t[k..][0] == t[k]
  {
    assert s[i..][0] == s[i] && s[i..][1..] == s[i + 1..];
    assert |t[k..]| > 0 && t[k..][0] == t[k] && t[k..][1..] == t[k + 1..];
  }

  lemma Removed<T>(s: seq<T>, i: nat)
    requires i < |s|
    ensures var s' := s[..i] + s[i + 1..]; s'[..i] == s[..i] && s'[i..] == s[i + 1..]
  {
  }

  lemma Replaced<T>(s: seq<T>, i: nat, x: T)
    requires i < |s|
    ensures var s' := s[i := x]; s'[..i + 1] == s[..i] + [x] && s'[i + 1..] == s[i + 1..]
  {
  }

  lemma NamedNext(nodes: seq<Node>, ids: seq<Ids>)
    requires Named(nodes, ids) && nodes != []
    ensures ids != [] && nodes[0].ids == ids[0] && Named(nodes[1..], ids[1..])
  {
  }

  lemma NamedAppend(nodes: seq<Node>, ids: seq<Ids>, n: Node)
    requires Named(nodes, ids)
    ensures Named(nodes + [n], ids + [n.ids])
  {
  }

  lemma NoChildren(known: set<Node>)
    ensures Named([], []) && KeptAll([], [], [], known)
  {
  }

  /** Before a round of the loop over the children: the first k of those that there were are done, and the first
      i of those that there are now are what is left of them. */
  ghost predicate AtRound(children: seq<Node>, i: nat, before: seq<Node>, k: nat, trees: seq<Tree>, ids: seq<Ids>,
                          doneIds: seq<Ids>, node: Node, acc: set<Node>, known: set<Node>)
    requires i <= |children| && k <= |before|
    reads children[..i], set c, o | c in children[..i] && o in c.repr :: o
    reads before[k..], set c, o | c in before[k..] && o in c.repr :: o
  {
    && |before| == |trees| == |ids| && children[i..] == before[k..]
    && Halfway(children[..i], ConvertedAll(trees[..k]), before[k..], trees[k..], node, acc)
    && Named(children[..i], doneIds) && Named(before[k..], ids[k..])
    && KeptAll(trees[..k], ids[..k], doneIds, known)
  }

  lemma FirstRound(node: Node, known: set<Node>)
    requires node.Valid()
    ensures AtRound(node.children, 0, node.children, 0, node.tree.children, node.ids.below, [], node, {}, known)
    ensures forall c | c in node.children :: c.repr < node.repr
  {
    AtStart(node);
    NoChildren(known);
    hide Node.Valid, Halfway;
    var before, trees, ids := node.children, node.tree.children, node.ids.below;
    assert before[..0] == [] && trees[..0] == [] && ids[..0] == [];
    assert before[0..] == before && trees[0..] == trees && ids[0..] == ids;
  }

  lemma NextChild(children: seq<Node>, i: nat, before: seq<Node>, k: nat, trees: seq<Tree>, ids: seq<Ids>,
                  doneIds: seq<Ids>, node: Node, acc: set<Node>, known: set<Node>)
    requires i < |children| && k <= |before| && AtRound(children, i, before, k, trees, ids, doneIds, node, acc, known)
    ensures k < |before| == |trees| == |ids| && children[i] in before[k..] && children[i + 1..] == before[k + 1..]
    ensures forall c | c in before[k + 1..] :: c in before[k..]
    ensures children[i].Valid() && children[i].repr !! acc && node !in children[i].repr
    ensures children[i].tree == trees[k] && children[i].ids == ids[k] && children[i].data == trees[k].data
    ensures Apart(before[k + 1..], children[i].repr) && children[i] in children[i].repr
    ensures Halfway(children[..i], ConvertedAll(trees[..k]), before[k + 1..], trees[k + 1..], node, acc)
    ensures Named(children[..i], doneIds) && Named(before[k + 1..], ids[k + 1..])
    ensures KeptAll(trees[..k], ids[..k], doneIds, known)
  {
    hide Node.Valid, Halfway, Apart, ConvertedAll, KeptAll, Named;
    FirstOfRest(children[..i], ConvertedAll(trees[..k]), before[k..], trees[k..], node, acc);
    NextOf(children, i, before, k);
    InOwnRepr(children[i]);
    NamedNext(before[k..], ids[k..]);
    assert ids[k..][1..] == ids[k + 1..] && ids[k..][0] == ids[k];
    assert trees[k..][1..] == trees[k + 1..] && trees[k..][0] == trees[k];
  }

  lemma ChildDropped(children: seq<Node>, i: nat, before: seq<Node>, k: nat, trees: seq<Tree>, ids: seq<Ids>,
                     doneIds: seq<Ids>, node: Node, acc: set<Node>, known: set<Node>)
    requires i < |children| && k < |before| == |trees| == |ids| && children[i + 1..] == before[k + 1..]
    requires Halfway(children[..i], ConvertedAll(trees[..k]), before[k + 1..], trees[k + 1..], node, acc)
    requires Named(children[..i], doneIds) && Named(before[k + 1..], ids[k + 1..])
    requires KeptAll(trees[..k], ids[..k], doneIds, known) && Converted(trees[k]).None?
    ensures AtRound(children[..i] + children[i + 1..], i, before, k + 1, trees, ids, doneIds, node, acc, known)
  {
    hide Node.Valid, Halfway, ConvertedAll, KeptAll, Named;
    ConvertedPrefix(trees, k);
    KeptPrefix(trees, ids, doneIds, k, [], known);
    Removed(children, i);
    assert doneIds + [] == doneIds;
    assert ConvertedAll(trees[..k]) + [] == ConvertedAll(trees[..k]);
  }

  lemma ChildKept(children: seq<Node>, i: nat, before: seq<Node>, k: nat, trees: seq<Tree>, ids: seq<Ids>,
                  doneIds: seq<Ids>, node: Node, acc: set<Node>, known: set<Node>, next: Node)
    requires i < |children| && k < |before| == |trees| == |ids| && children[i + 1..] == before[k + 1..]
    requires Halfway(children[..i], ConvertedAll(trees[..k]), before[k + 1..], trees[k + 1..], node, acc)
    requires Named(children[..i], doneIds) && Named(before[k + 1..], ids[k + 1..])
    requires KeptAll(trees[..k], ids[..k], doneIds, known) && Converted(trees[k]) == Some(next.tree)
    requires next.Valid() && node !in next.repr && next.repr !! acc && Apart(before[k + 1..], next.repr)
    requires if IsImage(trees[k].data) then next !in known else Kept(trees[k], ids[k], next.ids, known)
    ensures AtRound(children[i := next], i + 1, before, k + 1, trees, ids, doneIds + [next.ids], node, acc + next.repr, known)
  {
    hide Node.Valid, Halfway, Apart, ConvertedAll, KeptAll, Named, Kept, Converted;
    ConvertedPrefix(trees, k);
    InOwnRepr(next);
    KeptPrefix(trees, ids, doneIds, k, [next.ids], known);
    NamedAppend(children[..i], doneIds, next);
    OneMore(children[..i], ConvertedAll(trees[..k]), before[k + 1..], trees[k + 1..], node, acc, next);
    Replaced(children, i, next);
  }

  lemma AtEnd(children: seq<Node>, i: nat, before: seq<Node>, k: nat, trees: seq<Tree>, ids: seq<Ids>,
              doneIds: seq<Ids>, node: Node, acc: set<Node>, known: set<Node>)
    requires i == |children| && k <= |before| && AtRound(children, i, before, k, trees, ids, doneIds, node, acc, known)
    ensures Halfway(children, ConvertedAll(trees), [], [], node, acc) && Named(children, doneIds)
    ensures KeptAll(trees, ids, doneIds, known)
  {
    hide Node.Valid, ConvertedAll, KeptAll;
    assert children[..i] == children && before[k..] == [];
    assert k == |before|;
    assert trees[..k] == trees && trees[k..] == [] && ids[..k] == ids;
  }

  method ProcessChildren(node: Node, ghost known: set<Node>)
    requires node.Valid() && node.repr <= known
    modifies node.repr
    ensures node.Valid() && node.tree == Tree(node.data, ConvertedAll(old(node.tree.children)))
    ensures fresh(node.repr - old(node.repr))
    ensures node.ids.node == node && KeptAll(old(node.tree.children), old(node.ids.below), node.ids.below, known)
    decreases node.repr, 0
  {
    hide Converted, ConvertedAll, Node.Valid, Halfway, Apart, Kept, KeptAll, Named, AtRound;
    FirstRound(node, known);
    InOwnRepr(node);
    ghost var trees, ids, before, repr := node.tree.children, node.ids.below, node.children, node.repr;
    ghost var k, acc: set<Node>, doneIds: seq<Ids> := 0, {}, [];
    var children: seq<Node> := node.children;   // borrowed for the whole loop
    var i := 0;
    assert before[0..] == before;
    while i < |children|
      invariant k <= |before| && i <= |children|
      invariant AtRound(children, i, before, k, trees, ids, doneIds, node, acc, known)
      invariant forall c | c in before[k..] :: c.repr < repr
      invariant fresh(acc - repr)
      decreases |before| - k
    {
      var child := children[i];
      NextChild(children, i, before, k, trees, ids, doneIds, node, acc, known);
      var newChild := ProcessChild(child, children[..i], ConvertedAll(trees[..k]), before[k + 1..], trees[k + 1..],
                                   node, acc, doneIds, ids[k + 1..], known);
      if newChild == null {
        ChildDropped(children, i, before, k, trees, ids, doneIds, node, acc, known);
        children := children[..i] + children[i + 1..];
      } else {
        ChildKept(children, i, before, k, trees, ids, doneIds, node, acc, known, newChild);
        children, doneIds := children[i := newChild], doneIds + [newChild.ids];
        acc := acc + newChild.repr;
        i := i + 1;
      }
      k := k + 1;
    }
    AtEnd(children, i, before, k, trees, ids, doneIds, node, acc, known);
    SetChildren(node, children, ConvertedAll(trees), doneIds, acc);
  }
}
