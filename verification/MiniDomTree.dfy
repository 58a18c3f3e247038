/** The tree a miniature DOM element stands for, and the token stream of a forest: building the
    tokens of a forest gives back the forest. */
module MiniDomTree {
  import opened Prelude
  import opened MiniDom

  datatype Tree = Branch(tag: string, attrs: seq<Attr>, kids: seq<Tree>) | Words(text: string)

  /** The tree below a node. */
  function TreeOf(nodes: seq<Node>, i: nat): Tree
    requires DownLinks(nodes) && i < |nodes|
    decreases |nodes| - i, 1, 0
  {
    match nodes[i]
    case Text(text, _) => Words(text)
    case Elem(tag, attrs, children, _) =>
      assert IsElem(nodes, i);
      Branch(tag, attrs, TreesOf(nodes, children, i))
  }

  function TreesOf(nodes: seq<Node>, ids: seq<nat>, above: nat): (r: seq<Tree>)
    requires DownLinks(nodes) && above < |nodes| && forall k :: 0 <= k < |ids| ==> above < ids[k] < |nodes|
    ensures |r| == |ids|
    decreases |nodes| - above, 0, |ids|
  {
    if ids == [] then [] else [TreeOf(nodes, ids[0])] + TreesOf(nodes, ids[1..], above)
  }

  /** The forest below an element. */
  function Inner(nodes: seq<Node>, x: nat): seq<Tree>
    requires DownLinks(nodes) && IsElem(nodes, x)
  {
    TreesOf(nodes, nodes[x].children, x)
  }

  // ---------------------------------------------------------------- tokens

  predicate DistinctNames(attrs: seq<Attr>) {
    forall i, j :: 0 <= i < j < |attrs| ==> attrs[i].name != attrs[j].name
  }

  /** A tree that can be written down: void elements have no children, attribute names are
      distinct. */
  predicate Regular(t: Tree) {
    match t
    case Words(_) => true
    case Branch(tag, attrs, kids) =>
      && DistinctNames(attrs) && (forall i :: 0 <= i < |attrs| ==> attrs[i].name != "__proto__")
      && (IsVoid(tag) ==> kids == [])
      && AllRegular(kids)
  }

  predicate AllRegular(f: seq<Tree>) {
    f == [] || (Regular(f[0]) && AllRegular(f[1..]))
  }

  function Tokens(t: Tree): seq<Token> {
    match t
    case Words(text) => [Chars(text)]
    case Branch(tag, attrs, kids) =>
      if IsVoid(tag) then [Open(tag, attrs, false)] else [Open(tag, attrs, false)] + ForestTokens(kids) + [Close(tag)]
  }

  function ForestTokens(f: seq<Tree>): seq<Token> {
    if f == [] then [] else Tokens(f[0]) + ForestTokens(f[1..])
  }

  // ------------------------------------------------------- building them

  lemma {:induction false} SetNew(attrs: seq<Attr>, a: Attr)
    requires a.name != "__proto__" && forall i :: 0 <= i < |attrs| ==> attrs[i].name != a.name
    ensures SetAttribute(attrs, a) == attrs + [a]
  {
    if attrs != [] { SetNew(attrs[1..], a); }
  }

  lemma {:induction false} SetDistinct(attrs: seq<Attr>, more: seq<Attr>)
    requires DistinctNames(attrs + more) && forall i :: 0 <= i < |more| ==> more[i].name != "__proto__"
    ensures SetAttributes(attrs, more) == attrs + more
    decreases |more|
  {
    if more == [] {
      assert attrs + more == attrs;
    } else {
      var all := attrs + more;
      forall i | 0 <= i < |attrs| ensures attrs[i].name != more[0].name {
        assert all[i] == attrs[i] && all[|attrs|] == more[0];
      }
      SetNew(attrs, more[0]);
      assert (attrs + [more[0]]) + more[1..] == all;
      SetDistinct(attrs + [more[0]], more[1..]);
    }
  }

  /** Nodes from i on are the same, so the trees from i on are. */
  ghost predicate SameFrom(nodes: seq<Node>, more: seq<Node>, i: nat) {
    |nodes| <= |more| && forall j :: i <= j < |nodes| ==> more[j] == nodes[j]
  }

  lemma {:induction false} TreeStays(nodes: seq<Node>, more: seq<Node>, i: nat)
    requires DownLinks(nodes) && DownLinks(more) && i < |nodes| && SameFrom(nodes, more, i)
    ensures TreeOf(more, i) == TreeOf(nodes, i)
    decreases |nodes| - i, 1, 0
  {
    if nodes[i].Elem? {
      assert IsElem(nodes, i);
      TreesStay(nodes, more, nodes[i].children, i);
    }
  }

  lemma {:induction false} TreesStay(nodes: seq<Node>, more: seq<Node>, ids: seq<nat>, above: nat)
    requires DownLinks(nodes) && DownLinks(more) && above < |nodes| <= |more|
    requires forall k :: 0 <= k < |ids| ==> above < ids[k] < |nodes| && SameFrom(nodes, more, ids[k])
    ensures TreesOf(more, ids, above) == TreesOf(nodes, ids, above)
    decreases |nodes| - above, 0, |ids|
  {
    if ids != [] {
      TreeStays(nodes, more, ids[0]);
      TreesStay(nodes, more, ids[1..], above);
    }
  }

  lemma {:induction false} TreesSplit(nodes: seq<Node>, a: seq<nat>, b: seq<nat>, above: nat)
    requires DownLinks(nodes) && above < |nodes|
    requires forall k :: 0 <= k < |a| ==> above < a[k] < |nodes|
    requires forall k :: 0 <= k < |b| ==> above < b[k] < |nodes|
    ensures (forall k :: 0 <= k < |a + b| ==> above < (a + b)[k] < |nodes|)
    ensures TreesOf(nodes, a + b, above) == TreesOf(nodes, a, above) + TreesOf(nodes, b, above)
    decreases |a|
  {
    if a == [] {
      assert a + b == b;
    } else {
      assert (a + b)[1..] == a[1..] + b;
      TreesSplit(nodes, a[1..], b, above);
    }
  }

  /** From s the builder has reached r by adding the forest f below the top of the stack. */
  ghost predicate Adds(s: State, r: State, ids: seq<nat>, f: seq<Tree>) {
    && Usable(s) && r.stack == s.stack && DownLinks(r.nodes) && |s.nodes| <= |r.nodes|
    && (forall j :: 0 <= j < |s.nodes| && j != Top(s) ==> r.nodes[j] == s.nodes[j])
    && r.nodes[Top(s)] == s.nodes[Top(s)].(children := s.nodes[Top(s)].children + ids)
    && (forall k :: 0 <= k < |ids| ==> |s.nodes| <= ids[k] < |r.nodes|)
    && TreesOf(r.nodes, ids, Top(s)) == f
  }

  lemma AddsJoin(s: State, m: State, r: State, a: seq<nat>, b: seq<nat>, f: seq<Tree>, g: seq<Tree>)
    requires Adds(s, m, a, f) && Adds(m, r, b, g)
    ensures Adds(s, r, a + b, f + g)
  {
    var top := Top(s);
    forall k | 0 <= k < |a| ensures SameFrom(m.nodes, r.nodes, a[k]) {
    }
    TreesStay(m.nodes, r.nodes, a, top);
    TreesSplit(r.nodes, a, b, top);
    assert (s.nodes[top].children + a) + b == s.nodes[top].children + (a + b);
  }

  lemma LeafAdds(s: State, n: Node, t: Tree)
    requires Usable(s) && DownLinks(s.nodes) && (n.Elem? ==> n.children == [])
    requires t == if n.Elem? then Branch(n.tag, n.attrs, []) else Words(n.text)
    ensures Adds(s, s.(nodes := Append(s.nodes, Top(s), n)), [|s.nodes|], [t])
  {
    var r := s.(nodes := Append(s.nodes, Top(s), n));
    AppendKeepsDownLinks(s.nodes, Top(s), n);
    assert TreesOf(r.nodes, [|s.nodes|], Top(s)) == [TreeOf(r.nodes, |s.nodes|)] + TreesOf(r.nodes, [], Top(s));
  }

  /** An opened element c of s, its inner forest added, and closed again, is the tree. */
  lemma BranchAdds(s: State, o: State, m: State, tag: string, attrs: seq<Attr>, ids: seq<nat>, kids: seq<Tree>)
    requires Usable(s) && DownLinks(s.nodes)
    requires o == State(Append(s.nodes, Top(s), Elem(tag, attrs, [], None)), s.stack + [|s.nodes|])
    requires Adds(o, m, ids, kids)
    ensures Apply(m, Close(tag)) == State(m.nodes, s.stack)
    ensures Adds(s, State(m.nodes, s.stack), [|s.nodes|], [Branch(tag, attrs, kids)])
  {
    var c := |s.nodes|;
    assert Top(o) == c && o.nodes[c] == Elem(tag, attrs, [], Some(Top(s)));
    assert [] + ids == ids;
    assert m.nodes[c] == Elem(tag, attrs, ids, Some(Top(s)));
    CloseReturns(s.stack, m, tag);
    assert TreeOf(m.nodes, c) == Branch(tag, attrs, kids);
    OneTree(m.nodes, c, Top(s));
  }

  /** Closing the element on top of the stack gives the stack from before it was opened. */
  lemma CloseReturns(stack: seq<nat>, m: State, tag: string)
    requires Usable(m) && stack != [] && |m.stack| == |stack| + 1 && m.stack[..|stack|] == stack && m.nodes[Top(m)].tag == tag
    ensures Apply(m, Close(tag)) == State(m.nodes, stack)
  {
    assert OpenAt(m, tag, |m.stack| - 1) == |stack|;
  }

  lemma OneTree(nodes: seq<Node>, c: nat, above: nat)
    requires DownLinks(nodes) && above < c < |nodes|
    ensures TreesOf(nodes, [c], above) == [TreeOf(nodes, c)]
  {
    assert TreesOf(nodes, [c], above) == [TreeOf(nodes, c)] + TreesOf(nodes, [], above);
  }

  lemma {:induction false} TreeIsBuilt(s: State, t: Tree) returns (ids: seq<nat>)
    requires Usable(s) && DownLinks(s.nodes) && Regular(t)
    ensures Adds(s, Build(s, Tokens(t)), ids, [t])
    decreases t, 1
  {
    ids := [|s.nodes|];
    match t
    case Words(text) =>
      BuildOne(s, Chars(text));
      LeafAdds(s, Text(text, None), t);
    case Branch(tag, attrs, kids) =>
      assert [] + attrs == attrs;
      SetDistinct([], attrs);
      var open := Open(tag, attrs, false);
      BuildOne(s, open);
      if IsVoid(tag) {
        LeafAdds(s, Elem(tag, attrs, [], None), t);
      } else {
        var o := Apply(s, open);
        AppendKeepsDownLinks(s.nodes, Top(s), Elem(tag, attrs, [], None));
        var inner := ForestIsBuilt(o, kids);
        var m := Build(o, ForestTokens(kids));
        BranchAdds(s, o, m, tag, attrs, inner, kids);
        BuildSplits(s, [open], ForestTokens(kids));
        BuildSplits(s, [open] + ForestTokens(kids), [Close(tag)]);
        BuildOne(m, Close(tag));
      }
  }

  lemma BuildOne(s: State, t: Token)
    requires Usable(s)
    ensures Build(s, [t]) == Apply(s, t)
  {
    assert Build(s, [t]) == Build(Apply(s, t), []);
  }

  lemma {:induction false} ForestIsBuilt(s: State, f: seq<Tree>) returns (ids: seq<nat>)
    requires Usable(s) && DownLinks(s.nodes) && AllRegular(f)
    ensures Adds(s, Build(s, ForestTokens(f)), ids, f)
    decreases f, 0
  {
    if f == [] {
      ids := [];
      assert s.nodes[Top(s)].children + [] == s.nodes[Top(s)].children;
    } else {
      var a := TreeIsBuilt(s, f[0]);
      var m := Build(s, Tokens(f[0]));
      var b := ForestIsBuilt(m, f[1..]);
      BuildSplits(s, Tokens(f[0]), ForestTokens(f[1..]));
      AddsJoin(s, m, Build(s, ForestTokens(f)), a, b, [f[0]], f[1..]);
      assert [f[0]] + f[1..] == f;
      ids := a + b;
    }
  }

  /** Building the tokens of a regular forest into an element without children makes it the inner
      forest of the element, closes every element it opens and touches no other node. */
  lemma ForestBuildsBack(nodes: seq<Node>, x: nat, f: seq<Tree>)
    requires DownLinks(nodes) && IsElem(nodes, x) && nodes[x].children == [] && AllRegular(f)
    ensures var r := Build(State(nodes, [x]), ForestTokens(f));
            && r.stack == [x] && DownLinks(r.nodes) && IsElem(r.nodes, x) && Inner(r.nodes, x) == f
            && |nodes| <= |r.nodes| && forall j :: 0 <= j < |nodes| && j != x ==> r.nodes[j] == nodes[j]
  {
    var ids := ForestIsBuilt(State(nodes, [x]), f);
    assert [] + ids == ids;
  }
}
