/**
 The miniature DOM of the channel-proposal test at token level: nodes with parent and child links,
 the tree builder with its stack of open elements, and the walks up and down. A node is its index
 in the sequence of nodes created so far.
 */
module MiniDom {
  import opened Prelude

  datatype Attr = Attr(name: string, value: string)

  datatype Node =
    | Elem(tag: string, attrs: seq<Attr>, children: seq<nat>, parent: Option<nat>)
    | Text(text: string, parent: Option<nat>)

  datatype Token = Open(tag: string, attrs: seq<Attr>, selfClosing: bool) | Close(tag: string) | Chars(text: string)

  // ----------------------------------------------------------- the builder

  /** VOID[tag] is truthy; a plain object also inherits constructor. */
  predicate IsVoid(tag: string) {
    tag == "input" || tag == "br" || tag == "hr" || tag == "img" || tag == "use" || tag == "constructor"
  }

  /** Property assignment, in insertion order; assigning a string to __proto__ adds no property. */
  function SetAttribute(attrs: seq<Attr>, a: Attr): seq<Attr> {
    if a.name == "__proto__" then attrs
    else if attrs == [] then [a]
    else if attrs[0].name == a.name then [a] + attrs[1..]
    else [attrs[0]] + SetAttribute(attrs[1..], a)
  }

  function SetAttributes(attrs: seq<Attr>, more: seq<Attr>): seq<Attr>
    decreases |more|
  {
    if more == [] then attrs else SetAttributes(SetAttribute(attrs, more[0]), more[1..])
  }

  /** getAttribute */
  function GetAttribute(attrs: seq<Attr>, name: string): Option<string> {
    if attrs == [] then None
    else if attrs[0].name == name then Some(attrs[0].value)
    else GetAttribute(attrs[1..], name)
  }

  lemma {:induction false} GetAfterSet(attrs: seq<Attr>, a: Attr, name: string)
    ensures GetAttribute(SetAttribute(attrs, a), name)
         == if a.name == name && name != "__proto__" then Some(a.value) else GetAttribute(attrs, name)
  {
    if attrs != [] && attrs[0].name != a.name { GetAfterSet(attrs[1..], a, name); }
  }

  /** Of several attributes with one name the last one counts. */
  lemma {:induction false} LastAttributeWins(attrs: seq<Attr>, more: seq<Attr>, k: nat)
    requires k < |more| && more[k].name != "__proto__"
    requires forall i :: k < i < |more| ==> more[i].name != more[k].name
    ensures GetAttribute(SetAttributes(attrs, more), more[k].name) == Some(more[k].value)
    decreases |more|
  {
    if k > 0 {
      LastAttributeWins(SetAttribute(attrs, more[0]), more[1..], k - 1);
    } else {
      GetAfterSet(attrs, more[0], more[0].name);
      OthersDoNotMatter(SetAttribute(attrs, more[0]), more[1..], more[0].name);
    }
  }

  lemma {:induction false} OthersDoNotMatter(attrs: seq<Attr>, more: seq<Attr>, name: string)
    requires forall i :: 0 <= i < |more| ==> more[i].name != name
    ensures GetAttribute(SetAttributes(attrs, more), name) == GetAttribute(attrs, name)
    decreases |more|
  {
    if more != [] {
      GetAfterSet(attrs, more[0], name);
      OthersDoNotMatter(SetAttribute(attrs, more[0]), more[1..], name);
    }
  }

  /** The nodes and the stack of open elements. */
  datatype State = State(nodes: seq<Node>, stack: seq<nat>)

  predicate IsElem(nodes: seq<Node>, i: nat) {
    i < |nodes| && nodes[i].Elem?
  }

  /** The stack is never empty and holds elements. */
  ghost predicate Usable(s: State) {
    s.stack != [] && forall k :: 0 <= k < |s.stack| ==> IsElem(s.nodes, s.stack[k])
  }

  function Top(s: State): nat
    requires s.stack != []
  {
    s.stack[|s.stack| - 1]
  }

  /** Create a node and append it to the element p. */
  function Append(nodes: seq<Node>, p: nat, n: Node): seq<Node>
    requires IsElem(nodes, p)
  {
    nodes[p := nodes[p].(children := nodes[p].children + [|nodes|])] + [n.(parent := Some(p))]
  }

  /** The position of the innermost open element with this tag, not counting the root, or 0. */
  function OpenAt(s: State, tag: string, i: nat): (r: nat)
    requires Usable(s) && i < |s.stack|
    ensures r <= i
    ensures r > 0 ==> s.nodes[s.stack[r]].tag == tag
    ensures forall k :: r < k <= i ==> s.nodes[s.stack[k]].tag != tag
  {
    if i == 0 || s.nodes[s.stack[i]].tag == tag then i else OpenAt(s, tag, i - 1)
  }

  function Apply(s: State, t: Token): (r: State)
    requires Usable(s)
    ensures Usable(r)
  {
    match t
    case Close(tag) =>
      var i := OpenAt(s, tag, |s.stack| - 1);
      if i > 0 then s.(stack := s.stack[..i]) else s
    case Open(tag, attrs, selfClosing) =>
      var nodes := Append(s.nodes, Top(s), Elem(tag, SetAttributes([], attrs), [], None));
      State(nodes, if selfClosing || IsVoid(tag) then s.stack else s.stack + [|s.nodes|])
    case Chars(text) => s.(nodes := Append(s.nodes, Top(s), Text(text, None)))
  }

  /** What the tokens do, in terms of the tags. A start tag appends an element, and opens it unless it is
      self-closing, one of the five void elements, or called constructor. A text is appended. An end tag
      closes the innermost open element with its name, with all that is open in it, but never the root; it
      does nothing if there is none. */
  lemma TokensDo(s: State, tag: string, attrs: seq<Attr>, selfClosing: bool, text: string, k: nat)
    requires Usable(s) && k < |s.stack|
    ensures var r, top := Apply(s, Open(tag, attrs, selfClosing)), s.stack[|s.stack| - 1];
            && |r.nodes| == |s.nodes| + 1 && r.nodes[|s.nodes|] == Elem(tag, SetAttributes([], attrs), [], Some(top))
            && r.nodes[top].children == s.nodes[top].children + [|s.nodes|]
            && r.stack == if selfClosing || tag in {"input", "br", "hr", "img", "use", "constructor"} then s.stack else s.stack + [|s.nodes|]
    ensures var r, top := Apply(s, Chars(text)), s.stack[|s.stack| - 1];
            && |r.nodes| == |s.nodes| + 1 && r.nodes[|s.nodes|] == Text(text, Some(top)) && r.stack == s.stack
            && r.nodes[top].children == s.nodes[top].children + [|s.nodes|]
    ensures var r := Apply(s, Close(tag));
            && r.nodes == s.nodes
            && (k > 0 && s.nodes[s.stack[k]].tag == tag && (forall j :: k < j < |s.stack| ==> s.nodes[s.stack[j]].tag != tag) ==> r.stack == s.stack[..k])
            && ((forall j :: 0 < j < |s.stack| ==> s.nodes[s.stack[j]].tag != tag) ==> r.stack == s.stack)
  {
  }

  function Build(s: State, tokens: seq<Token>): (r: State)
    requires Usable(s)
    ensures Usable(r)
    decreases |tokens|
  {
    if tokens == [] then s else Build(Apply(s, tokens[0]), tokens[1..])
  }

  lemma {:induction false} BuildSplits(s: State, a: seq<Token>, b: seq<Token>)
    requires Usable(s)
    ensures Build(s, a + b) == Build(Build(s, a), b)
    decreases |a|
  {
    if a == [] {
      assert a + b == b;
    } else {
      assert (a + b)[1..] == a[1..] + b;
      BuildSplits(Apply(s, a[0]), a[1..], b);
    }
  }

  // ------------------------------------------------------ links and the stack

  /** Every child is a younger node whose parent link points back. */
  ghost predicate DownLinks(nodes: seq<Node>) {
    forall p: nat :: IsElem(nodes, p) ==>
      forall k :: 0 <= k < |nodes[p].children| ==>
        p < nodes[p].children[k] < |nodes| && nodes[nodes[p].children[k]].parent == Some(p)
  }

  /** The parent link of an element is matched by a child link. */
  ghost predicate UpLinks(nodes: seq<Node>) {
    forall c: nat :: IsElem(nodes, c) && nodes[c].parent.Some? ==>
      IsElem(nodes, nodes[c].parent.value) && c in nodes[nodes[c].parent.value].children
  }

  ghost predicate Linked(nodes: seq<Node>) {
    DownLinks(nodes) && UpLinks(nodes)
  }

  /** The stack is the rightmost path from its bottom: each open element is the last child of the
      one below it. */
  ghost predicate RightmostPath(s: State) {
    && Usable(s)
    && forall k :: 0 <= k < |s.stack| - 1 ==> LastChild(s.nodes, s.stack[k], s.stack[k + 1])
  }

  predicate LastChild(nodes: seq<Node>, p: nat, c: nat) {
    IsElem(nodes, p) && nodes[p].children != [] && nodes[p].children[|nodes[p].children| - 1] == c
  }

  lemma AppendKeepsDownLinks(nodes: seq<Node>, p: nat, n: Node)
    requires DownLinks(nodes) && IsElem(nodes, p) && (n.Elem? ==> n.children == [])
    ensures DownLinks(Append(nodes, p, n))
  {
    var more := Append(nodes, p, n);
    forall q: nat | IsElem(more, q)
      ensures forall k :: 0 <= k < |more[q].children| ==>
        q < more[q].children[k] < |more| && more[more[q].children[k]].parent == Some(q)
    {
      if q < |nodes| { assert IsElem(nodes, q); }
    }
  }

  lemma AppendKeepsLinks(nodes: seq<Node>, p: nat, n: Node)
    requires Linked(nodes) && IsElem(nodes, p) && (n.Elem? ==> n.children == [])
    ensures Linked(Append(nodes, p, n))
  {
    var more := Append(nodes, p, n);
    AppendKeepsDownLinks(nodes, p, n);
    forall c: nat | IsElem(more, c) && more[c].parent.Some?
      ensures IsElem(more, more[c].parent.value) && c in more[more[c].parent.value].children
    {
      if c < |nodes| {
        assert IsElem(nodes, c);
      } else {
        assert more[p].children[|nodes[p].children|] == c;
      }
    }
  }

  /** With the path going down to ever younger nodes, an element is on the stack only once. */
  lemma {:induction false} StackGrows(s: State, i: nat, j: nat)
    requires DownLinks(s.nodes) && RightmostPath(s) && i < j < |s.stack|
    ensures s.stack[i] < s.stack[j]
    decreases j - i
  {
    assert LastChild(s.nodes, s.stack[j - 1], s.stack[j]);
    if i < j - 1 { StackGrows(s, i, j - 1); }
  }

  lemma AppendKeepsPath(s: State, n: Node)
    requires DownLinks(s.nodes) && RightmostPath(s)
    ensures RightmostPath(s.(nodes := Append(s.nodes, Top(s), n)))
    ensures n.Elem? ==> RightmostPath(State(Append(s.nodes, Top(s), n), s.stack + [|s.nodes|]))
  {
    var more, last := Append(s.nodes, Top(s), n), |s.stack| - 1;
    forall k | 0 <= k < last ensures LastChild(more, s.stack[k], s.stack[k + 1]) {
      assert LastChild(s.nodes, s.stack[k], s.stack[k + 1]);
      StackGrows(s, k, last);
    }
    assert LastChild(more, Top(s), |s.nodes|);
    var stack := s.stack + [|s.nodes|];
    assert forall k :: 0 <= k < |s.stack| ==> stack[k] == s.stack[k];
  }

  lemma ApplyKeepsShape(s: State, t: Token)
    requires Linked(s.nodes) && RightmostPath(s)
    ensures Linked(Apply(s, t).nodes) && RightmostPath(Apply(s, t)) && Apply(s, t).stack[0] == s.stack[0]
  {
    match t
    case Close(tag) =>
    case Open(tag, attrs, _) =>
      AppendKeepsLinks(s.nodes, Top(s), Elem(tag, SetAttributes([], attrs), [], None));
      AppendKeepsPath(s, Elem(tag, SetAttributes([], attrs), [], None));
    case Chars(text) =>
      AppendKeepsLinks(s.nodes, Top(s), Text(text, None));
      AppendKeepsPath(s, Text(text, None));
  }

  /** For every token sequence: parent and child links agree, and the stack is the rightmost path
      from the root, which is never popped. */
  lemma {:induction false} BuildKeepsShape(s: State, tokens: seq<Token>)
    requires Linked(s.nodes) && RightmostPath(s)
    ensures Linked(Build(s, tokens).nodes) && RightmostPath(Build(s, tokens)) && Build(s, tokens).stack[0] == s.stack[0]
    decreases |tokens|
  {
    if tokens != [] {
      ApplyKeepsShape(s, tokens[0]);
      BuildKeepsShape(Apply(s, tokens[0]), tokens[1..]);
    }
  }

  // ----------------------------------------------- walking up and walking down

  /** contains: walk up from n. */
  predicate Contains(nodes: seq<Node>, x: nat, n: nat)
    decreases n
  {
    n == x || (n < |nodes| && nodes[n].parent.Some? && nodes[n].parent.value < n && Contains(nodes, x, nodes[n].parent.value))
  }

  /** Parent links lead to older nodes, so every walk up ends. */
  ghost predicate ParentsOlder(nodes: seq<Node>) {
    forall n :: 0 <= n < |nodes| && nodes[n].parent.Some? ==> nodes[n].parent.value < n
  }

  /** Where the walk up from n is after k steps. */
  function Up(nodes: seq<Node>, n: nat, k: nat): Option<nat>
    decreases k
  {
    if k == 0 then Some(n)
    else if n < |nodes| && nodes[n].parent.Some? then Up(nodes, nodes[n].parent.value, k - 1)
    else None
  }

  lemma {:induction false} UpStep(nodes: seq<Node>, n: nat, k: nat)
    ensures Up(nodes, n, k + 1)
         == match Up(nodes, n, k) case None => None case Some(m) => if m < |nodes| then nodes[m].parent else None
    decreases k
  {
    if k > 0 && n < |nodes| && nodes[n].parent.Some? {
      UpStep(nodes, nodes[n].parent.value, k - 1);
    } else if k == 0 && n < |nodes| && nodes[n].parent.Some? {
      assert Up(nodes, n, 1) == Up(nodes, nodes[n].parent.value, 0);
    }
  }

  lemma {:induction false} UpEnds(nodes: seq<Node>, n: nat, j: nat, k: nat)
    requires j <= k && Up(nodes, n, j).None?
    ensures Up(nodes, n, k).None?
    decreases k
  {
    if j < k {
      UpEnds(nodes, n, j, k - 1);
      UpStep(nodes, n, k - 1);
    }
  }

  /** The walk up from n meets x. */
  ghost predicate Meets(nodes: seq<Node>, n: nat, x: nat) {
    exists k: nat :: Up(nodes, n, k) == Some(x)
  }

  lemma MeetsStep(nodes: seq<Node>, n: nat, x: nat)
    ensures Meets(nodes, n, x) <==> n == x || (n < |nodes| && nodes[n].parent.Some? && Meets(nodes, nodes[n].parent.value, x))
  {
    assert Up(nodes, n, 0) == Some(n);
    if Meets(nodes, n, x) && n != x {
      var k: nat :| Up(nodes, n, k) == Some(x);
      assert k > 0 && Up(nodes, nodes[n].parent.value, k - 1) == Some(x);
    }
    if n < |nodes| && nodes[n].parent.Some? && Meets(nodes, nodes[n].parent.value, x) {
      var k: nat :| Up(nodes, nodes[n].parent.value, k) == Some(x);
      assert Up(nodes, n, k + 1) == Some(x);
    }
  }

  /** When parents are older, the walk up from n ends, and Contains says whether it meets x. */
  lemma {:induction false} ContainsIsUp(nodes: seq<Node>, x: nat, n: nat)
    requires ParentsOlder(nodes)
    ensures Up(nodes, n, n + 1).None?
    ensures Contains(nodes, x, n) <==> Meets(nodes, n, x)
    decreases n
  {
    MeetsStep(nodes, n, x);
    if n < |nodes| && nodes[n].parent.Some? {
      ContainsIsUp(nodes, x, nodes[n].parent.value);
      UpEnds(nodes, nodes[n].parent.value, nodes[n].parent.value + 1, n);
    }
  }

  lemma {:induction false} BuildKeepsParentsOlder(s: State, tokens: seq<Token>)
    requires Usable(s) && ParentsOlder(s.nodes)
    ensures ParentsOlder(Build(s, tokens).nodes)
    decreases |tokens|
  {
    if tokens != [] { BuildKeepsParentsOlder(Apply(s, tokens[0]), tokens[1..]); }
  }

  /** The elements querySelectorAll visits below x, in its order, from the k-th child on. */
  function Walk(nodes: seq<Node>, x: nat, k: nat): seq<nat>
    requires DownLinks(nodes) && IsElem(nodes, x) && k <= |nodes[x].children|
    decreases |nodes| - x, |nodes[x].children| - k
  {
    if k == |nodes[x].children| then []
    else
      var c := nodes[x].children[k];
      (if nodes[c].Elem? then [c] + Walk(nodes, c, 0) else []) + Walk(nodes, x, k + 1)
  }

  /** The order of the walk: a child before what is below it, and all of that before the next child. */
  lemma WalkInOrder(nodes: seq<Node>, x: nat, k: nat)
    requires DownLinks(nodes) && IsElem(nodes, x) && k < |nodes[x].children|
    ensures var c, rest := nodes[x].children[k], Walk(nodes, x, k + 1);
            Walk(nodes, x, k) == if IsElem(nodes, c) then [c] + Walk(nodes, c, 0) + rest else rest
    ensures Walk(nodes, x, |nodes[x].children|) == []
  {
  }

  /** The nodes among ids that pass a test, in order. */
  function Matching(nodes: seq<Node>, sel: Node -> bool, ids: seq<nat>): seq<nat> {
    if ids == [] then []
    else (if IsElem(nodes, ids[0]) && sel(nodes[ids[0]]) then [ids[0]] else []) + Matching(nodes, sel, ids[1..])
  }

  lemma {:induction false} MatchingSplits(nodes: seq<Node>, sel: Node -> bool, a: seq<nat>, b: seq<nat>)
    ensures Matching(nodes, sel, a + b) == Matching(nodes, sel, a) + Matching(nodes, sel, b)
    decreases |a|
  {
    if a == [] {
      assert a + b == b;
    } else {
      assert (a + b)[1..] == a[1..] + b;
      MatchingSplits(nodes, sel, a[1..], b);
    }
  }

  lemma {:induction false} MatchingIs(nodes: seq<Node>, sel: Node -> bool, ids: seq<nat>, y: nat)
    ensures y in Matching(nodes, sel, ids) <==> y in ids && IsElem(nodes, y) && sel(nodes[y])
    decreases |ids|
  {
    if ids != [] { MatchingIs(nodes, sel, ids[1..], y); }
  }

  /** Child links lead to nodes of lower rank, so the walk down ends. Elements may have been appended
      anywhere, and to several parents. */
  ghost predicate Ranked(nodes: seq<Node>, rank: nat -> nat) {
    forall p: nat :: IsElem(nodes, p) ==>
      forall k :: 0 <= k < |nodes[p].children| ==>
        nodes[p].children[k] < |nodes| && rank(nodes[p].children[k]) < rank(p)
  }

  /** The walk below x, on any nodes on which it ends. */
  ghost function WalkBy(nodes: seq<Node>, rank: nat -> nat, x: nat, k: nat): seq<nat>
    requires Ranked(nodes, rank) && IsElem(nodes, x) && k <= |nodes[x].children|
    decreases rank(x), |nodes[x].children| - k
  {
    if k == |nodes[x].children| then []
    else
      var c := nodes[x].children[k];
      (if nodes[c].Elem? then [c] + WalkBy(nodes, rank, c, 0) else []) + WalkBy(nodes, rank, x, k + 1)
  }

  /** Where children are younger than their parents, it does not matter which rank shows that it ends. */
  lemma {:induction false} WalkByIsWalk(nodes: seq<Node>, rank: nat -> nat, x: nat, k: nat)
    requires DownLinks(nodes) && Ranked(nodes, rank) && IsElem(nodes, x) && k <= |nodes[x].children|
    ensures WalkBy(nodes, rank, x, k) == Walk(nodes, x, k)
    decreases |nodes| - x, |nodes[x].children| - k
  {
    if k < |nodes[x].children| {
      var c := nodes[x].children[k];
      if nodes[c].Elem? { WalkByIsWalk(nodes, rank, c, 0); }
      WalkByIsWalk(nodes, rank, x, k + 1);
    }
  }

  function Age(nodes: seq<Node>): nat -> nat {
    (i: nat) => if i < |nodes| then |nodes| - i else 0
  }

  lemma DownLinksAreRanked(nodes: seq<Node>)
    requires DownLinks(nodes)
    ensures Ranked(nodes, Age(nodes))
  {
  }

  /** One child of the walk: itself if it passes, what passes below it, then the later children. */
  lemma HitsAt(nodes: seq<Node>, rank: nat -> nat, sel: Node -> bool, x: nat, k: nat)
    returns (self: seq<nat>, below: seq<nat>, later: seq<nat>)
    requires Ranked(nodes, rank) && IsElem(nodes, x) && k < |nodes[x].children|
    ensures Matching(nodes, sel, WalkBy(nodes, rank, x, k)) == (self + below) + later
    ensures later == Matching(nodes, sel, WalkBy(nodes, rank, x, k + 1))
    ensures var c := nodes[x].children[k];
            if nodes[c].Elem? then self == (if sel(nodes[c]) then [c] else []) && below == Matching(nodes, sel, WalkBy(nodes, rank, c, 0))
            else self == [] && below == []
  {
    var c := nodes[x].children[k];
    later := Matching(nodes, sel, WalkBy(nodes, rank, x, k + 1));
    if nodes[c].Elem? {
      var deep := WalkBy(nodes, rank, c, 0);
      self, below := Matching(nodes, sel, [c]), Matching(nodes, sel, deep);
      MatchingSplits(nodes, sel, [c] + deep, WalkBy(nodes, rank, x, k + 1));
      MatchingSplits(nodes, sel, [c], deep);
    } else {
      self, below := [], [];
      assert WalkBy(nodes, rank, x, k) == WalkBy(nodes, rank, x, k + 1);
    }
  }

  /** Whether y is visited below x. */
  predicate Visits(nodes: seq<Node>, x: nat, y: nat)
    requires DownLinks(nodes) && IsElem(nodes, x)
  {
    y in Walk(nodes, x, 0)
  }

  lemma {:induction false} ContainsUp(nodes: seq<Node>, x: nat, c: nat, y: nat)
    requires c < |nodes| && nodes[c].parent == Some(x) && x < c && Contains(nodes, c, y)
    ensures Contains(nodes, x, y)
    decreases y
  {
    if y != c { ContainsUp(nodes, x, c, nodes[y].parent.value); }
  }

  lemma InWalk(nodes: seq<Node>, x: nat, k: nat, y: nat)
    requires DownLinks(nodes) && IsElem(nodes, x) && k < |nodes[x].children|
    ensures var c := nodes[x].children[k];
            y in Walk(nodes, x, k) <==> (IsElem(nodes, c) && (y == c || Visits(nodes, c, y))) || y in Walk(nodes, x, k + 1)
  {
  }

  lemma {:induction false} WalkIsInside(nodes: seq<Node>, x: nat, k: nat, y: nat)
    requires DownLinks(nodes) && IsElem(nodes, x) && k <= |nodes[x].children| && y in Walk(nodes, x, k)
    ensures x < y && IsElem(nodes, y) && Contains(nodes, x, y)
    decreases |nodes| - x, |nodes[x].children| - k
  {
    var c := nodes[x].children[k];
    InWalk(nodes, x, k, y);
    if y in Walk(nodes, x, k + 1) {
      WalkIsInside(nodes, x, k + 1, y);
    } else {
      if y != c { WalkIsInside(nodes, c, 0, y); }
      ContainsUp(nodes, x, c, y);
    }
  }

  lemma {:induction false} WalkHasChild(nodes: seq<Node>, x: nat, k: nat, i: nat, y: nat)
    requires DownLinks(nodes) && IsElem(nodes, x) && k <= i < |nodes[x].children|
    requires var c := nodes[x].children[i]; IsElem(nodes, c) && (y == c || Visits(nodes, c, y))
    ensures y in Walk(nodes, x, k)
    decreases i - k
  {
    InWalk(nodes, x, k, y);
    if k < i { WalkHasChild(nodes, x, k + 1, i, y); }
  }

  lemma {:induction false} WalkIsTransitive(nodes: seq<Node>, x: nat, k: nat, p: nat, y: nat)
    requires DownLinks(nodes) && IsElem(nodes, x) && k <= |nodes[x].children|
    requires p in Walk(nodes, x, k) && IsElem(nodes, p) && Visits(nodes, p, y)
    ensures y in Walk(nodes, x, k)
    decreases |nodes| - x, |nodes[x].children| - k
  {
    var c := nodes[x].children[k];
    InWalk(nodes, x, k, p);
    InWalk(nodes, x, k, y);
    if p in Walk(nodes, x, k + 1) {
      WalkIsTransitive(nodes, x, k + 1, p, y);
    } else if p != c {
      WalkIsTransitive(nodes, c, 0, p, y);
    }
  }

  /** An element that its parent does not list as a child. */
  ghost predicate Orphan(nodes: seq<Node>, y: nat) {
    IsElem(nodes, y) && nodes[y].parent.Some?
    && !(IsElem(nodes, nodes[y].parent.value) && y in nodes[nodes[y].parent.value].children)
  }

  /** The element y is strictly inside x for contains. */
  predicate Inside(nodes: seq<Node>, x: nat, y: nat) {
    IsElem(nodes, y) && y != x && Contains(nodes, x, y)
  }

  lemma {:induction false} InsideIsWalked(nodes: seq<Node>, x: nat, y: nat)
    requires DownLinks(nodes) && IsElem(nodes, x) && Inside(nodes, x, y)
    requires forall w: nat :: Inside(nodes, x, w) ==> !Orphan(nodes, w)
    ensures Visits(nodes, x, y)
    decreases y
  {
    var p := nodes[y].parent.value;
    var i :| 0 <= i < |nodes[p].children| && nodes[p].children[i] == y;
    WalkHasChild(nodes, p, 0, i, y);
    if p != x {
      InsideIsWalked(nodes, x, p);
      WalkIsTransitive(nodes, x, 0, p, y);
    }
  }

  /** What the walk down visits is listed by its parent. */
  lemma {:induction false} VisitedIsListed(nodes: seq<Node>, x: nat, k: nat, y: nat)
    requires DownLinks(nodes) && IsElem(nodes, x) && k <= |nodes[x].children| && y in Walk(nodes, x, k)
    ensures IsElem(nodes, y) && !Orphan(nodes, y)
    decreases |nodes| - x, |nodes[x].children| - k
  {
    var c := nodes[x].children[k];
    InWalk(nodes, x, k, y);
    if y in Walk(nodes, x, k + 1) {
      VisitedIsListed(nodes, x, k + 1, y);
    } else if y != c {
      VisitedIsListed(nodes, c, 0, y);
    }
  }

  /** contains and querySelectorAll agree on which elements are below x. */
  ghost predicate WalksAgree(nodes: seq<Node>, x: nat)
    requires DownLinks(nodes) && IsElem(nodes, x)
  {
    forall y: nat :: IsElem(nodes, y) ==> (Visits(nodes, x, y) <==> y != x && Contains(nodes, x, y))
  }

  /** Walking up and walking down agree below x exactly when no element inside is an orphan. */
  lemma AgreeIffNoOrphans(nodes: seq<Node>, x: nat)
    requires DownLinks(nodes) && IsElem(nodes, x)
    ensures WalksAgree(nodes, x) <==> forall y: nat :: Inside(nodes, x, y) ==> !Orphan(nodes, y)
  {
    if WalksAgree(nodes, x) {
      forall y: nat | Inside(nodes, x, y) ensures !Orphan(nodes, y) {
        VisitedIsListed(nodes, x, 0, y);
      }
    }
    if forall y: nat :: Inside(nodes, x, y) ==> !Orphan(nodes, y) {
      forall y: nat | IsElem(nodes, y) ensures Visits(nodes, x, y) <==> y != x && Contains(nodes, x, y) {
        if Visits(nodes, x, y) { WalkIsInside(nodes, x, 0, y); }
        if Inside(nodes, x, y) { InsideIsWalked(nodes, x, y); }
      }
    }
  }

  /** On linked nodes, walking up and walking down agree for every pair of elements. */
  lemma LinkedWalksAgree(nodes: seq<Node>, x: nat)
    requires Linked(nodes) && IsElem(nodes, x)
    ensures WalksAgree(nodes, x)
  {
    AgreeIffNoOrphans(nodes, x);
  }

  /** Setting innerHTML drops the child links of x but leaves the parent links of its old children. */
  function Cleared(nodes: seq<Node>, x: nat): seq<Node>
    requires IsElem(nodes, x)
  {
    nodes[x := nodes[x].(children := [])]
  }

  function SetInner(nodes: seq<Node>, x: nat, tokens: seq<Token>): seq<Node>
    requires IsElem(nodes, x)
  {
    Build(State(Cleared(nodes, x), [x]), tokens).nodes
  }

  lemma ClearedDownLinks(nodes: seq<Node>, x: nat)
    requires DownLinks(nodes) && IsElem(nodes, x)
    ensures DownLinks(Cleared(nodes, x))
  {
    var less := Cleared(nodes, x);
    forall p: nat | IsElem(less, p)
      ensures forall k :: 0 <= k < |less[p].children| ==>
        p < less[p].children[k] < |less| && less[less[p].children[k]].parent == Some(p)
    {
      assert IsElem(nodes, p);
    }
  }

  ghost predicate HasElemChild(nodes: seq<Node>, x: nat)
    requires IsElem(nodes, x)
  {
    exists k :: 0 <= k < |nodes[x].children| && IsElem(nodes, nodes[x].children[k])
  }

  /** What the builder does to a node created earlier: it may append children, all of them new. */
  ghost predicate OnlyNewChildren(before: seq<Node>, after: seq<Node>) {
    && |before| <= |after|
    && forall i :: 0 <= i < |before| ==>
         && after[i].Elem? == before[i].Elem? && after[i].parent == before[i].parent
         && (before[i].Elem? ==>
               && before[i].children <= after[i].children
               && forall k :: |before[i].children| <= k < |after[i].children| ==> after[i].children[k] >= |before|)
  }

  lemma {:induction false} BuildAddsNewChildren(s: State, tokens: seq<Token>)
    requires Usable(s)
    ensures OnlyNewChildren(s.nodes, Build(s, tokens).nodes)
    decreases |tokens|
  {
    if tokens != [] {
      var m := Apply(s, tokens[0]);
      assert OnlyNewChildren(s.nodes, m.nodes);
      BuildAddsNewChildren(m, tokens[1..]);
    }
  }

  lemma {:induction false} BuildKeepsDownLinks(s: State, tokens: seq<Token>)
    requires Usable(s) && DownLinks(s.nodes)
    ensures DownLinks(Build(s, tokens).nodes)
    decreases |tokens|
  {
    if tokens != [] {
      ApplyKeepsDownLinks(s, tokens[0]);
      BuildKeepsDownLinks(Apply(s, tokens[0]), tokens[1..]);
    }
  }

  lemma ApplyKeepsDownLinks(s: State, t: Token)
    requires Usable(s) && DownLinks(s.nodes)
    ensures DownLinks(Apply(s, t).nodes)
  {
    match t
    case Close(_) =>
    case Open(tag, attrs, _) => AppendKeepsDownLinks(s.nodes, Top(s), Elem(tag, SetAttributes([], attrs), [], None));
    case Chars(text) => AppendKeepsDownLinks(s.nodes, Top(s), Text(text, None));
  }

  /** From position n on, nodes are listed by their parents, and the stack above the root holds only
      such nodes. */
  ghost predicate NewAreListed(s: State, n: nat) {
    && Usable(s) && n <= |s.nodes|
    && (forall k :: 0 < k < |s.stack| ==> s.stack[k] >= n)
    && (forall c :: n <= c < |s.nodes| ==> !Orphan(s.nodes, c))
  }

  lemma {:induction false} BuildListsNew(s: State, tokens: seq<Token>, n: nat)
    requires NewAreListed(s, n)
    ensures NewAreListed(Build(s, tokens), n)
    decreases |tokens|
  {
    if tokens != [] {
      ApplyListsNew(s, tokens[0], n);
      BuildListsNew(Apply(s, tokens[0]), tokens[1..], n);
    }
  }

  lemma ApplyListsNew(s: State, t: Token, n: nat)
    requires NewAreListed(s, n)
    ensures NewAreListed(Apply(s, t), n)
  {
    match t
    case Close(_) =>
    case Open(tag, attrs, _) => AppendLists(s.nodes, Top(s), Elem(tag, SetAttributes([], attrs), [], None), n);
    case Chars(text) => AppendLists(s.nodes, Top(s), Text(text, None), n);
  }

  lemma AppendLists(nodes: seq<Node>, p: nat, node: Node, n: nat)
    requires IsElem(nodes, p) && n <= |nodes| && forall c :: n <= c < |nodes| ==> !Orphan(nodes, c)
    ensures forall c :: n <= c <= |nodes| ==> !Orphan(Append(nodes, p, node), c)
  {
    var more := Append(nodes, p, node);
    forall c | n <= c <= |nodes| ensures !Orphan(more, c) {
      if c == |nodes| {
        assert more[p].children[|nodes[p].children|] == c;
      } else if IsElem(nodes, c) && nodes[c].parent.Some? {
        assert !Orphan(nodes, c);
      }
    }
  }

  /** On nodes created earlier, contains does not change. */
  lemma {:induction false} ContainsStays(nodes: seq<Node>, after: seq<Node>, z: nat, y: nat)
    requires |nodes| <= |after| && forall i :: 0 <= i < |nodes| ==> after[i].parent == nodes[i].parent
    requires y < |nodes|
    ensures Contains(after, z, y) == Contains(nodes, z, y)
    decreases y
  {
    if y != z && nodes[y].parent.Some? && nodes[y].parent.value < y {
      ContainsStays(nodes, after, z, nodes[y].parent.value);
    }
  }

  lemma {:induction false} ContainsIsOlder(nodes: seq<Node>, x: nat, n: nat)
    requires Contains(nodes, x, n)
    ensures x <= n
    decreases n
  {
    if n != x { ContainsIsOlder(nodes, x, nodes[n].parent.value); }
  }

  /** Setting the innerHTML of x makes orphans of its element children and of nothing else. */
  lemma NewOrphans(nodes: seq<Node>, x: nat, tokens: seq<Token>, y: nat)
    requires DownLinks(nodes) && IsElem(nodes, x)
    ensures Orphan(SetInner(nodes, x, tokens), y) <==> Orphan(nodes, y) || (IsElem(nodes, y) && nodes[y].parent == Some(x))
  {
    var s := State(Cleared(nodes, x), [x]);
    var after := SetInner(nodes, x, tokens);
    ClearedDownLinks(nodes, x);
    BuildKeepsDownLinks(s, tokens);
    BuildAddsNewChildren(s, tokens);
    BuildListsNew(s, tokens, |nodes|);
    if y < |nodes| && IsElem(nodes, y) && nodes[y].parent.Some? {
      OldChildren(s.nodes, after, nodes[y].parent.value, y);
    }
  }

  /** Whether an old node is listed as a child is not changed by the builder. */
  lemma OldChildren(before: seq<Node>, after: seq<Node>, p: nat, y: nat)
    requires OnlyNewChildren(before, after) && DownLinks(after) && y < |before|
    ensures IsElem(after, p) && y in after[p].children <==> IsElem(before, p) && y in before[p].children
  {
    if IsElem(after, p) && y in after[p].children {
      var k :| 0 <= k < |after[p].children| && after[p].children[k] == y;
      assert p < y;
      assert k < |before[p].children| && before[p].children[k] == y;
    }
    if IsElem(before, p) && y in before[p].children {
      var k :| 0 <= k < |before[p].children| && before[p].children[k] == y;
      assert after[p].children[k] == y;
    }
  }

  /** After the innerHTML of x is set, contains and querySelectorAll agree below an element z exactly
      when, before that, no element inside z was an orphan or a child of x: an orphan still says that it
      is inside, and nothing visits it. */
  lemma InnerHtmlAgreesIff(nodes: seq<Node>, x: nat, tokens: seq<Token>, z: nat)
    requires DownLinks(nodes) && IsElem(nodes, x) && IsElem(SetInner(nodes, x, tokens), z)
    ensures DownLinks(SetInner(nodes, x, tokens))
    ensures WalksAgree(SetInner(nodes, x, tokens), z) <==>
              forall y: nat :: Inside(nodes, z, y) ==> !Orphan(nodes, y) && nodes[y].parent != Some(x)
  {
    var s := State(Cleared(nodes, x), [x]);
    var after := SetInner(nodes, x, tokens);
    ClearedDownLinks(nodes, x);
    BuildKeepsDownLinks(s, tokens);
    BuildAddsNewChildren(s, tokens);
    AgreeIffNoOrphans(after, z);
    forall y: nat
      ensures Inside(after, z, y) && Orphan(after, y)
         <==> Inside(nodes, z, y) && (Orphan(nodes, y) || nodes[y].parent == Some(x))
    {
      NewOrphans(nodes, x, tokens, y);
      if y < |nodes| { ContainsStays(nodes, after, z, y); }
    }
  }

  /** Below x itself they agree exactly when no element was inside x. */
  lemma InnerHtmlAgreesBelow(nodes: seq<Node>, x: nat, tokens: seq<Token>)
    requires DownLinks(nodes) && IsElem(nodes, x)
    ensures DownLinks(SetInner(nodes, x, tokens)) && IsElem(SetInner(nodes, x, tokens), x)
    ensures WalksAgree(SetInner(nodes, x, tokens), x) <==> forall y: nat :: !Inside(nodes, x, y)
  {
    BuildAddsNewChildren(State(Cleared(nodes, x), [x]), tokens);
    InnerHtmlAgreesIff(nodes, x, tokens, x);
    if y: nat :| Inside(nodes, x, y) && forall w: nat :: Inside(nodes, x, w) ==> !Orphan(nodes, w) && nodes[w].parent != Some(x) {
      TopInside(nodes, x, y);
    }
  }

  /** Going up from an element inside x one meets an orphan inside x, or a child of x. */
  lemma {:induction false} TopInside(nodes: seq<Node>, x: nat, y: nat)
    requires Inside(nodes, x, y)
    ensures exists w: nat :: Inside(nodes, x, w) && (Orphan(nodes, w) || nodes[w].parent == Some(x))
    decreases y
  {
    var p := nodes[y].parent.value;
    if p != x && !Orphan(nodes, y) { TopInside(nodes, x, p); }
  }

  /** On linked nodes, they agree below every z exactly when x had no element child or is not in z. */
  lemma LinkedInnerHtmlAgreesIff(nodes: seq<Node>, x: nat, tokens: seq<Token>, z: nat)
    requires Linked(nodes) && IsElem(nodes, x) && IsElem(SetInner(nodes, x, tokens), z)
    ensures DownLinks(SetInner(nodes, x, tokens))
    ensures WalksAgree(SetInner(nodes, x, tokens), z) <==> !(HasElemChild(nodes, x) && Contains(nodes, z, x))
  {
    InnerHtmlAgreesIff(nodes, x, tokens, z);
    if HasElemChild(nodes, x) && Contains(nodes, z, x) {
      var k :| 0 <= k < |nodes[x].children| && IsElem(nodes, nodes[x].children[k]);
      var c := nodes[x].children[k];
      ContainsIsOlder(nodes, z, x);
      assert Inside(nodes, z, c) && nodes[c].parent == Some(x);
    }
    forall y: nat | Inside(nodes, z, y) && nodes[y].parent == Some(x) ensures HasElemChild(nodes, x) && Contains(nodes, z, x) {
      assert y in nodes[x].children;
    }
  }

  /** An element that is inside x once is inside x for good, however often innerHTML is set. */
  lemma InsideStays(nodes: seq<Node>, x: nat, y: nat, tokens: seq<Token>)
    requires IsElem(nodes, x) && Inside(nodes, x, y)
    ensures IsElem(SetInner(nodes, x, tokens), x) && Inside(SetInner(nodes, x, tokens), x, y)
  {
    BuildAddsNewChildren(State(Cleared(nodes, x), [x]), tokens);
    ContainsStays(nodes, SetInner(nodes, x, tokens), x, y);
  }

  /** So the second setting fails too, although x has no element child then: having had one is enough. */
  lemma SecondInnerHtmlDisagrees(nodes: seq<Node>, x: nat, tokens: seq<Token>)
    requires DownLinks(nodes) && IsElem(nodes, x) && HasElemChild(nodes, x)
    ensures var once := SetInner(nodes, x, []);
            && DownLinks(once) && IsElem(once, x) && !HasElemChild(once, x)
            && DownLinks(SetInner(once, x, tokens)) && IsElem(SetInner(once, x, tokens), x)
            && !WalksAgree(SetInner(once, x, tokens), x)
  {
    var once := SetInner(nodes, x, []);
    var k :| 0 <= k < |nodes[x].children| && IsElem(nodes, nodes[x].children[k]);
    assert Inside(nodes, x, nodes[x].children[k]);
    InsideStays(nodes, x, nodes[x].children[k], []);
    InnerHtmlAgreesBelow(nodes, x, []);
    InnerHtmlAgreesBelow(once, x, tokens);
    assert once == Cleared(nodes, x);
  }
}
