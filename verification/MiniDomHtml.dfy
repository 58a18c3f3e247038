/** The HTML side of the miniature DOM: entities, the token scanner, parseInto, and the round trip
    from a forest to text and back. */
module MiniDomHtml {
  import opened Prelude
  import opened Text
  import MiniDom
  import opened MiniDomTree

  type Attr = MiniDom.Attr
  type Token = MiniDom.Token

  // -------------------------------------------------------------- entities

  datatype Entity = NoEntity | Entity(c: char, len: nat)

  /** The entity a string starts with. */
  function EntityAt(s: string): (e: Entity)
    ensures e.Entity? ==> 0 < e.len <= |s|
  {
    if "&amp;" <= s then Entity('&', 5)
    else if "&lt;" <= s then Entity('<', 4)
    else if "&gt;" <= s then Entity('>', 4)
    else if "&quot;" <= s then Entity('"', 6)
    else if "&#39;" <= s then Entity('\'', 5)
    else NoEntity
  }

  /** decodeEntities */
  function Decode(s: string): string
    decreases |s|
  {
    if s == "" then ""
    else match EntityAt(s)
      case Entity(c, len) => [c] + Decode(s[len..])
      case NoEntity => [s[0]] + Decode(s[1..])
  }

  function EscapeChar(c: char): (r: string)
    ensures r != ""
  {
    if c == '&' then "&amp;"
    else if c == '<' then "&lt;"
    else if c == '>' then "&gt;"
    else if c == '"' then "&quot;"
    else if c == '\'' then "&#39;"
    else [c]
  }

  function Escape(s: string): string {
    if s == "" then "" else EscapeChar(s[0]) + Escape(s[1..])
  }

  lemma DecodeEscapedChar(c: char, rest: string)
    ensures Decode(EscapeChar(c) + rest) == [c] + Decode(rest)
  {
    var s := EscapeChar(c) + rest;
    assert s[|EscapeChar(c)|..] == rest;
    if c == '&' || c == '<' || c == '>' || c == '"' || c == '\'' {
      EscapedEntity(c, rest);
    } else {
      assert s[0] == c;
      assert EntityAt(s) == NoEntity;
    }
  }

  lemma EscapedEntity(c: char, rest: string)
    requires c == '&' || c == '<' || c == '>' || c == '"' || c == '\''
    ensures EntityAt(EscapeChar(c) + rest) == Entity(c, |EscapeChar(c)|)
  {
    var s := EscapeChar(c) + rest;
    if c == '&' {
      assert "&amp;" <= s;
    } else if c == '<' {
      assert "&lt;" <= s;
      assert s[1] == 'l' && "&amp;"[1] == 'a';
    } else if c == '>' {
      assert "&gt;" <= s;
      assert s[1] == 'g' && "&amp;"[1] == 'a' && "&lt;"[1] == 'l';
    } else if c == '"' {
      assert "&quot;" <= s;
      assert s[1] == 'q' && "&amp;"[1] == 'a' && "&lt;"[1] == 'l' && "&gt;"[1] == 'g';
    } else {
      assert "&#39;" <= s;
      assert s[1] == '#' && "&amp;"[1] == 'a' && "&lt;"[1] == 'l' && "&gt;"[1] == 'g' && "&quot;"[1] == 'q';
    }
  }

  /** Decoding undoes escaping for every string. */
  lemma {:induction false} DecodeUndoesEscape(s: string)
    ensures Decode(Escape(s)) == s
  {
    if s != "" {
      DecodeEscapedChar(s[0], Escape(s[1..]));
      DecodeUndoesEscape(s[1..]);
    }
  }

  predicate Without(s: string, c: char) {
    forall i :: 0 <= i < |s| ==> s[i] != c
  }

  lemma {:induction false} EscapeIsSafe(s: string)
    ensures Without(Escape(s), '<') && Without(Escape(s), '"') && (s != "" ==> Escape(s) != "")
  {
    if s != "" {
      EscapeIsSafe(s[1..]);
      var c := EscapeChar(s[0]);
      assert Without(c, '<') && Without(c, '"');
    }
  }

  // --------------------------------------------------------------- scanner

  predicate IsTagChar(c: char) {
    'a' <= c <= 'z' || 'A' <= c <= 'Z' || IsDigit(c) || c == '-'
  }

  predicate IsNameStart(c: char) {
    'a' <= c <= 'z' || 'A' <= c <= 'Z' || c == '_' || c == ':'
  }

  predicate IsNameChar(c: char) {
    IsNameStart(c) || IsDigit(c) || c == '-'
  }

  function Lower(c: char): char {
    if 'A' <= c <= 'Z' then (c as int + 32) as char else c
  }

  function ToLower(s: string): string {
    if s == "" then "" else [Lower(s[0])] + ToLower(s[1..])
  }

  datatype ValueAt = NoValue | ValueAt(value: string, next: nat)

  /** = "value" or = 'value' after an attribute name that ends at i. */
  function ReadValue(h: string, i: nat): (r: ValueAt)
    requires i <= |h|
    ensures r.ValueAt? ==> i < r.next <= |h|
  {
    var q := SkipSpaces(h, i);
    if q < |h| && h[q] == '=' then
      var v := SkipSpaces(h, q + 1);
      if v < |h| && (h[v] == '"' || h[v] == '\'') then
        var e := Find(h, h[v], v + 1);
        if e < |h| then ValueAt(h[v + 1..e], e + 1) else NoValue
      else NoValue
    else NoValue
  }

  datatype AttrsAt = AttrsAt(attrs: seq<Attr>, next: nat)

  function Cons(a: Attr, r: AttrsAt): AttrsAt {
    r.(attrs := [a] + r.attrs)
  }

  /** The attributes from i on, each after whitespace, with their values as written. */
  function ReadAttrs(h: string, i: nat): (r: AttrsAt)
    requires i <= |h|
    ensures i <= r.next <= |h|
    decreases |h| - i
  {
    var n := SkipSpaces(h, i);
    if n == i || n == |h| || !IsNameStart(h[n]) then AttrsAt([], i)
    else
      var m := RunEnd(h, n, IsNameChar);
      var v := ReadValue(h, m);
      assert m > n;
      if v.NoValue? then Cons(MiniDom.Attr(h[n..m], ""), ReadAttrs(h, m))
      else Cons(MiniDom.Attr(h[n..m], v.value), ReadAttrs(h, v.next))
  }

  function DecodeAll(attrs: seq<Attr>): seq<Attr> {
    if attrs == [] then [] else [attrs[0].(value := Decode(attrs[0].value))] + DecodeAll(attrs[1..])
  }

  /** What parseInto uses of a match: texts and attribute values with their entities decoded. */
  function DecodeToken(t: Token): Token {
    match t
    case Close(_) => t
    case Open(tag, attrs, selfClosing) => MiniDom.Open(tag, DecodeAll(attrs), selfClosing)
    case Chars(text) => MiniDom.Chars(Decode(text))
  }

  datatype Scanned = Skip | Scanned(token: Token, next: nat)

  /** The alternatives of the token pattern at position i. */
  function TokenAt(h: string, i: nat): (r: Scanned)
    requires i < |h|
    ensures r.Scanned? ==> i < r.next <= |h|
  {
    if h[i] != '<' then
      var e := Find(h, '<', i);
      Scanned(MiniDom.Chars(h[i..e]), e)
    else if i + 1 < |h| && h[i + 1] == '/' then
      var e := RunEnd(h, i + 2, IsTagChar);
      var c := SkipSpaces(h, e);
      if e > i + 2 && c < |h| && h[c] == '>' then Scanned(MiniDom.Close(ToLower(h[i + 2..e])), c + 1) else Skip
    else
      var e := RunEnd(h, i + 1, IsTagChar);
      var r := ReadAttrs(h, e);
      var c := SkipSpaces(h, r.next);
      var selfClosing := c < |h| && h[c] == '/';
      var g := if selfClosing then c + 1 else c;
      if e > i + 1 && g < |h| && h[g] == '>' then Scanned(MiniDom.Open(ToLower(h[i + 1..e]), r.attrs, selfClosing), g + 1) else Skip
  }

  /** The token pattern as a function of the position. */
  type Matcher = nat -> Scanned

  function MatcherOf(h: string): Matcher {
    (i: nat) => if i < |h| then TokenAt(h, i) else Skip
  }

  /** The tokens that at finds in the positions from i up to n; a position where it finds none is
      skipped. */
  function ScanBy(at: Matcher, n: nat, i: nat): seq<Token>
    decreases n - i
  {
    if i >= n then []
    else match at(i)
      case Skip => ScanBy(at, n, i + 1)
      case Scanned(token, next) => if i < next then [DecodeToken(token)] + ScanBy(at, n, next) else []
  }

  /** The tokens of a text. */
  function Scan(h: string): seq<Token> {
    ScanBy(MatcherOf(h), |h|, 0)
  }

  /** The document whose nodes parseInto changes in place. */
  class Document {
    var nodes: seq<MiniDom.Node>

    constructor (nodes: seq<MiniDom.Node>)
      ensures this.nodes == nodes
    {
      this.nodes := nodes;
    }

    method ParseInto(parent: nat, html: string)
      requires MiniDom.IsElem(nodes, parent)
      modifies this
      ensures nodes == MiniDom.Build(MiniDom.State(old(nodes), [parent]), Scan(html)).nodes
    {
      var stack, i := [parent], 0;
      ghost var last := MiniDom.Build(MiniDom.State(nodes, [parent]), Scan(html));
      while i < |html|
        invariant i <= |html| && MiniDom.Usable(MiniDom.State(nodes, stack))
        invariant MiniDom.Build(MiniDom.State(nodes, stack), ScanBy(MatcherOf(html), |html|, i)) == last
        decreases |html| - i
      {
        var m := TokenAt(html, i);
        if m.Skip? {
          i := i + 1;
        } else {
          stack := Consume(stack, DecodeToken(m.token));
          i := m.next;
        }
      }
    }

    /** The innerHTML setter. */
    method SetInnerHtml(x: nat, html: string)
      requires MiniDom.IsElem(nodes, x)
      modifies this
      ensures nodes == MiniDom.SetInner(old(nodes), x, Scan(html))
    {
      nodes := nodes[x := nodes[x].(children := [])];
      ParseInto(x, html);
    }

    /** The body of the loop: what one token does to the tree and to the stack of open elements. */
    method Consume(stack: seq<nat>, t: Token) returns (after: seq<nat>)
      requires MiniDom.Usable(MiniDom.State(nodes, stack))
      modifies this
      ensures MiniDom.State(nodes, after) == MiniDom.Apply(MiniDom.State(old(nodes), stack), t)
    {
      after := stack;
      var top := stack[|stack| - 1];
      match t {
        case Close(tag) =>
          var i := |stack| - 1;
          while i > 0 && nodes[stack[i]].tag != tag
            invariant 0 <= i < |stack|
            invariant MiniDom.OpenAt(MiniDom.State(nodes, stack), tag, |stack| - 1) == MiniDom.OpenAt(MiniDom.State(nodes, stack), tag, i)
          {
            i := i - 1;
          }
          if i > 0 {
            after := stack[..i];
          }
        case Open(tag, attrs, selfClosing) =>
          var el := |nodes|;
          nodes := nodes[top := nodes[top].(children := nodes[top].children + [el])]
                   + [MiniDom.Elem(tag, MiniDom.SetAttributes([], attrs), [], Some(top))];
          if !(selfClosing || MiniDom.IsVoid(tag)) {
            after := stack + [el];
          }
        case Chars(text) =>
          nodes := nodes[top := nodes[top].(children := nodes[top].children + [|nodes|])]
                   + [MiniDom.Text(text, Some(top))];
      }
    }

    /** contains: the walk up from a node meets x. It has to end, or to meet x. */
    method Contains(x: nat, node: nat) returns (r: bool)
      requires exists k: nat :: MiniDom.Up(nodes, node, k) == Some(x) || MiniDom.Up(nodes, node, k) == None
      requires node < |nodes| && forall n :: 0 <= n < |nodes| && nodes[n].parent.Some? ==> nodes[n].parent.value < |nodes|
      ensures r <==> MiniDom.Meets(nodes, node, x)
      ensures MiniDom.ParentsOlder(nodes) ==> r == MiniDom.Contains(nodes, x, node)
    {
      var n: Option<nat> := Some(node);
      ghost var last: nat :| MiniDom.Up(nodes, node, last) == Some(x) || MiniDom.Up(nodes, node, last) == None;
      ghost var k: nat := 0;
      while n.Some? && n.value != x
        invariant k <= last && MiniDom.Up(nodes, node, k) == n && (n.Some? ==> n.value < |nodes|)
        invariant forall i: nat :: i < k ==> MiniDom.Up(nodes, node, i).Some? && MiniDom.Up(nodes, node, i) != Some(x)
        decreases last - k
      {
        MiniDom.UpStep(nodes, node, k);
        n := nodes[n.value].parent;
        k := k + 1;
      }
      r := n.Some?;
      forall i: nat | k <= i && n.None? ensures MiniDom.Up(nodes, node, i).None? {
        MiniDom.UpEnds(nodes, node, k, i);
      }
      if MiniDom.ParentsOlder(nodes) { MiniDom.ContainsIsUp(nodes, x, node); }
    }

    /** querySelectorAll, for any test of an element, on any document on which its walk ends. */
    method QuerySelectorAll(sel: MiniDom.Node -> bool, x: nat, ghost rank: nat -> nat) returns (out: seq<nat>)
      requires MiniDom.Ranked(nodes, rank) && MiniDom.IsElem(nodes, x)
      ensures out == MiniDom.Matching(nodes, sel, MiniDom.WalkBy(nodes, rank, x, 0))
      ensures MiniDom.DownLinks(nodes) ==> forall y: nat ::
                y in out <==> MiniDom.IsElem(nodes, y) && MiniDom.Visits(nodes, x, y) && sel(nodes[y])
      ensures MiniDom.DownLinks(nodes) && MiniDom.WalksAgree(nodes, x) ==> forall y: nat ::
                y in out <==> MiniDom.Inside(nodes, x, y) && sel(nodes[y])
    {
      out := WalkBelow(sel, x, [], rank);
      if MiniDom.DownLinks(nodes) {
        MiniDom.WalkByIsWalk(nodes, rank, x, 0);
        forall y: nat ensures y in out <==> MiniDom.IsElem(nodes, y) && MiniDom.Visits(nodes, x, y) && sel(nodes[y]) {
          MiniDom.MatchingIs(nodes, sel, MiniDom.Walk(nodes, x, 0), y);
        }
      }
    }

    method WalkBelow(sel: MiniDom.Node -> bool, x: nat, before: seq<nat>, ghost rank: nat -> nat) returns (out: seq<nat>)
      requires MiniDom.Ranked(nodes, rank) && MiniDom.IsElem(nodes, x)
      ensures out == before + MiniDom.Matching(nodes, sel, MiniDom.WalkBy(nodes, rank, x, 0))
      decreases rank(x), 1
    {
      out := before;
      var k := 0;
      ghost var all := before + MiniDom.Matching(nodes, sel, MiniDom.WalkBy(nodes, rank, x, 0));
      while k < |nodes[x].children|
        invariant k <= |nodes[x].children|
        invariant out + MiniDom.Matching(nodes, sel, MiniDom.WalkBy(nodes, rank, x, k)) == all
      {
        out := WalkChild(sel, x, k, out, rank);
        k := k + 1;
      }
    }

    /** What the walk does at one child. */
    method WalkChild(sel: MiniDom.Node -> bool, x: nat, k: nat, before: seq<nat>, ghost rank: nat -> nat) returns (out: seq<nat>)
      requires MiniDom.Ranked(nodes, rank) && MiniDom.IsElem(nodes, x) && k < |nodes[x].children|
      ensures out + MiniDom.Matching(nodes, sel, MiniDom.WalkBy(nodes, rank, x, k + 1))
           == before + MiniDom.Matching(nodes, sel, MiniDom.WalkBy(nodes, rank, x, k))
      decreases rank(x), 0
    {
      out := before;
      var c := nodes[x].children[k];
      ghost var self, below, later := MiniDom.HitsAt(nodes, rank, sel, x, k);
      if nodes[c].Elem? {
        if sel(nodes[c]) { out := out + [c]; }
        assert out == before + self;
        out := WalkBelow(sel, c, out, rank);
      }
      Carry(before, self, below, later);
    }
  }

  lemma Carry(a: seq<nat>, b: seq<nat>, c: seq<nat>, d: seq<nat>)
    ensures ((a + b) + c) + d == a + ((b + c) + d)
  {
  }

  // ------------------------------------------------------------- serializer

  function EscapeAll(attrs: seq<Attr>): seq<Attr> {
    if attrs == [] then [] else [attrs[0].(value := Escape(attrs[0].value))] + EscapeAll(attrs[1..])
  }

  /** Attributes whose values are already escaped. */
  function AttrHtml(attrs: seq<Attr>): string {
    if attrs == [] then ""
    else [' '] + (attrs[0].name + (['=', '"'] + (attrs[0].value + (['"'] + AttrHtml(attrs[1..])))))
  }

  function Html(t: Tree): string {
    match t
    case Words(text) => Escape(text)
    case Branch(tag, attrs, kids) =>
      if MiniDom.IsVoid(tag) then OpenHtml(tag, EscapeAll(attrs)) else OpenHtml(tag, EscapeAll(attrs)) + (ForestHtml(kids) + CloseHtml(tag))
  }

  function OpenHtml(tag: string, attrs: seq<Attr>): string {
    ['<'] + (tag + (AttrHtml(attrs) + ['>']))
  }

  function CloseHtml(tag: string): string {
    ['<', '/'] + (tag + ['>'])
  }

  function ForestHtml(f: seq<Tree>): string {
    if f == [] then "" else Html(f[0]) + ForestHtml(f[1..])
  }

  predicate IsTag(tag: string) {
    tag != "" && forall i :: 0 <= i < |tag| ==> IsTagChar(tag[i]) && Lower(tag[i]) == tag[i]
  }

  predicate IsAttrName(name: string) {
    name != "" && IsNameStart(name[0]) && forall i :: 0 <= i < |name| ==> IsNameChar(name[i])
  }

  predicate IsRawAttr(a: Attr) {
    IsAttrName(a.name) && Without(a.value, '"')
  }

  predicate AreRawAttrs(attrs: seq<Attr>) {
    forall i :: 0 <= i < |attrs| ==> IsRawAttr(attrs[i])
  }

  lemma {:induction false} EscapedAttrs(attrs: seq<Attr>)
    requires forall i :: 0 <= i < |attrs| ==> IsAttrName(attrs[i].name)
    ensures AreRawAttrs(EscapeAll(attrs)) && DecodeAll(EscapeAll(attrs)) == attrs
  {
    if attrs != [] {
      EscapedAttrs(attrs[1..]);
      EscapeIsSafe(attrs[0].value);
      DecodeUndoesEscape(attrs[0].value);
    }
  }

  /** A forest whose names fit the patterns, without empty or adjacent texts. */
  predicate Writable(t: Tree) {
    match t
    case Words(text) => text != ""
    case Branch(tag, attrs, kids) =>
      IsTag(tag) && (forall i :: 0 <= i < |attrs| ==> IsAttrName(attrs[i].name)) && AllWritable(kids)
  }

  predicate AllWritable(f: seq<Tree>) {
    f == [] || (Writable(f[0]) && (|f| > 1 ==> !(f[0].Words? && f[1].Words?)) && AllWritable(f[1..]))
  }

  // ---------------------------------------------- scanning serialized text

  /** A text and what is read from it, as functions of the position: the suffixes, the attributes,
      the matches and the tokens. */
  datatype Page = Page(text: string, from: nat -> string, attrs: nat -> AttrsAt, at: Matcher, scan: nat -> seq<Token>)

  function PageOf(h: string): Page {
    Page(h, (i: nat) => if i <= |h| then h[i..] else "", (i: nat) => if i <= |h| then ReadAttrs(h, i) else AttrsAt([], 0),
         MatcherOf(h), (i: nat) => ScanBy(MatcherOf(h), |h|, i))
  }

  /** These four predicates only name positions: each is the trigger of one clause of Sound, so that a
      proof asks for the clause it needs by asserting the predicate. */
  predicate Inside(p: Page, i: nat) { i <= |p.text| }

  predicate AttrsInside(p: Page, i: nat) { i <= |p.text| }

  predicate TokenInside(p: Page, i: nat) { i < |p.text| }

  predicate ScanInside(p: Page, i: nat) { i < |p.text| }

  ghost predicate Sound(p: Page) {
    && (forall i: nat {:trigger Inside(p, i)} :: Inside(p, i) ==> p.from(i) == p.text[i..])
    && (forall i: nat {:trigger AttrsInside(p, i)} :: AttrsInside(p, i) ==> p.attrs(i) == ReadAttrs(p.text, i))
    && (forall i: nat {:trigger TokenInside(p, i)} :: TokenInside(p, i) ==> p.at(i) == TokenAt(p.text, i))
    && (forall i: nat {:trigger ScanInside(p, i)} :: ScanInside(p, i) ==>
          forall token, j :: p.at(i) == Scanned(token, j) && i < j ==> p.scan(i) == [DecodeToken(token)] + p.scan(j))
  }

  lemma PageIsSound(h: string)
    ensures Sound(PageOf(h)) && PageOf(h).scan(|h|) == []
  {
  }

  predicate Follows(p: Page, i: nat, rest: string) {
    i <= |p.text| && p.from(i) == rest
  }

  lemma FollowsSplits(p: Page, i: nat, a: string, b: string)
    requires Sound(p) && Follows(p, i, a + b)
    ensures i + |a| <= |p.text| && p.text[i..i + |a|] == a && Follows(p, i + |a|, b)
    ensures forall k :: i <= k < i + |a| ==> p.text[k] == a[k - i]
  {
    var h := p.text;
    assert Inside(p, i);
    assert h[i..][..|a|] == a && h[i..][|a|..] == b;
    assert h[i..i + |a|] == h[i..][..|a|] && h[i + |a|..] == h[i..][|a|..];
    assert Inside(p, i + |a|);
  }

  lemma FollowsHead(p: Page, i: nat, c: char, rest: string)
    requires Sound(p) && Follows(p, i, [c] + rest)
    ensures i < |p.text| && p.text[i] == c && Follows(p, i + 1, rest)
  {
    FollowsSplits(p, i, [c], rest);
  }

  lemma {:induction false} LowerIsSame(tag: string)
    requires forall i :: 0 <= i < |tag| ==> Lower(tag[i]) == tag[i]
    ensures ToLower(tag) == tag
  {
    if tag != "" { LowerIsSame(tag[1..]); }
  }

  /** A quoted value at i: the opening quote at i + 1, the closing one at e. */
  predicate ValuePlaced(h: string, i: nat, e: nat) {
    i + 2 <= e < |h| && h[i] == '=' && h[i + 1] == '"' && h[e] == '"' && forall k :: i + 2 <= k < e ==> h[k] != '"'
  }

  lemma ValuePlaces(p: Page, i: nat, value: string, rest: string)
    requires Sound(p) && Follows(p, i, ['=', '"'] + (value + (['"'] + rest))) && Without(value, '"')
    ensures var e := i + 2 + |value|;
            ValuePlaced(p.text, i, e) && p.text[i + 2..e] == value && Follows(p, e + 1, rest)
  {
    FollowsSplits(p, i, ['=', '"'], value + (['"'] + rest));
    FollowsSplits(p, i + 2, value, ['"'] + rest);
    FollowsHead(p, i + 2 + |value|, '"', rest);
  }

  lemma ReadValueIs(h: string, i: nat, e: nat)
    requires ValuePlaced(h, i, e)
    ensures ReadValue(h, i) == ValueAt(h[i + 2..e], e + 1)
  {
    assert SkipSpaces(h, i) == i && SkipSpaces(h, i + 1) == i + 1;
    FindIs(h, '"', i + 2, e);
  }

  /** A space at i and an attribute name up to m. */
  predicate NamePlaced(h: string, i: nat, m: nat) {
    i + 1 < m <= |h| && h[i] == ' ' && IsNameStart(h[i + 1]) && forall k :: i < k < m ==> IsNameChar(h[k])
  }

  lemma NamePlaces(p: Page, i: nat, name: string, end: string)
    requires Sound(p) && Follows(p, i, [' '] + (name + end)) && IsAttrName(name)
    ensures var m := i + 1 + |name|;
            NamePlaced(p.text, i, m) && p.text[i + 1..m] == name && Follows(p, m, end)
  {
    FollowsHead(p, i, ' ', name + end);
    FollowsSplits(p, i + 1, name, end);
    assert p.text[i + 1] == name[0];
  }

  /** The attribute a, written from i up to next. */
  predicate AttrPlaced(h: string, i: nat, a: Attr, next: nat) {
    var m := i + 1 + |a.name|;
    && next == m + |a.value| + 3
    && NamePlaced(h, i, m) && h[i + 1..m] == a.name
    && ValuePlaced(h, m, next - 1) && h[m + 2..next - 1] == a.value
  }

  lemma AttrPlaces(p: Page, i: nat, a: Attr, others: seq<Attr>, rest: string) returns (next: nat)
    requires Sound(p) && Follows(p, i, AttrHtml([a] + others) + rest) && IsRawAttr(a)
    ensures next + |AttrHtml(others)| == i + |AttrHtml([a] + others)|
    ensures AttrPlaced(p.text, i, a, next) && Follows(p, next, AttrHtml(others) + rest)
  {
    AttrText(a, others, rest);
    NamePlaces(p, i, a.name, ['=', '"'] + (a.value + (['"'] + (AttrHtml(others) + rest))));
    ValuePlaces(p, i + 1 + |a.name|, a.value, AttrHtml(others) + rest);
    next := i + |a.name| + |a.value| + 4;
  }

  lemma AttrText(a: Attr, others: seq<Attr>, rest: string)
    ensures AttrHtml([a] + others) + rest
         == [' '] + (a.name + (['=', '"'] + (a.value + (['"'] + (AttrHtml(others) + rest)))))
    ensures |AttrHtml([a] + others)| == |a.name| + |a.value| + 4 + |AttrHtml(others)|
  {
    assert ([a] + others)[1..] == others;
  }

  lemma PlacedAttrIsRead(p: Page, i: nat, a: Attr, next: nat)
    requires Sound(p) && AttrPlaced(p.text, i, a, next)
    ensures p.attrs(i) == Cons(a, p.attrs(next))
  {
    AttrParts(p.text, i, a, next);
    ReadAttrsStep(p, i, i + 1 + |a.name|, a, next);
  }

  lemma AttrParts(h: string, i: nat, a: Attr, next: nat)
    requires AttrPlaced(h, i, a, next)
    ensures var m := i + 1 + |a.name|;
            RunEnd(h, i + 1, IsNameChar) == m && ReadValue(h, m) == ValueAt(a.value, next)
  {
    var m := i + 1 + |a.name|;
    RunEndIs(h, i + 1, m, IsNameChar);
    ReadValueIs(h, m, next - 1);
  }

  lemma ReadAttrsStep(p: Page, i: nat, m: nat, a: Attr, next: nat)
    requires Sound(p) && i + 1 < m <= |p.text| && p.text[i] == ' ' && IsNameStart(p.text[i + 1])
    requires p.text[i + 1..m] == a.name && RunEnd(p.text, i + 1, IsNameChar) == m && ReadValue(p.text, m) == ValueAt(a.value, next)
    ensures p.attrs(i) == Cons(a, p.attrs(next))
  {
    var h := p.text;
    assert !IsSpace(h[i + 1]);
    assert SkipSpaces(h, i + 1) == i + 1;
    assert SkipSpaces(h, i) == i + 1;
    assert AttrsInside(p, i) && AttrsInside(p, next);
  }

  /** The attributes, written from i up to the closing bracket at c. */
  predicate AttrsPlaced(h: string, i: nat, attrs: seq<Attr>, c: nat)
    decreases |attrs|
  {
    if attrs == [] then i == c < |h| && h[c] == '>'
    else
      var next := i + |attrs[0].name| + |attrs[0].value| + 4;
      AttrPlaced(h, i, attrs[0], next) && AttrsPlaced(h, next, attrs[1..], c)
  }

  lemma {:induction false} AttrsPlaces(p: Page, i: nat, attrs: seq<Attr>, rest: string)
    requires Sound(p) && Follows(p, i, AttrHtml(attrs) + (['>'] + rest)) && AreRawAttrs(attrs)
    ensures AttrsPlaced(p.text, i, attrs, i + |AttrHtml(attrs)|) && Follows(p, i + |AttrHtml(attrs)| + 1, rest)
    decreases |attrs|
  {
    if attrs == [] {
      assert AttrHtml(attrs) + (['>'] + rest) == ['>'] + rest;
      FollowsHead(p, i, '>', rest);
    } else {
      assert attrs == [attrs[0]] + attrs[1..];
      var next := AttrPlaces(p, i, attrs[0], attrs[1..], ['>'] + rest);
      AttrsPlaces(p, next, attrs[1..], rest);
    }
  }

  lemma {:induction false} PlacedAttrsAreRead(p: Page, i: nat, attrs: seq<Attr>, c: nat)
    requires Sound(p) && AttrsPlaced(p.text, i, attrs, c)
    ensures i <= c < |p.text| && p.text[c] == '>' && (p.text[i] == ' ' || p.text[i] == '>') && p.attrs(i) == AttrsAt(attrs, c)
    decreases |attrs|
  {
    if attrs == [] {
      NoMoreAttrs(p, c);
    } else {
      var next := i + |attrs[0].name| + |attrs[0].value| + 4;
      PlacedAttrIsRead(p, i, attrs[0], next);
      PlacedAttrsAreRead(p, next, attrs[1..], c);
      assert attrs == [attrs[0]] + attrs[1..];
    }
  }

  lemma NoMoreAttrs(p: Page, c: nat)
    requires Sound(p) && c < |p.text| && p.text[c] == '>'
    ensures p.attrs(c) == AttrsAt([], c)
  {
    assert AttrsInside(p, c);
  }

  /** Characters of a tag name from i up to e. */
  predicate TagPlaced(h: string, i: nat, tag: string, e: nat) {
    i < e <= |h| && h[i..e] == tag && forall k :: i <= k < e ==> IsTagChar(h[k])
  }

  lemma TagPlaces(p: Page, i: nat, tag: string, end: string)
    requires Sound(p) && Follows(p, i, tag + end) && IsTag(tag)
    ensures TagPlaced(p.text, i, tag, i + |tag|) && Follows(p, i + |tag|, end)
  {
    FollowsSplits(p, i, tag, end);
  }

  /** An opening tag from i up to the closing bracket at c. */
  predicate OpenPlaced(h: string, i: nat, tag: string, attrs: seq<Attr>, c: nat) {
    i < |h| && h[i] == '<' && TagPlaced(h, i + 1, tag, i + 1 + |tag|) && AttrsPlaced(h, i + 1 + |tag|, attrs, c)
  }

  lemma TagStarts(p: Page, i: nat, tag: string, end: string)
    requires Sound(p) && Follows(p, i, ['<'] + (tag + end)) && IsTag(tag)
    ensures i < |p.text| && p.text[i] == '<' && TagPlaced(p.text, i + 1, tag, i + 1 + |tag|) && Follows(p, i + 1 + |tag|, end)
  {
    FollowsHead(p, i, '<', tag + end);
    TagPlaces(p, i + 1, tag, end);
  }

  lemma OpenText(tag: string, attrs: string, rest: string)
    ensures (['<'] + (tag + (attrs + ['>']))) + rest == ['<'] + (tag + (attrs + (['>'] + rest)))
  {
  }

  lemma OpenPlaces(p: Page, i: nat, tag: string, attrs: seq<Attr>, rest: string)
    requires Sound(p) && Follows(p, i, OpenHtml(tag, attrs) + rest)
    requires IsTag(tag) && AreRawAttrs(attrs)
    ensures var c := i + 1 + |tag| + |AttrHtml(attrs)|;
            OpenPlaced(p.text, i, tag, attrs, c) && Follows(p, c + 1, rest)
  {
    OpenText(tag, AttrHtml(attrs), rest);
    TagStarts(p, i, tag, AttrHtml(attrs) + (['>'] + rest));
    AttrsPlaces(p, i + 1 + |tag|, attrs, rest);
  }

  lemma PlacedOpenIsMatched(p: Page, i: nat, tag: string, attrs: seq<Attr>, c: nat)
    requires Sound(p) && OpenPlaced(p.text, i, tag, attrs, c) && IsTag(tag)
    ensures i < c < |p.text| && p.at(i) == Scanned(MiniDom.Open(tag, attrs, false), c + 1)
  {
    var e := i + 1 + |tag|;
    PlacedAttrsAreRead(p, e, attrs, c);
    RunEndIs(p.text, i + 1, e, IsTagChar);
    LowerIsSame(tag);
    OpenTokenIs(p, i, e, attrs, c);
  }

  lemma OpenTokenIs(p: Page, i: nat, e: nat, attrs: seq<Attr>, c: nat)
    requires Sound(p) && i + 1 < e <= |p.text| && p.text[i] == '<' && IsTagChar(p.text[i + 1]) && RunEnd(p.text, i + 1, IsTagChar) == e
    requires p.attrs(e) == AttrsAt(attrs, c) && c < |p.text| && p.text[c] == '>'
    ensures p.at(i) == Scanned(MiniDom.Open(ToLower(p.text[i + 1..e]), attrs, false), c + 1)
  {
    assert AttrsInside(p, e) && TokenInside(p, i);
    assert SkipSpaces(p.text, c) == c;
  }

  lemma CloseIsScanned(p: Page, i: nat, tag: string, rest: string)
    requires Sound(p) && Follows(p, i, ['<', '/'] + (tag + (['>'] + rest))) && IsTag(tag)
    ensures var n := i + |tag| + 3;
            n <= |p.text| && TokenAt(p.text, i) == Scanned(MiniDom.Close(tag), n) && Follows(p, n, rest)
  {
    FollowsSplits(p, i, ['<', '/'], tag + (['>'] + rest));
    assert p.text[i] == '<' && p.text[i + 1] == '/';
    FollowsSplits(p, i + 2, tag, ['>'] + rest);
    var e := i + 2 + |tag|;
    FollowsHead(p, e, '>', rest);
    RunEndIs(p.text, i + 2, e, IsTagChar);
    assert SkipSpaces(p.text, e) == e;
    LowerIsSame(tag);
  }

  predicate Boundary(rest: string) {
    rest == "" || rest[0] == '<'
  }

  /** Characters other than '<' from i up to n. */
  predicate TextPlaced(h: string, i: nat, n: nat) {
    i < n <= |h| && (forall k :: i <= k < n ==> h[k] != '<') && (n < |h| ==> h[n] == '<')
  }

  lemma TextPlaces(p: Page, i: nat, text: string, rest: string)
    requires Sound(p) && Follows(p, i, text + rest) && text != "" && Without(text, '<') && Boundary(rest)
    ensures var n := i + |text|;
            TextPlaced(p.text, i, n) && p.text[i..n] == text && Follows(p, n, rest)
  {
    FollowsSplits(p, i, text, rest);
    var n := i + |text|;
    assert Inside(p, n);
    assert n < |p.text| ==> p.text[n] == p.text[n..][0];
  }

  lemma PlacedTextIsScanned(h: string, i: nat, n: nat)
    requires TextPlaced(h, i, n)
    ensures TokenAt(h, i) == Scanned(MiniDom.Chars(h[i..n]), n)
  {
    FindIs(h, '<', i, n);
  }

  // ------------------------------------------------------------ the round trip

  lemma OpenIsMatched(p: Page, i: nat, tag: string, attrs: seq<Attr>, rest: string)
    requires Sound(p) && Follows(p, i, OpenHtml(tag, attrs) + rest) && IsTag(tag) && AreRawAttrs(attrs)
    ensures var n := i + |OpenHtml(tag, attrs)|;
            i < n <= |p.text| && p.at(i) == Scanned(MiniDom.Open(tag, attrs, false), n) && Follows(p, n, rest)
  {
    OpenPlaces(p, i, tag, attrs, rest);
    PlacedOpenIsMatched(p, i, tag, attrs, i + 1 + |tag| + |AttrHtml(attrs)|);
  }

  lemma CloseIsMatched(p: Page, i: nat, tag: string, rest: string)
    requires Sound(p) && Follows(p, i, CloseHtml(tag) + rest) && IsTag(tag)
    ensures var n := i + |CloseHtml(tag)|;
            i < n <= |p.text| && p.at(i) == Scanned(MiniDom.Close(tag), n) && Follows(p, n, rest)
  {
    assert CloseHtml(tag) + rest == ['<', '/'] + (tag + (['>'] + rest));
    CloseIsScanned(p, i, tag, rest);
    assert TokenInside(p, i);
  }

  /** An escaped text e. */
  lemma TextIsMatched(p: Page, i: nat, e: string, rest: string)
    requires Sound(p) && Follows(p, i, e + rest) && e != "" && Without(e, '<') && Boundary(rest)
    ensures var n := i + |e|;
            i < n <= |p.text| && p.at(i) == Scanned(MiniDom.Chars(e), n) && Follows(p, n, rest)
  {
    TextPlaces(p, i, e, rest);
    PlacedTextIsMatched(p, i, i + |e|, e);
  }

  lemma PlacedTextIsMatched(p: Page, i: nat, n: nat, e: string)
    requires Sound(p) && TextPlaced(p.text, i, n) && p.text[i..n] == e
    ensures p.at(i) == Scanned(MiniDom.Chars(e), n)
  {
    PlacedTextIsScanned(p.text, i, n);
    assert TokenInside(p, i);
  }

  /** From position i up to j, the text has exactly these tokens. */
  ghost predicate Finds(p: Page, i: nat, tokens: seq<Token>, j: nat) {
    i <= j <= |p.text| && p.scan(i) == tokens + p.scan(j)
  }

  lemma FindsOne(p: Page, i: nat, token: Token, j: nat)
    requires Sound(p) && i < j <= |p.text| && p.at(i) == Scanned(token, j)
    ensures Finds(p, i, [DecodeToken(token)], j)
  {
    assert ScanInside(p, i);
  }

  lemma FindsTwo(p: Page, i: nat, a: seq<Token>, j: nat, b: seq<Token>, k: nat)
    requires Finds(p, i, a, j) && Finds(p, j, b, k)
    ensures Finds(p, i, a + b, k)
  {
    Regroup(a, b, p.scan(k));
  }

  /** Where the page continues with the text of t and then rest, the tokens of t are found. */
  lemma {:induction false} TreeIsFound(p: Page, i: nat, t: Tree, rest: string) returns (n: nat)
    requires Sound(p) && Follows(p, i, Html(t) + rest) && Writable(t) && (t.Words? ==> Boundary(rest))
    ensures n == i + |Html(t)| && Finds(p, i, Tokens(t), n) && Follows(p, n, rest)
    decreases t
  {
    match t
    case Words(text) =>
      n := WordsAreFound(p, i, text, rest);
    case Branch(tag, attrs, kids) =>
      EscapedAttrs(attrs);
      n := ElementIsFound(p, i, tag, attrs, EscapeAll(attrs), kids, rest);
  }

  lemma {:induction false} ElementIsFound(p: Page, i: nat, tag: string, attrs: seq<Attr>, raw: seq<Attr>, kids: seq<Tree>, rest: string)
    returns (n: nat)
    requires raw == EscapeAll(attrs) && AreRawAttrs(raw) && DecodeAll(raw) == attrs && IsTag(tag) && AllWritable(kids)
    requires Sound(p) && Follows(p, i, Html(Branch(tag, attrs, kids)) + rest)
    ensures n == i + |Html(Branch(tag, attrs, kids))|
    ensures Finds(p, i, Tokens(Branch(tag, attrs, kids)), n) && Follows(p, n, rest)
    decreases kids, 3
  {
    if MiniDom.IsVoid(tag) {
      n := OpenIsFound(p, i, tag, raw, rest);
    } else {
      n := BranchIsFound(p, i, tag, raw, kids, rest);
    }
  }

  lemma WordsAreFound(p: Page, i: nat, text: string, rest: string) returns (n: nat)
    requires Sound(p) && Follows(p, i, Escape(text) + rest) && text != "" && Boundary(rest)
    ensures n == i + |Escape(text)| && Finds(p, i, [MiniDom.Chars(text)], n) && Follows(p, n, rest)
  {
    EscapeIsSafe(text);
    DecodeUndoesEscape(text);
    n := i + |Escape(text)|;
    TextIsMatched(p, i, Escape(text), rest);
    FindsOne(p, i, MiniDom.Chars(Escape(text)), n);
  }

  lemma OpenIsFound(p: Page, i: nat, tag: string, raw: seq<Attr>, rest: string) returns (n: nat)
    requires Sound(p) && Follows(p, i, OpenHtml(tag, raw) + rest) && IsTag(tag) && AreRawAttrs(raw)
    ensures n == i + |OpenHtml(tag, raw)|
    ensures Finds(p, i, [MiniDom.Open(tag, DecodeAll(raw), false)], n) && Follows(p, n, rest)
  {
    n := i + |OpenHtml(tag, raw)|;
    OpenIsMatched(p, i, tag, raw, rest);
    FindsOne(p, i, MiniDom.Open(tag, raw, false), n);
  }

  lemma CloseIsFound(p: Page, i: nat, tag: string, rest: string) returns (n: nat)
    requires Sound(p) && Follows(p, i, CloseHtml(tag) + rest) && IsTag(tag)
    ensures n == i + |CloseHtml(tag)| && Finds(p, i, [MiniDom.Close(tag)], n) && Follows(p, n, rest)
  {
    n := i + |CloseHtml(tag)|;
    CloseIsMatched(p, i, tag, rest);
    FindsOne(p, i, MiniDom.Close(tag), n);
  }

  lemma {:induction false} BranchIsFound(p: Page, i: nat, tag: string, raw: seq<Attr>, kids: seq<Tree>, rest: string) returns (n: nat)
    requires Sound(p) && IsTag(tag) && AreRawAttrs(raw) && AllWritable(kids)
    requires Follows(p, i, (OpenHtml(tag, raw) + (ForestHtml(kids) + CloseHtml(tag))) + rest)
    ensures n == i + |OpenHtml(tag, raw) + (ForestHtml(kids) + CloseHtml(tag))| && Follows(p, n, rest)
    ensures Finds(p, i, [MiniDom.Open(tag, DecodeAll(raw), false)] + ForestTokens(kids) + [MiniDom.Close(tag)], n)
    decreases kids, 2
  {
    var open, inner, close := OpenHtml(tag, raw), ForestHtml(kids), CloseHtml(tag);
    var a, b, c := [MiniDom.Open(tag, DecodeAll(raw), false)], ForestTokens(kids), [MiniDom.Close(tag)];
    BranchText(open, inner, close, rest);
    var j := OpenIsFound(p, i, tag, raw, inner + (close + rest));
    assert Boundary(close + rest);
    var k := ForestIsFound(p, j, kids, close + rest);
    n := CloseIsFound(p, k, tag, rest);
    FindsTwo(p, i, a, j, b, k);
    FindsTwo(p, i, a + b, k, c, n);
  }

  lemma BranchText(open: string, inner: string, close: string, rest: string)
    ensures (open + (inner + close)) + rest == open + (inner + (close + rest))
  {
  }

  lemma {:induction false} ForestIsFound(p: Page, i: nat, f: seq<Tree>, rest: string) returns (n: nat)
    requires Sound(p) && Follows(p, i, ForestHtml(f) + rest) && AllWritable(f) && Boundary(rest)
    ensures n == i + |ForestHtml(f)| && Finds(p, i, ForestTokens(f), n) && Follows(p, n, rest)
    decreases f, 1
  {
    if f == [] {
      assert ForestHtml(f) + rest == rest;
      n := i;
      FindsNone(p, i);
    } else {
      FirstTree(f, rest);
      n := FirstIsFound(p, i, f, Html(f[0]), ForestHtml(f[1..]), rest);
    }
  }

  lemma {:induction false} FirstIsFound(p: Page, i: nat, f: seq<Tree>, first: string, more: string, rest: string) returns (n: nat)
    requires f != [] && first == Html(f[0]) && more == ForestHtml(f[1..])
    requires Sound(p) && Follows(p, i, first + (more + rest)) && Boundary(rest)
    requires Writable(f[0]) && AllWritable(f[1..]) && (f[0].Words? ==> Boundary(more + rest))
    ensures n == i + |first| + |more| && Follows(p, n, rest)
    ensures Finds(p, i, Tokens(f[0]) + ForestTokens(f[1..]), n)
    decreases f, 0
  {
    var j := TreeIsFound(p, i, f[0], more + rest);
    n := ForestIsFound(p, j, f[1..], rest);
    FindsTwo(p, i, Tokens(f[0]), j, ForestTokens(f[1..]), n);
  }

  lemma FirstTree(f: seq<Tree>, rest: string)
    requires f != [] && AllWritable(f) && Boundary(rest)
    ensures ForestHtml(f) + rest == Html(f[0]) + (ForestHtml(f[1..]) + rest)
    ensures |ForestHtml(f)| == |Html(f[0])| + |ForestHtml(f[1..])|
    ensures Writable(f[0]) && AllWritable(f[1..]) && (f[0].Words? ==> Boundary(ForestHtml(f[1..]) + rest))
  {
    Regroup(Html(f[0]), ForestHtml(f[1..]), rest);
    if f[0].Words? { NextIsBoundary(f[1..], rest); }
  }

  lemma FindsNone(p: Page, i: nat)
    requires i <= |p.text|
    ensures Finds(p, i, [], i)
  {
  }

  /** What follows a text in a forest starts with a tag. */
  lemma NextIsBoundary(f: seq<Tree>, rest: string)
    requires (f != [] ==> f[0].Branch?) && Boundary(rest)
    ensures Boundary(ForestHtml(f) + rest)
  {
    if f == [] {
      assert ForestHtml(f) + rest == rest;
    } else {
      assert Html(f[0])[0] == '<';
    }
  }

  /** Scanning the text of a forest gives its tokens and nothing else. */
  lemma HtmlScansBack(f: seq<Tree>)
    requires AllWritable(f)
    ensures Scan(ForestHtml(f)) == ForestTokens(f)
  {
    var h := ForestHtml(f);
    assert h[0..] == h == h + "";
    PageIsSound(h);
    var _ := ForestIsFound(PageOf(h), 0, f, "");
    assert ForestTokens(f) + [] == ForestTokens(f);
  }

  /** Parsing the text of any writable forest into an element without children rebuilds it there. */
  lemma HtmlReadsBack(nodes: seq<MiniDom.Node>, x: nat, f: seq<Tree>)
    requires MiniDom.DownLinks(nodes) && MiniDom.IsElem(nodes, x) && nodes[x].children == []
    requires AllWritable(f) && AllRegular(f)
    ensures var r := MiniDom.Build(MiniDom.State(nodes, [x]), Scan(ForestHtml(f))).nodes;
            MiniDom.DownLinks(r) && MiniDom.IsElem(r, x) && Inner(r, x) == f
  {
    HtmlScansBack(f);
    ForestBuildsBack(nodes, x, f);
  }

  /** Setting innerHTML to the text of a writable forest makes that forest the content, whatever it
      was before. */
  lemma InnerHtmlReadsBack(nodes: seq<MiniDom.Node>, x: nat, f: seq<Tree>)
    requires MiniDom.DownLinks(nodes) && MiniDom.IsElem(nodes, x)
    requires AllWritable(f) && AllRegular(f)
    ensures var r := MiniDom.SetInner(nodes, x, Scan(ForestHtml(f)));
            MiniDom.DownLinks(r) && MiniDom.IsElem(r, x) && Inner(r, x) == f
  {
    MiniDom.ClearedDownLinks(nodes, x);
    HtmlReadsBack(MiniDom.Cleared(nodes, x), x, f);
  }
}
