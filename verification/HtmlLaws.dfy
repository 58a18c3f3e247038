/**
 Which texts the scanner of the miniature DOM takes for which tokens, by the layout of the text: tags with
 any whitespace, either kind of quotes or none, and entities.
 */
module HtmlLaws {
  import opened Prelude
  import opened Text
  import MiniDom
  import opened MiniDomHtml

  // -------------------------------------------------------------- characters

  lemma TagAndNameCodes(c: char)
    ensures IsTagChar(c) <==> c as int == 45 || 48 <= c as int <= 57 || 65 <= c as int <= 90 || 97 <= c as int <= 122
    ensures IsNameStart(c) <==> c as int == 58 || c as int == 95 || 65 <= c as int <= 90 || 97 <= c as int <= 122
    ensures IsNameChar(c) <==> IsNameStart(c) || c as int == 45 || 48 <= c as int <= 57
  {
  }

  /** Tag names are put in lower case, letter by letter. */
  lemma {:induction false} LowerByLetter(s: string)
    ensures |ToLower(s)| == |s|
    ensures forall i :: 0 <= i < |s| ==>
              ToLower(s)[i] as int == if 65 <= s[i] as int <= 90 then s[i] as int + 32 else s[i] as int
  {
    if s != "" { LowerByLetter(s[1..]); }
  }

  /** The five entities, each of which is decoded to its character, once (see DecodeEscapedChar). */
  lemma FiveEntities(c: char)
    ensures EscapeChar('&') == "&amp;" && EscapeChar('<') == "&lt;" && EscapeChar('>') == "&gt;"
    ensures EscapeChar('"') == "&quot;" && EscapeChar('\'') == "&#39;"
    ensures c != '&' && c != '<' && c != '>' && c != '"' && c != '\'' ==> EscapeChar(c) == [c]
  {
  }

  /** Nothing else is: other characters stay, and so does an ampersand before anything else. */
  lemma NoEntities(c: char, s: string)
    requires c == '&' ==> !("amp;" <= s) && !("lt;" <= s) && !("gt;" <= s) && !("quot;" <= s) && !("#39;" <= s)
    ensures Decode([c] + s) == [c] + Decode(s) && Decode("") == ""
  {
    var t := [c] + s;
    assert t[0] == c && t[1..] == s;
    if c == '&' {
      OtherEntity("&amp;", "amp;", s);
      OtherEntity("&lt;", "lt;", s);
      OtherEntity("&gt;", "gt;", s);
      OtherEntity("&quot;", "quot;", s);
      OtherEntity("&#39;", "#39;", s);
    }
    assert EntityAt(t) == NoEntity;
  }

  lemma OtherEntity(entity: string, q: string, s: string)
    requires entity == ['&'] + q && !(q <= s)
    ensures !(entity <= ['&'] + s)
  {
    if entity <= ['&'] + s { TailPrefix(q, s); }
  }

  lemma TailPrefix(q: string, s: string)
    requires ['&'] + q <= ['&'] + s
    ensures q <= s
  {
    var t := ['&'] + s;
    assert t[..|q| + 1] == ['&'] + q;
    assert s[..|q|] == t[..|q| + 1][1..];
  }

  // -------------------------------------------------------------- attributes

  /** A value after an attribute name that ends at m: an equals sign at q, a quote at v and the same quote
      next at e, with whitespace around the equals sign. */
  predicate ValueLaid(h: string, m: nat, q: nat, v: nat, e: nat) {
    && m <= q < v < e < |h| && h[q] == '=' && (h[v] == '"' || h[v] == '\'') && h[e] == h[v]
    && (forall j :: m <= j < q ==> IsSpace(h[j])) && (forall j :: q < j < v ==> IsSpace(h[j]))
    && (forall j :: v < j < e ==> h[j] != h[v])
  }

  lemma ValueIsRead(h: string, m: nat, q: nat, v: nat, e: nat)
    requires ValueLaid(h, m, q, v, e)
    ensures ReadValue(h, m) == ValueAt(h[v + 1..e], e + 1)
  {
    SkipSpacesIs(h, m, q);
    SkipSpacesIs(h, q + 1, v);
    FindIs(h, h[v], v + 1, e);
  }

  lemma ReadValueIsLaid(h: string, m: nat) returns (q: nat, v: nat, e: nat)
    requires m <= |h| && ReadValue(h, m).ValueAt?
    ensures ValueLaid(h, m, q, v, e)
  {
    q := SkipSpaces(h, m);
    SkippedAreSpaces(h, m);
    v := SkipSpaces(h, q + 1);
    SkippedAreSpaces(h, q + 1);
    e := Find(h, h[v], v + 1);
    NotFoundBefore(h, h[v], v + 1);
  }

  lemma {:induction false} NotFoundBefore(h: string, c: char, i: nat)
    requires i <= |h|
    ensures forall j :: i <= j < Find(h, c, i) ==> h[j] != c
    decreases |h| - i
  {
    if i < |h| && h[i] != c { NotFoundBefore(h, c, i + 1); }
  }

  /** An attribute name from n up to m, after whitespace from i on. */
  predicate NameLaid(h: string, i: nat, n: nat, m: nat) {
    && i < n < m <= |h| && (forall j :: i <= j < n ==> IsSpace(h[j])) && IsNameStart(h[n])
    && (forall j :: n <= j < m ==> IsNameChar(h[j])) && (m < |h| ==> !IsNameChar(h[m]))
  }

  /** An attribute with a value is read with it, whatever the quotes and the whitespace; one without has the
      empty value; and where no name follows, the list ends. */
  lemma AttrIsRead(h: string, i: nat, n: nat, m: nat)
    requires NameLaid(h, i, n, m)
    ensures ReadAttrs(h, i) == match ReadValue(h, m)
              case ValueAt(value, next) => Cons(MiniDom.Attr(h[n..m], value), ReadAttrs(h, next))
              case NoValue => Cons(MiniDom.Attr(h[n..m], ""), ReadAttrs(h, m))
  {
    SkipSpacesIs(h, i, n);
    RunEndIs(h, n, m, IsNameChar);
  }

  lemma AttrsEnd(h: string, i: nat)
    requires i <= |h| && forall n: nat, m: nat :: !NameLaid(h, i, n, m)
    ensures ReadAttrs(h, i) == AttrsAt([], i)
  {
    var n := SkipSpaces(h, i);
    SkippedAreSpaces(h, i);
    if i < n < |h| && IsNameStart(h[n]) {
      var m := RunEnd(h, n, IsNameChar);
      RunIs(h, n, IsNameChar);
      assert NameLaid(h, i, n, m);
    }
  }

  // --------------------------------------------------------------------- tags

  /** An end tag: its name up to e, whitespace up to the bracket at c. */
  predicate CloseLaid(h: string, i: nat, e: nat, c: nat) {
    && i + 2 < e <= c < |h| && h[i] == '<' && h[i + 1] == '/' && h[c] == '>'
    && (forall j :: i + 2 <= j < e ==> IsTagChar(h[j])) && (forall j :: e <= j < c ==> IsSpace(h[j]))
  }

  lemma CloseIsRead(h: string, i: nat, e: nat, c: nat)
    requires CloseLaid(h, i, e, c)
    ensures TokenAt(h, i) == Scanned(MiniDom.Close(ToLower(h[i + 2..e])), c + 1)
  {
    RunEndIs(h, i + 2, e, IsTagChar);
    SkipSpacesIs(h, e, c);
  }

  /** A start tag: its name up to e, attributes up to f, whitespace up to c, and there the bracket, or a
      slash and the bracket. */
  predicate OpenLaid(h: string, i: nat, e: nat, attrs: seq<Attr>, f: nat, c: nat, slash: bool) {
    && i + 1 < e <= f <= c < |h| && h[i] == '<' && (forall j :: i < j < e ==> IsTagChar(h[j])) && !IsTagChar(h[e])
    && ReadAttrs(h, e) == AttrsAt(attrs, f) && (forall j :: f <= j < c ==> IsSpace(h[j]))
    && (if slash then c + 1 < |h| && h[c] == '/' && h[c + 1] == '>' else h[c] == '>')
  }

  lemma OpenIsRead(h: string, i: nat, e: nat, attrs: seq<Attr>, f: nat, c: nat, slash: bool)
    requires OpenLaid(h, i, e, attrs, f, c, slash)
    ensures TokenAt(h, i) == Scanned(MiniDom.Open(ToLower(h[i + 1..e]), attrs, slash), if slash then c + 2 else c + 1)
  {
    RunEndIs(h, i + 1, e, IsTagChar);
    SkipSpacesIs(h, f, c);
    OpenTokenEnds(h, i, e, attrs, f, c, slash);
  }

  lemma OpenTokenEnds(h: string, i: nat, e: nat, attrs: seq<Attr>, f: nat, c: nat, slash: bool)
    requires i + 1 < e <= f <= c < |h| && h[i] == '<' && IsTagChar(h[i + 1]) && RunEnd(h, i + 1, IsTagChar) == e
    requires ReadAttrs(h, e) == AttrsAt(attrs, f) && SkipSpaces(h, f) == c
    requires if slash then c + 1 < |h| && h[c] == '/' && h[c + 1] == '>' else h[c] == '>'
    ensures TokenAt(h, i) == Scanned(MiniDom.Open(ToLower(h[i + 1..e]), attrs, slash), if slash then c + 2 else c + 1)
  {
  }

  /** At a bracket nothing else is read: what is read there is an end tag or a start tag of this layout. */
  lemma TagIsLaid(h: string, i: nat) returns (close: bool, e: nat, attrs: seq<Attr>, f: nat, c: nat, slash: bool)
    requires i < |h| && h[i] == '<' && TokenAt(h, i).Scanned?
    ensures if close then CloseLaid(h, i, e, c) else OpenLaid(h, i, e, attrs, f, c, slash)
  {
    close := i + 1 < |h| && h[i + 1] == '/';
    if close {
      e, c := CloseTagIsLaid(h, i);
      attrs, f, slash := [], 0, false;
    } else {
      e, attrs, f, c, slash := OpenTagIsLaid(h, i);
    }
  }

  lemma CloseTagIsLaid(h: string, i: nat) returns (e: nat, c: nat)
    requires i + 1 < |h| && h[i] == '<' && h[i + 1] == '/' && TokenAt(h, i).Scanned?
    ensures CloseLaid(h, i, e, c)
  {
    e := RunEnd(h, i + 2, IsTagChar);
    RunIs(h, i + 2, IsTagChar);
    c := SkipSpaces(h, e);
    SkippedAreSpaces(h, e);
  }

  lemma OpenTagIsLaid(h: string, i: nat) returns (e: nat, attrs: seq<Attr>, f: nat, c: nat, slash: bool)
    requires i < |h| && h[i] == '<' && !(i + 1 < |h| && h[i + 1] == '/') && TokenAt(h, i).Scanned?
    ensures OpenLaid(h, i, e, attrs, f, c, slash)
  {
    e, attrs, f, c, slash := OpenEnds(h, i);
    RunIs(h, i + 1, IsTagChar);
    SkippedAreSpaces(h, f);
  }

  lemma OpenEnds(h: string, i: nat) returns (e: nat, attrs: seq<Attr>, f: nat, c: nat, slash: bool)
    requires i < |h| && h[i] == '<' && !(i + 1 < |h| && h[i + 1] == '/') && TokenAt(h, i).Scanned?
    ensures i + 1 < e == RunEnd(h, i + 1, IsTagChar) <= f <= |h| && ReadAttrs(h, e) == AttrsAt(attrs, f)
    ensures f <= c == SkipSpaces(h, f) < |h|
    ensures if slash then c + 1 < |h| && h[c] == '/' && h[c + 1] == '>' else h[c] == '>'
  {
    e := RunEnd(h, i + 1, IsTagChar);
    attrs, f := ReadAttrs(h, e).attrs, ReadAttrs(h, e).next;
    c := SkipSpaces(h, f);
    slash := c < |h| && h[c] == '/';
  }

  /** Outside tags, the text up to the next bracket is read. */
  lemma TextIsRead(h: string, i: nat, n: nat)
    requires i < n <= |h| && (forall j :: i <= j < n ==> h[j] != '<') && (n < |h| ==> h[n] == '<')
    ensures TokenAt(h, i) == Scanned(MiniDom.Chars(h[i..n]), n)
  {
    FindIs(h, '<', i, n);
  }

  // -------------------------------------------------------------- decoded tokens

  /** Texts and attribute values are decoded, names are not. */
  lemma {:induction false} DecodedAttrs(attrs: seq<Attr>)
    ensures |DecodeAll(attrs)| == |attrs|
    ensures forall i :: 0 <= i < |attrs| ==> DecodeAll(attrs)[i] == MiniDom.Attr(attrs[i].name, Decode(attrs[i].value))
  {
    if attrs != [] { DecodedAttrs(attrs[1..]); }
  }

  lemma DecodedTokens(tag: string, attrs: seq<Attr>, slash: bool, text: string)
    ensures DecodeToken(MiniDom.Close(tag)) == MiniDom.Close(tag) && DecodeToken(MiniDom.Chars(text)) == MiniDom.Chars(Decode(text))
    ensures DecodeToken(MiniDom.Open(tag, attrs, slash)) == MiniDom.Open(tag, DecodeAll(attrs), slash)
  {
  }

  /** A bracket that begins no tag is skipped, and scanning goes on with the next character. */
  lemma ScanSkips(h: string, i: nat)
    requires i < |h|
    ensures TokenAt(h, i).Skip? ==> ScanBy(MatcherOf(h), |h|, i) == ScanBy(MatcherOf(h), |h|, i + 1)
    ensures TokenAt(h, i).Scanned? ==>
              ScanBy(MatcherOf(h), |h|, i) == [DecodeToken(TokenAt(h, i).token)] + ScanBy(MatcherOf(h), |h|, TokenAt(h, i).next)
    ensures ScanBy(MatcherOf(h), |h|, |h|) == []
  {
  }
}
