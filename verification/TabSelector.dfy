/**
 The parser for lists of [data-tab="..."] attribute selectors that the analytics tab test puts in
 place of a browser's querySelector.
 */
module TabSelector {
  import opened Prelude

  const OPEN := "[data-tab=\""

  datatype Result = Ok(values: seq<string>) | SyntaxError

  /** The value read from position i on, and the position where reading stopped: at a quote, or at
      or past the end. A backslash takes the next character literally. */
  function ReadValue(sel: string, i: nat): Reading
    decreases |sel| - i
  {
    if i >= |sel| || sel[i] == '"' then Reading("", i)
    else if sel[i] == '\\' then
      if i + 1 < |sel| then Prepend(sel[i + 1], ReadValue(sel, i + 2)) else Reading("undefined", i + 2)
    else
      Prepend(sel[i], ReadValue(sel, i + 1))
  }

  datatype Reading = Reading(value: string, next: nat)

  function Prepend(c: char, r: Reading): Reading {
    r.(value := [c] + r.value)
  }

  lemma {:induction false} ReadAdvances(sel: string, i: nat)
    ensures i <= ReadValue(sel, i).next
    decreases |sel| - i
  {
    if i < |sel| && sel[i] != '"' {
      if sel[i] == '\\' {
        if i + 1 < |sel| { ReadAdvances(sel, i + 2); }
      } else {
        ReadAdvances(sel, i + 1);
      }
    }
  }

  predicate At(sel: string, i: nat, part: string) {
    i + |part| <= |sel| && sel[i..i + |part|] == part
  }

  /** The position after the value read from i, when the selector is closed there. */
  function Close(sel: string, i: nat): (r: nat)
    ensures r > 0 ==> i < r <= |sel|
  {
    ReadAdvances(sel, i);
    var j := ReadValue(sel, i).next;
    if At(sel, j, "\"]") then j + 2 else 0
  }

  function Parse(sel: string, i: nat): Result
    decreases |sel| - i
  {
    if !At(sel, i, OPEN) then SyntaxError
    else
      var v, j := ReadValue(sel, i + |OPEN|).value, Close(sel, i + |OPEN|);
      if j == 0 then SyntaxError
      else if j == |sel| then Ok([v])
      else if sel[j] != ',' then SyntaxError
      else After([v], Parse(sel, j + 1))
  }

  /** The result r of the rest of the list, after the values read so far. */
  function After(values: seq<string>, r: Result): Result {
    if r.Ok? then Ok(values + r.values) else r
  }

  lemma AfterTwice(a: seq<string>, b: seq<string>, r: Result)
    ensures After(a, After(b, r)) == After(a + b, r)
  {
    if r.Ok? { assert a + (b + r.values) == (a + b) + r.values; }
  }

  method ParseTabSelector(sel: string) returns (r: Result)
    ensures r == Parse(sel, 0)
  {
    var values, i := [], 0;
    ghost var result := Parse(sel, 0);
    while true
      invariant result == After(values, Parse(sel, i))
      decreases |sel| - i
    {
      if !At(sel, i, OPEN) {
        return SyntaxError;
      }
      var v, j := ReadQuoted(sel, i + |OPEN|);
      i := j;
      if !At(sel, i, "\"]") {
        return SyntaxError;
      }
      i := i + 2;
      if i < |sel| { AfterTwice(values, [v], Parse(sel, i + 1)); }
      values := values + [v];
      if i == |sel| {
        return Ok(values);
      }
      if sel[i] != ',' {
        return SyntaxError;
      }
      i := i + 1;
    }
  }

  /** The inner loop. */
  method ReadQuoted(sel: string, start: nat) returns (v: string, i: nat)
    ensures Reading(v, i) == ReadValue(sel, start)
  {
    v, i := "", start;
    while i < |sel| && sel[i] != '"'
      invariant start <= i
      invariant v + ReadValue(sel, i).value == ReadValue(sel, start).value
      invariant ReadValue(sel, i).next == ReadValue(sel, start).next
      decreases |sel| - i
    {
      if sel[i] == '\\' {
        i := i + 1;
      }
      v := v + (if i < |sel| then [sel[i]] else "undefined");
      i := i + 1;
    }
    assert v + "" == v;
  }

  // ------------------------------------------------------ the texts it accepts

  /** The value that a text between quotes stands for: a backslash takes the next character literally, and
      there is none for a text with a bare quote or a backslash at its end. */
  function Unescape(raw: string): Option<string> {
    if raw == "" then Some("")
    else if raw[0] == '"' || (raw[0] == '\\' && |raw| == 1) then None
    else if raw[0] == '\\' then PrependTo(raw[1], Unescape(raw[2..]))
    else PrependTo(raw[0], Unescape(raw[1..]))
  }

  function PrependTo(c: char, r: Option<string>): Option<string> {
    if r.Some? then Some([c] + r.value) else None
  }

  function Selector(raw: string): string {
    "[data-tab=\"" + raw + "\"]"
  }

  /** A list of selectors with these texts between the quotes. */
  function ListOf(raws: seq<string>): string
    requires raws != []
  {
    if |raws| == 1 then Selector(raws[0]) else Selector(raws[0]) + "," + ListOf(raws[1..])
  }

  /** The texts stand for the values, one for one. */
  ghost predicate Spell(raws: seq<string>, values: seq<string>) {
    |raws| == |values| && forall k :: 0 <= k < |raws| ==> Unescape(raws[k]) == Some(values[k])
  }

  predicate Follows(sel: string, i: nat, rest: string) {
    i <= |sel| && sel[i..] == rest
  }

  lemma FollowsSplits(sel: string, i: nat, a: string, b: string)
    requires Follows(sel, i, a + b)
    ensures At(sel, i, a) && Follows(sel, i + |a|, b)
  {
    assert sel[i..][..|a|] == a && sel[i..][|a|..] == b;
    assert sel[i..i + |a|] == sel[i..][..|a|] && sel[i + |a|..] == sel[i..][|a|..];
  }

  lemma FollowsHead(sel: string, i: nat, c: char, rest: string)
    requires Follows(sel, i, [c] + rest)
    ensures i < |sel| && sel[i] == c && Follows(sel, i + 1, rest)
  {
    FollowsSplits(sel, i, [c], rest);
    assert sel[i] == sel[i..][0];
  }

  /** Reading from i, where sel continues with raw, a quote, and rest. */
  lemma {:induction false} ReadRaw(sel: string, i: nat, raw: string, v: string, rest: string)
    requires Follows(sel, i, raw + (['"'] + rest)) && Unescape(raw) == Some(v)
    ensures ReadValue(sel, i) == Reading(v, i + |raw|)
    decreases |raw|
  {
    if raw == "" {
      assert raw + (['"'] + rest) == ['"'] + rest;
      FollowsHead(sel, i, '"', rest);
    } else {
      var n := if raw[0] == '\\' then 2 else 1;
      var tail := raw[n..] + (['"'] + rest);
      if n == 2 {
        assert raw + (['"'] + rest) == ['\\'] + ([raw[1]] + tail);
        FollowsHead(sel, i, '\\', [raw[1]] + tail);
        FollowsHead(sel, i + 1, raw[1], tail);
      } else {
        assert raw + (['"'] + rest) == [raw[0]] + tail;
        FollowsHead(sel, i, raw[0], tail);
      }
      ReadRaw(sel, i + n, raw[n..], v[1..], rest);
      assert [v[0]] + v[1..] == v;
    }
  }

  /** What is read up to a quote is the value of the text in between. */
  lemma {:induction false} ReadIsUnescaped(sel: string, i: nat)
    requires i <= ReadValue(sel, i).next < |sel|
    ensures sel[ReadValue(sel, i).next] == '"' && Unescape(sel[i..ReadValue(sel, i).next]) == Some(ReadValue(sel, i).value)
    decreases |sel| - i
  {
    var j := ReadValue(sel, i).next;
    if i < |sel| && sel[i] != '"' {
      var n := if sel[i] == '\\' then 2 else 1;
      assert n == 2 ==> i + 1 < |sel|;
      ReadAdvances(sel, i + n);
      ReadIsUnescaped(sel, i + n);
      var raw := sel[i..j];
      assert raw[0] == sel[i] && (n == 2 ==> raw[1] == sel[i + 1]) && raw[n..] == sel[i + n..j];
    }
  }

  /** What follows the first selector of a list. */
  function Tail(raws: seq<string>): string
    requires raws != []
  {
    if |raws| == 1 then "" else [','] + ListOf(raws[1..])
  }

  lemma SelectorText(a: string, b: string, tail: string)
    ensures (a + b + "\"]") + tail == a + (b + (['"'] + ([']'] + tail)))
  {
  }

  lemma ListParts(raws: seq<string>)
    requires raws != []
    ensures ListOf(raws) == OPEN + (raws[0] + (['"'] + ([']'] + Tail(raws))))
  {
    SelectorText(OPEN, raws[0], Tail(raws));
    if |raws| == 1 {
      assert Selector(raws[0]) + "" == Selector(raws[0]);
    } else {
      var s, p := Selector(raws[0]), ListOf(raws[1..]);
      assert s + "," + p == s + ([','] + p);
    }
  }

  /** From i on, sel continues with a selector with the text raw and then tail. */
  lemma SelectorAt(sel: string, i: nat, raw: string, v: string, tail: string)
    requires Follows(sel, i, OPEN + (raw + (['"'] + ([']'] + tail)))) && Unescape(raw) == Some(v)
    ensures At(sel, i, OPEN)
    ensures var n := i + |OPEN| + |raw|;
            ReadValue(sel, i + |OPEN|) == Reading(v, n) && At(sel, n, "\"]") && Follows(sel, n + 2, tail)
  {
    SelectorPlaces(sel, i, OPEN, raw, tail);
    ReadRaw(sel, i + |OPEN|, raw, v, [']'] + tail);
  }

  lemma SelectorPlaces(sel: string, i: nat, open: string, raw: string, tail: string)
    requires Follows(sel, i, open + (raw + (['"'] + ([']'] + tail))))
    ensures At(sel, i, open) && Follows(sel, i + |open|, raw + (['"'] + ([']'] + tail)))
    ensures var n := i + |open| + |raw|;
            At(sel, n, "\"]") && Follows(sel, n + 2, tail)
  {
    var n := i + |open| + |raw|;
    FollowsSplits(sel, i, open, raw + (['"'] + ([']'] + tail)));
    FollowsSplits(sel, i + |open|, raw, ['"'] + ([']'] + tail));
    FollowsHead(sel, n, '"', [']'] + tail);
    FollowsHead(sel, n + 1, ']', tail);
  }

  /** One turn of the loop that succeeds. */
  lemma ParseStep(sel: string, i: nat, v: string, n: nat)
    requires At(sel, i, OPEN) && ReadValue(sel, i + |OPEN|) == Reading(v, n) && At(sel, n, "\"]")
    ensures n + 2 == |sel| ==> Parse(sel, i) == Ok([v])
    ensures n + 2 < |sel| && sel[n + 2] == ',' ==> Parse(sel, i) == After([v], Parse(sel, n + 3))
  {
    assert Close(sel, i + |OPEN|) == n + 2;
  }

  lemma {:induction false} ParseListOf(sel: string, i: nat, raws: seq<string>, values: seq<string>)
    requires raws != [] && Follows(sel, i, ListOf(raws)) && Spell(raws, values)
    ensures Parse(sel, i) == Ok(values)
    decreases |raws|
  {
    var n, tail := i + |OPEN| + |raws[0]|, Tail(raws);
    ListParts(raws);
    SelectorAt(sel, i, raws[0], values[0], tail);
    ParseStep(sel, i, values[0], n);
    if |raws| > 1 {
      FollowsHead(sel, n + 2, ',', ListOf(raws[1..]));
      ParseListOf(sel, n + 3, raws[1..], values[1..]);
      HeadAndTail(values);
    } else {
      assert values == [values[0]];
    }
  }

  lemma HeadAndTail(values: seq<string>)
    requires values != []
    ensures [values[0]] + values[1..] == values
  {
  }

  /** The first selector of an accepted list. */
  lemma FirstParsed(sel: string, i: nat) returns (v: string, n: nat)
    requires i <= |sel| && Parse(sel, i).Ok?
    ensures At(sel, i, OPEN) && i + |OPEN| <= n && At(sel, n, "\"]") && Unescape(sel[i + |OPEN|..n]) == Some(v)
    ensures if n + 2 == |sel| then Parse(sel, i) == Ok([v])
            else sel[n + 2] == ',' && Parse(sel, n + 3).Ok? && Parse(sel, i) == Ok([v] + Parse(sel, n + 3).values)
  {
    var o := i + |OPEN|;
    v, n := ReadValue(sel, o).value, ReadValue(sel, o).next;
    ReadAdvances(sel, o);
    ReadIsUnescaped(sel, o);
  }

  lemma {:induction false} ParsedIsList(sel: string, i: nat) returns (raws: seq<string>)
    requires i <= |sel| && Parse(sel, i).Ok?
    ensures raws != [] && Follows(sel, i, ListOf(raws)) && Spell(raws, Parse(sel, i).values)
    decreases |sel| - i
  {
    var v, n := FirstParsed(sel, i);
    var rest: seq<string> := [];
    if n + 2 < |sel| {
      rest := ParsedIsList(sel, n + 3);
    }
    raws := [sel[i + |OPEN|..n]] + rest;
    GlueList(sel, i, n, rest);
  }

  lemma GlueList(sel: string, i: nat, n: nat, rest: seq<string>)
    requires At(sel, i, OPEN) && i + |OPEN| <= n && At(sel, n, "\"]")
    requires if rest == [] then n + 2 == |sel| else n + 2 < |sel| && sel[n + 2] == ',' && Follows(sel, n + 3, ListOf(rest))
    ensures Follows(sel, i, ListOf([sel[i + |OPEN|..n]] + rest))
  {
    var raws := [sel[i + |OPEN|..n]] + rest;
    assert raws[1..] == rest;
    GlueItem(sel, i, n, Tail(raws));
    ListParts(raws);
  }

  lemma GlueItem(sel: string, i: nat, n: nat, tail: string)
    requires At(sel, i, OPEN) && i + |OPEN| <= n && At(sel, n, "\"]")
    requires (n + 2 == |sel| && tail == "") || (n + 2 < |sel| && tail == [sel[n + 2]] + sel[n + 3..])
    ensures Follows(sel, i, OPEN + (sel[i + |OPEN|..n] + (['"'] + ([']'] + tail))))
  {
    var o := i + |OPEN|;
    assert sel[n..n + 2][0] == sel[n] && sel[n..n + 2][1] == sel[n + 1];
    assert sel[n..] == ['"'] + ([']'] + sel[n + 2..]);
    assert sel[n + 2..] == tail;
    assert sel[o..] == sel[o..n] + sel[n..];
    assert sel[i..] == sel[i..o] + sel[o..];
  }

  /** The selectors it accepts, exactly: lists of [data-tab="..."] with commas and nothing else between
      them, and the values are those of the texts between the quotes. */
  lemma AcceptsExactly(sel: string, values: seq<string>)
    ensures Parse(sel, 0) == Ok(values) <==> exists raws: seq<string> :: raws != [] && Spell(raws, values) && sel == ListOf(raws)
  {
    assert sel[0..] == sel;
    if Parse(sel, 0) == Ok(values) {
      var raws := ParsedIsList(sel, 0);
      assert Spell(raws, values) && sel == ListOf(raws);
    }
    if raws: seq<string> :| raws != [] && Spell(raws, values) && sel == ListOf(raws) {
      ParseListOf(sel, 0, raws, values);
    }
  }

  // ------------------------------------------------ escaped values read back

  function Escape(v: string): string {
    if v == "" then ""
    else if v[0] == '"' || v[0] == '\\' then ['\\', v[0]] + Escape(v[1..])
    else [v[0]] + Escape(v[1..])
  }

  lemma {:induction false} UnescapeUndoesEscape(v: string)
    ensures Unescape(Escape(v)) == Some(v)
  {
    if v != "" {
      UnescapeUndoesEscape(v[1..]);
      var raw := Escape(v);
      assert [v[0]] + v[1..] == v;
      if v[0] == '"' || v[0] == '\\' {
        assert raw[0] == '\\' && raw[1] == v[0] && raw[2..] == Escape(v[1..]);
      } else {
        assert raw[0] == v[0] && raw[1..] == Escape(v[1..]);
      }
    }
  }

  function Escapes(values: seq<string>): (r: seq<string>)
    ensures |r| == |values|
  {
    seq(|values|, k requires 0 <= k < |values| => Escape(values[k]))
  }

  /** Every non-empty list of values, printed with quotes and backslashes escaped, reads back. */
  lemma SelectorListReadsBack(values: seq<string>)
    requires values != []
    ensures Parse(ListOf(Escapes(values)), 0) == Ok(values)
  {
    forall k | 0 <= k < |values| ensures Unescape(Escapes(values)[k]) == Some(values[k]) {
      UnescapeUndoesEscape(values[k]);
    }
    var list := ListOf(Escapes(values));
    assert list[0..] == list;
    ParseListOf(list, 0, Escapes(values), values);
  }

  // --------------------------------------------------- unescaped values

  /** Reading consumes a character per character of the value, and one more per backslash. */
  lemma {:induction false} ReadShrinks(sel: string, i: nat)
    requires ReadValue(sel, i).next <= |sel|
    ensures var Reading(v, j) := ReadValue(sel, i);
            && |v| <= j - i
            && (|v| == j - i ==> v == sel[i..j] && forall k :: i <= k < j ==> sel[k] != '"' && sel[k] != '\\')
    decreases |sel| - i
  {
    if i < |sel| && sel[i] != '"' {
      if sel[i] == '\\' {
        if i + 1 < |sel| { ReadShrinks(sel, i + 2); }
      } else {
        ReadShrinks(sel, i + 1);
        var Reading(v, j) := ReadValue(sel, i + 1);
        if |v| == j - (i + 1) {
          assert [sel[i]] + sel[i + 1..j] == sel[i..j];
        }
      }
    }
  }

  lemma {:induction false} ReadPlain(sel: string, i: nat, j: nat)
    requires i <= j < |sel| && sel[j] == '"' && forall k :: i <= k < j ==> sel[k] != '"' && sel[k] != '\\'
    ensures ReadValue(sel, i) == Reading(sel[i..j], j)
    decreases j - i
  {
    if i < j {
      ReadPlain(sel, i + 1, j);
      assert [sel[i]] + sel[i + 1..j] == sel[i..j];
    }
  }

  predicate Plain(v: string) {
    forall k :: 0 <= k < |v| ==> v[k] != '"' && v[k] != '\\'
  }

  lemma ParseIsNotEmpty(sel: string, i: nat)
    ensures Parse(sel, i).Ok? ==> |Parse(sel, i).values| >= 1
  {
  }

  lemma ExactReadIsPlain(sel: string, i: nat, v: string)
    requires i + |v| <= |sel| && sel[i..i + |v|] == v && ReadValue(sel, i) == Reading(v, i + |v|)
    ensures Plain(v)
  {
    ReadShrinks(sel, i);
    assert forall k :: 0 <= k < |v| ==> v[k] == sel[i + k];
  }

  /** A raw value put between the quotes parses to exactly that one value if and only if it has
      neither a quote nor a backslash. */
  lemma RawValueIsSafeIff(v: string)
    ensures Parse(OPEN + v + "\"]", 0) == Ok([v]) <==> Plain(v)
  {
    var sel, o := OPEN + v + "\"]", |OPEN|;
    RawParts(OPEN, v);
    if Plain(v) {
      ReadPlain(sel, o, o + |v|);
      ParseStep(sel, 0, v, o + |v|);
    }
    if Parse(sel, 0) == Ok([v]) {
      OneValueIsWhole(sel, 0);
      ExactReadIsPlain(sel, o, v);
    }
  }

  lemma RawParts(open: string, v: string)
    ensures var sel, o := open + v + "\"]", |open|;
            && |sel| == o + |v| + 2 && At(sel, 0, open) && At(sel, o, v) && At(sel, o + |v|, "\"]")
            && sel[o + |v|] == '"' && forall k :: o <= k < o + |v| ==> sel[k] == v[k - o]
  {
    var sel, o := open + v + "\"]", |open|;
    assert sel[0..o] == open && sel[o..o + |v|] == v && sel[o + |v|..o + |v| + 2] == "\"]";
  }

  /** A list of one value ends where the selector does. */
  lemma OneValueIsWhole(sel: string, i: nat)
    requires Parse(sel, i).Ok? && |Parse(sel, i).values| == 1
    ensures |sel| >= i + |OPEN| + 2 && ReadValue(sel, i + |OPEN|) == Reading(Parse(sel, i).values[0], |sel| - 2)
  {
    var j := Close(sel, i + |OPEN|);
    ReadAdvances(sel, i + |OPEN|);
    ParseIsNotEmpty(sel, j + 1);
  }
}
