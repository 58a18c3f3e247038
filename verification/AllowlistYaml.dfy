/**
 The loader of the accessibility allowlist: the narrow YAML parser, scalar coercion, and the
 all-or-nothing validation with expiry dates.
 */
module AllowlistYaml {
  import opened Prelude
  import opened Text

  datatype Value = Null | Bool(b: bool) | Int(n: int) | Str(s: string)

  datatype Error = CannotParse(line: string) | IndentedKey(key: string)

  datatype Doc = Doc(topLevel: map<string, Value>, entries: seq<map<string, Value>>)

  datatype Result = Ok(doc: Doc) | Err(error: Error)

  // --------------------------------------------------------------- lines

  function DropCr(s: string): string {
    if s != "" && s[|s| - 1] == '\r' then s[..|s| - 1] else s
  }

  /** split(/\r?\n/) */
  function SplitLines(s: string): seq<string>
    decreases |s|
  {
    var i := Find(s, '\n', 0);
    if i == |s| then [s] else [DropCr(s[..i])] + SplitLines(s[i + 1..])
  }

  /** A comment starts at p: a # at the start of the line or after whitespace. */
  predicate CommentAt(l: string, p: nat) {
    || (p == 0 < |l| && l[0] == '#' && OneLine(l[1..]))
    || (p + 1 < |l| && IsSpace(l[p]) && l[p + 1] == '#' && OneLine(l[p + 2..]))
  }

  function FirstComment(l: string, p: nat): (r: nat)
    requires p <= |l|
    ensures p <= r <= |l|
    decreases |l| - p
  {
    if p == |l| || CommentAt(l, p) then p else FirstComment(l, p + 1)
  }

  function CleanLine(l: string): string {
    TrimEnd(l[..FirstComment(l, 0)])
  }

  function CleanLines(lines: seq<string>): seq<string> {
    if lines == [] then []
    else (if Trim(CleanLine(lines[0])) == "" then [] else [CleanLine(lines[0])]) + CleanLines(lines[1..])
  }

  predicate IsKeyStart(c: char) {
    'a' <= c <= 'z' || 'A' <= c <= 'Z' || c == '_'
  }

  predicate IsKeyChar(c: char) {
    IsKeyStart(c) || IsDigit(c)
  }

  datatype Line = Line(indented: bool, dash: bool, key: string, val: string)

  /** The line pattern: indent, optional dash, key, colon, rest. */
  function ReadLine(l: string): Option<Line> {
    var i := SkipSpaces(l, 0);
    var dash := i < |l| && l[i] == '-';
    ReadKey(l, SkipSpaces(l, if dash then i + 1 else i), i > 0, dash)
  }

  /** The pattern from the key at k on. */
  function ReadKey(l: string, k: nat, indented: bool, dash: bool): Option<Line>
    requires k <= |l|
  {
    if k == |l| || !IsKeyStart(l[k]) then None
    else
      var m := RunEnd(l, k, IsKeyChar);
      var n := SkipSpaces(l, m);
      if n == |l| || l[n] != ':' then None
      else
        var r := SkipSpaces(l, n + 1);
        if OneLine(l[r..]) then Some(Line(indented, dash, l[k..m], l[r..])) else None
  }

  // -------------------------------------------------------------- scalars

  predicate IsInteger(v: string) {
    var digits := if v != "" && v[0] == '-' then v[1..] else v;
    digits != "" && AllDigits(digits)
  }

  function IntegerOf(v: string): int
    requires IsInteger(v)
  {
    var n: int := Number(if v[0] == '-' then v[1..] else v);
    if v[0] == '-' then -n else n
  }

  predicate IsQuoted(v: string, quote: char) {
    |v| >= 2 && v[0] == quote && v[|v| - 1] == quote && OneLine(v[1..|v| - 1])
  }

  function Coerce(v: string): Value {
    if v == "" || v == "~" || v == "null" then Null
    else if v == "true" then Bool(true)
    else if v == "false" then Bool(false)
    else if IsInteger(v) then Int(IntegerOf(v))
    else if IsQuoted(v, '\'') || IsQuoted(v, '"') then Str(v[1..|v| - 1])
    else Str(v)
  }

  /** Property assignment on a plain object; assigning a scalar to __proto__ adds no property. */
  function Assign(m: map<string, Value>, key: string, v: Value): map<string, Value> {
    if key == "__proto__" then m else m[key := v]
  }

  // ------------------------------------------------------------ the parser

  datatype State = State(topLevel: map<string, Value>, entries: seq<map<string, Value>>, current: Option<map<string, Value>>)

  datatype Step = Go(s: State) | Stop(error: Error)

  function Flush(s: State): seq<map<string, Value>> {
    if s.current.Some? then s.entries + [s.current.value] else s.entries
  }

  /** One turn of the loop over the lines. */
  function Feed(s: State, raw: string): Step {
    match ReadLine(raw)
    case None => Stop(CannotParse(raw))
    case Some(l) =>
      var v := Coerce(Trim(l.val));
      if l.dash then Go(State(s.topLevel, Flush(s), Some(Assign(map[], l.key, v))))
      else if s.current.Some? then Go(s.(current := Some(Assign(s.current.value, l.key, v))))
      else if l.indented then Stop(IndentedKey(l.key))
      else Go(s.(topLevel := Assign(s.topLevel, l.key, v)))
  }

  function FeedAll(s: State, lines: seq<string>): Step
    decreases |lines|
  {
    if lines == [] then Go(s)
    else match Feed(s, lines[0])
      case Stop(e) => Stop(e)
      case Go(s') => FeedAll(s', lines[1..])
  }

  function DropBom(src: string): string {
    if src != "" && src[0] as int == 0xFEFF then src[1..] else src
  }

  const START := State(map[], [], None)

  function Parse(src: string): Result {
    var lines := CleanLines(SplitLines(DropBom(src)));
    if |lines| == 1 && Trim(lines[0]) == "[]" then Ok(Doc(map[], []))
    else match FeedAll(START, lines)
      case Stop(e) => Err(e)
      case Go(s) => Ok(Doc(s.topLevel, Flush(s)))
  }

  method ParseAllowlist(src: string) returns (r: Result)
    ensures r == Parse(src)
  {
    var lines := CleanLines(SplitLines(DropBom(src)));
    if lines == [] || (|lines| == 1 && Trim(lines[0]) == "[]") {
      return Ok(Doc(map[], []));
    }
    var step := ParseLines(lines);
    if step.Stop? {
      return Err(step.error);
    }
    var s := step.s;
    return Ok(Doc(s.topLevel, if s.current.Some? then s.entries + [s.current.value] else s.entries));
  }

  /** The loop over the lines. */
  method ParseLines(lines: seq<string>) returns (r: Step)
    ensures r == FeedAll(START, lines)
  {
    var topLevel, entries, current: Option<map<string, Value>> := map[], [], None;
    for i := 0 to |lines|
      invariant FeedAll(State(topLevel, entries, current), lines[i..]) == FeedAll(START, lines)
    {
      assert lines[i..][1..] == lines[i + 1..];
      var step := ParseLine(topLevel, entries, current, lines[i]);
      if step.Stop? {
        return step;
      }
      topLevel, entries, current := step.s.topLevel, step.s.entries, step.s.current;
    }
    assert lines[|lines|..] == [];
    return Go(State(topLevel, entries, current));
  }

  /** The body of the loop. */
  method ParseLine(top: map<string, Value>, done: seq<map<string, Value>>, open: Option<map<string, Value>>, raw: string) returns (r: Step)
    ensures r == Feed(State(top, done, open), raw)
  {
    var topLevel, entries, current := top, done, open;
    var m := ReadLine(raw);
    if m.None? {
      return Stop(CannotParse(raw));
    }
    var l := m.value;
    var v := Coerce(Trim(l.val));
    if l.dash {
      if current.Some? {
        entries := entries + [current.value];
      }
      current := Some(map[]);
    }
    if current.None? {
      if l.indented {
        return Stop(IndentedKey(l.key));
      }
      topLevel := Assign(topLevel, l.key, v);
    } else {
      current := Some(Assign(current.value, l.key, v));
    }
    return Go(State(topLevel, entries, current));
  }

  // -------------------------------------------------------------- printing

  /** A key with a value and the text it is written with. */
  datatype Field = Field(key: string, value: Value, text: string)

  /** A string that is written without quotes is none of the other forms. */
  predicate IsBare(s: string) {
    && s != "" && s != "~" && s != "null" && s != "true" && s != "false" && !IsNumeral(s)
    && !(|s| >= 2 && (s[0] == '"' || s[0] == '\'') && s[|s| - 1] == s[0])
  }

  /** Digits, with or without a sign. */
  predicate IsNumeral(s: string) {
    (s != "" && AllDigits(s)) || (|s| >= 2 && s[0] == '-' && AllDigits(s[1..]))
  }

  /** The texts that stand for a value. */
  predicate WrittenAs(v: Value, text: string) {
    match v
    case Null => text == "" || text == "~" || text == "null"
    case Bool(b) => text == if b then "true" else "false"
    case Int(n) =>
      if text != "" && text[0] == '-' then |text| >= 2 && AllDigits(text[1..]) && n + Number(text[1..]) == 0
      else text != "" && AllDigits(text) && n == Number(text)
    case Str(s) => text == ['"'] + s + ['"'] || text == ['\''] + s + ['\''] || (text == s && IsBare(s))
  }

  function PrintField(prefix: string, f: Field): string {
    prefix + f.key + ": " + f.text
  }

  function PrintFields(prefix: string, fields: seq<Field>): seq<string> {
    if fields == [] then [] else [PrintField(prefix, fields[0])] + PrintFields(prefix, fields[1..])
  }

  function PrintEntry(fields: seq<Field>): seq<string>
    requires fields != []
  {
    [PrintField("- ", fields[0])] + PrintFields("  ", fields[1..])
  }

  function PrintEntries(entries: seq<seq<Field>>): seq<string>
    requires forall i :: 0 <= i < |entries| ==> entries[i] != []
  {
    if entries == [] then [] else PrintEntry(entries[0]) + PrintEntries(entries[1..])
  }

  function Join(lines: seq<string>): string {
    if lines == [] then "" else if |lines| == 1 then lines[0] else lines[0] + "\n" + Join(lines[1..])
  }

  function Print(tops: seq<Field>, entries: seq<seq<Field>>): string
    requires forall i :: 0 <= i < |entries| ==> entries[i] != []
  {
    Join(PrintFields("", tops) + PrintEntries(entries))
  }

  function MapOf(m: map<string, Value>, fields: seq<Field>): map<string, Value>
    decreases |fields|
  {
    if fields == [] then m else MapOf(Assign(m, fields[0].key, fields[0].value), fields[1..])
  }

  function MapsOf(entries: seq<seq<Field>>): seq<map<string, Value>> {
    if entries == [] then [] else [MapOf(map[], entries[0])] + MapsOf(entries[1..])
  }

  /** A key the line pattern accepts; a string without line ends and without a # after whitespace. */
  predicate IsKey(key: string) {
    key != "" && IsKeyStart(key[0]) && forall i :: 0 <= i < |key| ==> IsKeyChar(key[i])
  }

  predicate NoComment(s: string) {
    forall i :: 0 <= i < |s| - 1 ==> !(IsSpace(s[i]) && s[i + 1] == '#')
  }

  predicate IsPlain(text: string) {
    && text != "" && !IsSpace(text[0]) && !IsSpace(text[|text| - 1]) && text[0] != '#'
    && OneLine(text) && NoComment(text)
  }

  predicate Printable(f: Field) {
    IsKey(f.key) && IsPlain(f.text) && WrittenAs(f.value, f.text)
  }

  predicate AllPrintable(fields: seq<Field>) {
    forall f :: f in fields ==> Printable(f)
  }

  // ------------------------------------------------ a written value reads back

  /** Coercion is exact: on one line, a text gives a value if and only if it stands for it. */
  lemma CoerceIff(v: Value, text: string)
    requires OneLine(text)
    ensures Coerce(text) == v <==> WrittenAs(v, text)
  {
    WrittenReads(text);
    if WrittenAs(v, text) { WrittenOnce(v, text); }
  }

  lemma WrittenReads(text: string)
    requires OneLine(text)
    ensures WrittenAs(Coerce(text), text)
  {
    if IsQuoted(text, '\'') || IsQuoted(text, '"') {
      QuotedText(text);
    } else if |text| >= 2 {
      assert OneLine(text[1..|text| - 1]);
    }
  }

  lemma QuotedText(text: string)
    requires |text| >= 2
    ensures text == [text[0]] + text[1..|text| - 1] + [text[|text| - 1]]
  {
  }

  /** A text stands for one value. */
  lemma WrittenOnce(v: Value, text: string)
    requires OneLine(text) && WrittenAs(v, text)
    ensures Coerce(text) == v
  {
    match v
    case Null =>
    case Bool(b) =>
    case Int(n) =>
      assert text[0] == '-' || IsDigit(text[0]);
    case Str(s) =>
      if text == ['"'] + s + ['"'] || text == ['\''] + s + ['\''] {
        QuotedOnce(text, text[0], s);
      } else {
        assert IsBare(text);
      }
  }

  lemma QuotedOnce(text: string, q: char, s: string)
    requires OneLine(text) && (q == '"' || q == '\'') && text == [q] + s + [q]
    ensures Coerce(text) == Str(s)
  {
    assert text[0] == q && text[|text| - 1] == q && text[1..|text| - 1] == s;
    assert !IsInteger(text) by { assert !IsDigit(q) && q != '-'; }
    assert text != "~" && text != "null" && text != "true" && text != "false" by {
      assert "~"[0] != q && "null"[0] != q && "true"[0] != q && "false"[0] != q;
    }
  }

  /** Every one-line string without a comment can be written in either kind of quotes, every integer in
      decimal. */
  lemma QuotedIsPrintable(key: string, s: string, q: char)
    requires IsKey(key) && OneLine(s) && NoComment(s) && (q == '"' || q == '\'')
    ensures Printable(Field(key, Str(s), [q] + s + [q]))
  {
    var p := [q] + s + [q];
    forall i | 0 <= i < |p| ensures !IsLineEnd(p[i]) && (i < |p| - 1 ==> !(IsSpace(p[i]) && p[i + 1] == '#')) {
      if 0 < i < |p| - 1 { assert p[i] == s[i - 1]; }
      if 0 < i < |p| - 2 { assert p[i + 1] == s[i]; }
    }
  }

  lemma IntegerIsPrintable(key: string, n: nat)
    requires IsKey(key)
    ensures Printable(Field(key, Int(n), Decimal(n))) && Printable(Field(key, Int(0 - n), ['-'] + Decimal(n)))
  {
    DecimalReadsBack(n);
    DigitsArePlain(Decimal(n), false);
    DigitsArePlain(['-'] + Decimal(n), true);
    assert (['-'] + Decimal(n))[1..] == Decimal(n);
    assert IsDigit(Decimal(n)[0]);
  }

  lemma DigitsArePlain(p: string, signed: bool)
    requires p != "" && forall i :: 0 <= i < |p| ==> IsDigit(p[i]) || (signed && p[i] == '-')
    ensures IsPlain(p)
  {
  }

  // -------------------------------------------------- a printed line reads back

  predicate IsPrefix(prefix: string) {
    prefix == "" || prefix == "- " || prefix == "  "
  }

  /** Where the parts of a printed line are. */
  lemma LineParts(prefix: string, f: Field)
    requires IsPrefix(prefix)
    ensures var l, k, m := PrintField(prefix, f), |prefix|, |prefix| + |f.key|;
            && |l| == m + 2 + |f.text|
            && l[..k] == prefix && l[k..m] == f.key && l[m] == ':' && l[m + 1] == ' ' && l[m + 2..] == f.text
            && (forall i :: 0 <= i < k ==> l[i] == prefix[i])
            && (forall i :: k <= i < m ==> l[i] == f.key[i - k])
            && (forall i :: m + 2 <= i < |l| ==> l[i] == f.text[i - m - 2])
  {
    FourParts(prefix, f.key, ": ", f.text);
  }

  lemma FourParts(a: string, b: string, c: string, d: string)
    requires |c| == 2
    ensures var l, k, m := a + b + c + d, |a|, |a| + |b|;
            && |l| == m + 2 + |d| && l[..k] == a && l[k..m] == b && l[m] == c[0] && l[m + 1] == c[1] && l[m + 2..] == d
            && (forall i :: 0 <= i < k ==> l[i] == a[i])
            && (forall i :: k <= i < m ==> l[i] == b[i - k])
            && (forall i :: m + 2 <= i < |l| ==> l[i] == d[i - m - 2])
  {
  }

  /** The layout of a line: whitespace up to i, there a dash or not, whitespace up to the key at k, the key
      up to m, whitespace up to the colon at n, whitespace up to r, and the value, on one line. */
  predicate Layout(l: string, dash: bool, i: nat, k: nat, m: nat, n: nat, r: nat) {
    && i <= k < m <= n < r <= |l|
    && (forall j :: 0 <= j < i ==> IsSpace(l[j]))
    && (if dash then i < k && l[i] == '-' && forall j :: i < j < k ==> IsSpace(l[j]) else i == k)
    && IsKeyStart(l[k]) && (forall j :: k <= j < m ==> IsKeyChar(l[j]))
    && (forall j :: m <= j < n ==> IsSpace(l[j])) && l[n] == ':'
    && (forall j :: n < j < r ==> IsSpace(l[j])) && (r < |l| ==> !IsSpace(l[r])) && OneLine(l[r..])
  }

  /** Every line of this layout is read as such, whatever the whitespace. */
  lemma LineIsRead(l: string, dash: bool, i: nat, k: nat, m: nat, n: nat, r: nat)
    requires Layout(l, dash, i, k, m, n, r)
    ensures ReadLine(l) == Some(Line(i > 0, dash, l[k..m], l[r..]))
  {
    SkipSpacesIs(l, 0, i);
    SkipSpacesIs(l, if dash then i + 1 else i, k);
    KeyIsRead(l, k, m, n, r, i > 0, dash);
  }

  lemma KeyIsRead(l: string, k: nat, m: nat, n: nat, r: nat, indented: bool, dash: bool)
    requires k < m <= n < r <= |l| && IsKeyStart(l[k]) && l[n] == ':'
    requires (forall j :: k <= j < m ==> IsKeyChar(l[j])) && (forall j :: m <= j < n || n < j < r ==> IsSpace(l[j]))
    requires (r < |l| ==> !IsSpace(l[r])) && OneLine(l[r..])
    ensures ReadKey(l, k, indented, dash) == Some(Line(indented, dash, l[k..m], l[r..]))
  {
    RunEndIs(l, k, m, IsKeyChar);
    SkipSpacesIs(l, m, n);
    SkipSpacesIs(l, n + 1, r);
  }

  lemma PrintedLayout(prefix: string, f: Field)
    requires IsPrefix(prefix) && IsKey(f.key) && IsPlain(f.text)
    ensures var l, k, m, dash := PrintField(prefix, f), |prefix|, |prefix| + |f.key|, prefix == "- ";
            Layout(l, dash, if dash then 0 else k, k, m, m, m + 2) && l[k..m] == f.key && l[m + 2..] == f.text
  {
    var l, k, m := PrintField(prefix, f), |prefix|, |prefix| + |f.key|;
    LineParts(prefix, f);
    assert l[k] == f.key[0] && l[m + 2] == f.text[0];
  }

  lemma LineReadsBack(prefix: string, f: Field)
    requires IsPrefix(prefix) && IsKey(f.key) && IsPlain(f.text)
    ensures ReadLine(PrintField(prefix, f)) == Some(Line(prefix == "  ", prefix == "- ", f.key, f.text))
  {
    var l, k, m, dash := PrintField(prefix, f), |prefix|, |prefix| + |f.key|, prefix == "- ";
    PrintedLayout(prefix, f);
    LineIsRead(l, dash, if dash then 0 else k, k, m, m, m + 2);
  }

  lemma {:induction false} NoFirstComment(l: string, p: nat)
    requires p <= |l| && NoComment(l) && (l != "" ==> l[0] != '#')
    ensures FirstComment(l, p) == |l|
    decreases |l| - p
  {
    if p < |l| { NoFirstComment(l, p + 1); }
  }

  lemma PrintedLineHasNoComment(prefix: string, f: Field)
    requires IsPrefix(prefix) && IsKey(f.key) && IsPlain(f.text)
    ensures NoComment(PrintField(prefix, f)) && OneLine(PrintField(prefix, f))
  {
    var l, k, m := PrintField(prefix, f), |prefix|, |prefix| + |f.key|;
    LineParts(prefix, f);
    forall i | 0 <= i < |l| ensures !IsLineEnd(l[i]) && (i < |l| - 1 ==> !(IsSpace(l[i]) && l[i + 1] == '#')) {
      if i < k {
        assert l[i] == prefix[i];
        assert l[i + 1] != '#';
      } else if i < m {
        assert IsKeyChar(l[i]);
      } else if i >= m + 2 {
        var p := f.text;
        assert l[i] == p[i - m - 2];
        if i < |l| - 1 { assert l[i + 1] == p[i - m - 1]; }
      }
    }
  }

  lemma PrintedLineIsClean(prefix: string, f: Field)
    requires IsPrefix(prefix) && IsKey(f.key) && IsPlain(f.text)
    ensures IsClean(PrintField(prefix, f))
  {
    var l, k := PrintField(prefix, f), |prefix|;
    LineParts(prefix, f);
    PrintedLineHasNoComment(prefix, f);
    assert l[k] == f.key[0];
    assert l[0] != '#' && DropBom(l) == l by { if k > 0 { assert l[0] == prefix[0]; } }
    NoFirstComment(l, 0);
    assert l[..|l|] == l;
    assert !IsSpace(l[|l| - 1]);
    var i := if prefix == "- " then 0 else k;
    SkipSpacesIs(l, 0, i);
    TrimFrom(l, i);
    assert l[i] != '[';
  }

  /** A comment after a space, behind any line that has none, is dropped and nothing else. */
  lemma CommentIsDropped(l: string, comment: string)
    requires l != "" && l[0] != '#' && !IsSpace(l[|l| - 1]) && NoComment(l) && OneLine(comment)
    ensures CleanLine(l + (" #" + comment)) == l
  {
    var s := l + (" #" + comment);
    assert s[|l|] == ' ' && s[|l| + 1] == '#' && s[|l| + 2..] == comment;
    assert CommentAt(s, |l|);
    forall p | 0 <= p < |l| ensures !CommentAt(s, p) {
      assert s[p] == l[p] && s[p + 1] == if p + 1 < |l| then l[p + 1] else ' ';
    }
    FirstCommentIs(s, 0, |l|);
    assert s[..|l|] == l;
  }

  lemma {:induction false} FirstCommentIs(l: string, p: nat, q: nat)
    requires p <= q < |l| && CommentAt(l, q) && forall k :: p <= k < q ==> !CommentAt(l, k)
    ensures FirstComment(l, p) == q
    decreases q - p
  {
    if p < q { FirstCommentIs(l, p + 1, q); }
  }

  lemma TrimFrom(l: string, i: nat)
    requires i < |l| && SkipSpaces(l, 0) == i && !IsSpace(l[|l| - 1])
    ensures Trim(l) == l[i..]
  {
    assert l[i..][|l[i..]| - 1] == l[|l| - 1];
  }

  // --------------------------------------------------- a printed document reads back

  lemma SplitFirst(l: string, rest: string)
    requires OneLine(l)
    ensures SplitLines(l + "\n" + rest) == [l] + SplitLines(rest)
  {
    var s := l + "\n" + rest;
    assert s[..|l|] == l && s[|l|] == '\n' && s[|l| + 1..] == rest;
    assert forall k :: 0 <= k < |l| ==> s[k] == l[k];
    FindIs(s, '\n', 0, |l|);
    assert DropCr(l) == l;
  }

  lemma {:induction false} SplitJoins(lines: seq<string>)
    requires lines != [] && forall l :: l in lines ==> OneLine(l)
    ensures SplitLines(Join(lines)) == lines
  {
    var s, l := Join(lines), lines[0];
    assert l in lines && OneLine(l);
    if |lines| == 1 {
      FindIs(s, '\n', 0, |s|);
    } else {
      SplitFirst(l, Join(lines[1..]));
      SplitJoins(lines[1..]);
    }
  }

  ghost predicate AllClean(lines: seq<string>) {
    forall l :: l in lines ==> IsClean(l)
  }

  /** A line that cleaning keeps, and that is not taken for an empty list. */
  ghost predicate IsClean(l: string) {
    CleanLine(l) == l && Trim(l) != "" && Trim(l) != "[]" && OneLine(l) && DropBom(l) == l
  }

  lemma {:induction false} CleanLinesKeep(lines: seq<string>)
    requires AllClean(lines)
    ensures CleanLines(lines) == lines
  {
    if lines != [] {
      assert lines[0] in lines;
      CleanLinesKeep(lines[1..]);
    }
  }

  lemma {:induction false} FieldsAreClean(prefix: string, fields: seq<Field>)
    requires IsPrefix(prefix) && AllPrintable(fields)
    ensures AllClean(PrintFields(prefix, fields))
  {
    if fields != [] {
      assert Printable(fields[0]);
      PrintedLineIsClean(prefix, fields[0]);
      FieldsAreClean(prefix, fields[1..]);
    }
  }

  lemma {:induction false} EntriesAreClean(entries: seq<seq<Field>>)
    requires forall i :: 0 <= i < |entries| ==> entries[i] != [] && AllPrintable(entries[i])
    ensures AllClean(PrintEntries(entries))
  {
    if entries != [] {
      var e := entries[0];
      assert Printable(e[0]);
      PrintedLineIsClean("- ", e[0]);
      FieldsAreClean("  ", e[1..]);
      EntriesAreClean(entries[1..]);
    }
  }

  lemma {:induction false} FeedAllSplits(s: State, a: seq<string>, b: seq<string>)
    ensures FeedAll(s, a + b) == match FeedAll(s, a) case Stop(e) => Stop(e) case Go(s') => FeedAll(s', b)
    decreases |a|
  {
    if a == [] {
      assert a + b == b;
    } else {
      assert (a + b)[1..] == a[1..] + b;
      if Feed(s, a[0]).Go? { FeedAllSplits(Feed(s, a[0]).s, a[1..], b); }
    }
  }

  lemma FeedPrinted(s: State, prefix: string, f: Field)
    requires IsPrefix(prefix) && Printable(f)
    ensures Feed(s, PrintField(prefix, f)) ==
              if prefix == "- " then Go(State(s.topLevel, Flush(s), Some(Assign(map[], f.key, f.value))))
              else if s.current.Some? then Go(s.(current := Some(Assign(s.current.value, f.key, f.value))))
              else if prefix == "  " then Stop(IndentedKey(f.key))
              else Go(s.(topLevel := Assign(s.topLevel, f.key, f.value)))
  {
    LineReadsBack(prefix, f);
    var p := f.text;
    SkipSpacesIs(p, 0, 0);
    assert p[0..] == p && Trim(p) == p;
    CoerceIff(f.value, f.text);
  }

  lemma {:induction false} FeedTops(s: State, fields: seq<Field>)
    requires AllPrintable(fields) && s.current.None?
    ensures FeedAll(s, PrintFields("", fields)) == Go(s.(topLevel := MapOf(s.topLevel, fields)))
    decreases |fields|
  {
    if fields != [] {
      FeedPrinted(s, "", fields[0]);
      FeedTops(s.(topLevel := Assign(s.topLevel, fields[0].key, fields[0].value)), fields[1..]);
    }
  }

  lemma {:induction false} FeedRest(s: State, fields: seq<Field>)
    requires AllPrintable(fields) && s.current.Some?
    ensures FeedAll(s, PrintFields("  ", fields)) == Go(s.(current := Some(MapOf(s.current.value, fields))))
    decreases |fields|
  {
    if fields != [] {
      FeedPrinted(s, "  ", fields[0]);
      FeedRest(s.(current := Some(Assign(s.current.value, fields[0].key, fields[0].value))), fields[1..]);
    }
  }

  lemma FeedEntry(s: State, fields: seq<Field>)
    requires fields != [] && AllPrintable(fields)
    ensures FeedAll(s, PrintEntry(fields)) == Go(State(s.topLevel, Flush(s), Some(MapOf(map[], fields))))
  {
    FeedPrinted(s, "- ", fields[0]);
    assert PrintEntry(fields)[1..] == PrintFields("  ", fields[1..]);
    FeedRest(State(s.topLevel, Flush(s), Some(Assign(map[], fields[0].key, fields[0].value))), fields[1..]);
  }

  /** The state after an entry, before the lines rest. */
  lemma FeedEntryThen(s: State, fields: seq<Field>, rest: seq<string>)
    requires fields != [] && AllPrintable(fields)
    ensures FeedAll(s, PrintEntry(fields) + rest) == FeedAll(State(s.topLevel, Flush(s), Some(MapOf(map[], fields))), rest)
  {
    FeedEntry(s, fields);
    FeedAllSplits(s, PrintEntry(fields), rest);
  }

  ghost predicate Yields(r: Step, topLevel: map<string, Value>, entries: seq<map<string, Value>>) {
    r.Go? && r.s.topLevel == topLevel && Flush(r.s) == entries
  }

  lemma {:induction false} FeedEntries(s: State, entries: seq<seq<Field>>)
    requires forall i :: 0 <= i < |entries| ==> entries[i] != [] && AllPrintable(entries[i])
    ensures Yields(FeedAll(s, PrintEntries(entries)), s.topLevel, Flush(s) + MapsOf(entries))
    decreases |entries|
  {
    if entries == [] {
      assert Flush(s) + MapsOf(entries) == Flush(s);
    } else {
      var m, rest := MapOf(map[], entries[0]), entries[1..];
      FeedEntryThen(s, entries[0], PrintEntries(rest));
      FeedEntries(State(s.topLevel, Flush(s), Some(m)), rest);
      Regroup(Flush(s), [m], MapsOf(rest));
    }
  }

  /** Parsing a printed allowlist returns the same top-level map and the same entries in order. */
  lemma AllowlistReadsBack(tops: seq<Field>, entries: seq<seq<Field>>)
    requires AllPrintable(tops) && forall i :: 0 <= i < |entries| ==> entries[i] != [] && AllPrintable(entries[i])
    ensures Parse(Print(tops, entries)) == Ok(Doc(MapOf(map[], tops), MapsOf(entries)))
  {
    var lines := PrintFields("", tops) + PrintEntries(entries);
    FieldsAreClean("", tops);
    EntriesAreClean(entries);
    PrintedText(lines);
    assert |lines| == 1 ==> lines[0] in lines && IsClean(lines[0]);
    FeedDoc(tops, entries);
  }

  lemma FeedDoc(tops: seq<Field>, entries: seq<seq<Field>>)
    requires AllPrintable(tops) && forall i :: 0 <= i < |entries| ==> entries[i] != [] && AllPrintable(entries[i])
    ensures var r := FeedAll(START, PrintFields("", tops) + PrintEntries(entries));
            r.Go? && r.s.topLevel == MapOf(map[], tops) && Flush(r.s) == MapsOf(entries)
  {
    FeedTops(START, tops);
    FeedAllSplits(START, PrintFields("", tops), PrintEntries(entries));
    FeedEntries(START.(topLevel := MapOf(map[], tops)), entries);
    assert [] + MapsOf(entries) == MapsOf(entries);
  }

  /** Clean lines survive being joined, split and cleaned. */
  lemma PrintedText(lines: seq<string>)
    requires AllClean(lines)
    ensures CleanLines(SplitLines(DropBom(Join(lines)))) == lines
  {
    if lines == [] {
      FindIs("", '\n', 0, 0);
      assert SplitLines("") == [""];
      assert Trim(CleanLine("")) == "";
      assert CleanLines([""]) == [] + CleanLines([]);
    } else {
      var l := lines[0];
      assert l in lines && IsClean(l);
      assert l != "";
      assert Join(lines)[0] == l[0];
      SplitJoins(lines);
      CleanLinesKeep(lines);
    }
  }

  /** The key and the value of each line. */
  function FieldsOf(lines: seq<string>): seq<Field>
    requires forall l :: l in lines ==> ReadLine(l).Some?
  {
    if lines == [] then []
    else
      var l := ReadLine(lines[0]).value;
      [Field(l.key, Coerce(Trim(l.val)), Trim(l.val))] + FieldsOf(lines[1..])
  }

  /** From the first dash on, a line without a dash goes to the latest entry, whatever its indent,
      and nothing else changes. */
  lemma {:induction false} KeysGoToLatestEntry(s: State, lines: seq<string>)
    requires s.current.Some?
    requires forall l :: l in lines ==> ReadLine(l).Some? && !ReadLine(l).value.dash
    ensures FeedAll(s, lines) == Go(s.(current := Some(MapOf(s.current.value, FieldsOf(lines)))))
    decreases |lines|
  {
    if lines != [] {
      assert lines[0] in lines;
      var f := FieldsOf(lines)[0];
      assert FieldsOf(lines)[1..] == FieldsOf(lines[1..]);
      KeysGoToLatestEntry(s.(current := Some(Assign(s.current.value, f.key, f.value))), lines[1..]);
    }
  }

  // --------------------------------------------------------- validation

  datatype Refusal = BadToday | MissingField | NeedSelector | BothSelectors | BadCountMax | BadPattern | Expired

  /** An accepted entry with its match counter. */
  datatype Accepted = Accepted(fields: map<string, Value>, matchCount: nat)

  datatype Verdict = Valid(entries: seq<Accepted>) | Refused(why: Refusal)

  function Get(e: map<string, Value>, key: string): Value {
    if key in e then e[key] else Null
  }

  predicate Truthy(v: Value) {
    match v
    case Null => false
    case Bool(b) => b
    case Int(n) => n != 0
    case Str(s) => s != ""
  }

  predicate IsText(v: Value) {
    v.Str? && v.s != ""
  }

  /** String(v) */
  function ToString(v: Value): string {
    match v
    case Null => "null"
    case Bool(b) => if b then "true" else "false"
    case Int(n) => if n < 0 then ['-'] + Decimal(-n) else Decimal(n)
    case Str(s) => s
  }

  predicate IsDate(s: string) {
    |s| == 10 && AllDigits(s[..4]) && s[4] == '-' && AllDigits(s[5..7]) && s[7] == '-' && AllDigits(s[8..])
  }

  /** The first reason to refuse an entry; an unset expiry counts as missing. */
  function Check(e: map<string, Value>, today: string, compiles: string -> bool): Option<Refusal> {
    var selector, pattern, countMax := Get(e, "selector"), Get(e, "selector_pattern"), Get(e, "count_max");
    if !Truthy(Get(e, "route")) || !Truthy(Get(e, "rule")) || !Truthy(Get(e, "issue")) || !Truthy(Get(e, "expires_at"))
    then Some(MissingField)
    else if !IsText(selector) && !IsText(pattern) then Some(NeedSelector)
    else if IsText(selector) && IsText(pattern) then Some(BothSelectors)
    else if IsText(pattern) && (!countMax.Int? || countMax.n <= 0) then Some(BadCountMax)
    else if IsText(pattern) && !compiles(pattern.s) then Some(BadPattern)
    else if StrLe(ToString(Get(e, "expires_at")), today) then Some(Expired)
    else None
  }

  predicate IsFirstRefusal(entries: seq<map<string, Value>>, today: string, compiles: string -> bool, i: nat, why: Refusal) {
    && i < |entries| && Check(entries[i], today, compiles) == Some(why)
    && forall j :: 0 <= j < i ==> Check(entries[j], today, compiles).None?
  }

  /** All entries in order with counters at zero, or the reason the first bad entry is refused. */
  method FilterAllowlist(entries: seq<map<string, Value>>, today: string, compiles: string -> bool) returns (r: Verdict)
    ensures r.Valid? <==> IsDate(today) && forall i :: 0 <= i < |entries| ==> Check(entries[i], today, compiles).None?
    ensures r.Valid? ==> |r.entries| == |entries|
    ensures r.Valid? ==> forall i :: 0 <= i < |entries| ==> r.entries[i] == Accepted(entries[i], 0)
    ensures !IsDate(today) ==> r == Refused(BadToday)
    ensures r.Refused? && IsDate(today) ==> exists i :: 0 <= i < |entries| && IsFirstRefusal(entries, today, compiles, i, r.why)
  {
    if !IsDate(today) {
      return Refused(BadToday);
    }
    var valid := [];
    for i := 0 to |entries|
      invariant |valid| == i
      invariant forall j :: 0 <= j < i ==> valid[j] == Accepted(entries[j], 0) && Check(entries[j], today, compiles).None?
    {
      var refusal := Check(entries[i], today, compiles);
      if refusal.Some? {
        assert IsFirstRefusal(entries, today, compiles, i, refusal.value);
        return Refused(refusal.value);
      }
      valid := valid + [Accepted(entries[i], 0)];
    }
    return Valid(valid);
  }

  /** An entry accepted on one day is accepted on every earlier day. */
  lemma AcceptedEarlier(e: map<string, Value>, earlier: string, today: string, compiles: string -> bool)
    requires StrLe(earlier, today) && Check(e, today, compiles).None?
    ensures Check(e, earlier, compiles).None?
  {
    var expires := ToString(Get(e, "expires_at"));
    if StrLe(expires, earlier) {
      StrLeTransitive(expires, earlier, today);
    }
  }

  // ----------------------------------------- string order is calendar order

  function Pow10(k: nat): nat {
    if k == 0 then 1 else 10 * Pow10(k - 1)
  }

  /** The value of a digit string, most significant digit first. */
  lemma {:induction false} NumberFromLeft(s: string)
    requires s != "" && AllDigits(s)
    ensures Number(s) == DigitValue(s[0]) * Pow10(|s| - 1) + Number(s[1..])
    ensures Number(s) < Pow10(|s|)
  {
    var last := |s| - 1;
    assert AllDigits(s[..last]) && AllDigits(s[1..]);
    if last == 0 {
      assert s[..0] == "" && s[1..] == "";
    } else {
      var mid := s[1..][..last - 1];
      assert s[..last][1..] == mid && s[1..][last - 1] == s[last];
      NumberFromLeft(s[..last]);
      ShiftLeft(DigitValue(s[0]), Pow10(last - 1), Number(mid), DigitValue(s[last]));
    }
  }

  lemma ShiftLeft(d: nat, p: nat, m: nat, e: nat)
    requires e < 10 && d * p + m < 10 * p
    ensures 10 * (d * p + m) + e == d * (10 * p) + (10 * m + e)
    ensures 10 * (d * p + m) + e < 10 * (10 * p)
  {
  }

  lemma LeadingDigit(x: nat, y: nat, p: nat, u: nat, v: nat)
    requires x < y && u < p && v < p
    ensures x * p + u < y * p + v
  {
    assert (x + 1) * p <= y * p;
  }

  lemma {:induction false} DigitsCompare(a: string, b: string, x: string, y: string)
    requires |a| == |b| && AllDigits(a) && AllDigits(b)
    ensures StrLe(a + x, b + y) <==> Number(a) < Number(b) || (Number(a) == Number(b) && StrLe(x, y))
    decreases |a|
  {
    if a == "" {
      assert a + x == x && b + y == y;
    } else {
      var a', b', p := a[1..], b[1..], Pow10(|a| - 1);
      NumberFromLeft(a);
      NumberFromLeft(b);
      if a' != "" { NumberFromLeft(a'); NumberFromLeft(b'); }
      assert (a + x)[0] == a[0] && (b + y)[0] == b[0];
      assert (a + x)[1..] == a' + x && (b + y)[1..] == b' + y;
      if DigitValue(a[0]) < DigitValue(b[0]) {
        LeadingDigit(DigitValue(a[0]), DigitValue(b[0]), p, Number(a'), Number(b'));
      } else if DigitValue(b[0]) < DigitValue(a[0]) {
        LeadingDigit(DigitValue(b[0]), DigitValue(a[0]), p, Number(b'), Number(a'));
      } else {
        DigitsCompare(a', b', x, y);
      }
    }
  }

  lemma DashCompare(x: string, y: string)
    ensures StrLe("-" + x, "-" + y) <==> StrLe(x, y)
  {
    assert ("-" + x)[1..] == x && ("-" + y)[1..] == y;
  }

  datatype Date = Date(year: nat, month: nat, day: nat)

  function DateOf(s: string): Date
    requires IsDate(s)
  {
    Date(Number(s[..4]), Number(s[5..7]), Number(s[8..]))
  }

  predicate NotAfter(a: Date, b: Date) {
    a.year < b.year || (a.year == b.year && (a.month < b.month || (a.month == b.month && a.day <= b.day)))
  }

  /** On YYYY-MM-DD strings the string comparison of the gate is calendar order. */
  lemma StringOrderIsCalendarOrder(a: string, b: string)
    requires IsDate(a) && IsDate(b)
    ensures StrLe(a, b) <==> NotAfter(DateOf(a), DateOf(b))
  {
    assert a == a[..4] + ("-" + (a[5..7] + ("-" + (a[8..] + ""))));
    assert b == b[..4] + ("-" + (b[5..7] + ("-" + (b[8..] + ""))));
    DigitsCompare(a[..4], b[..4], "-" + (a[5..7] + ("-" + (a[8..] + ""))), "-" + (b[5..7] + ("-" + (b[8..] + ""))));
    DashCompare(a[5..7] + ("-" + (a[8..] + "")), b[5..7] + ("-" + (b[8..] + "")));
    DigitsCompare(a[5..7], b[5..7], "-" + (a[8..] + ""), "-" + (b[8..] + ""));
    DashCompare(a[8..] + "", b[8..] + "");
    DigitsCompare(a[8..], b[8..], "", "");
  }

  /** So an entry with a dated expiry, good otherwise, is accepted exactly up to the day before. */
  lemma AcceptedUntilExpiry(e: map<string, Value>, today: string, compiles: string -> bool)
    requires IsDate(today) && IsDate(ToString(Get(e, "expires_at")))
    requires Check(e, "", compiles).None?
    ensures Check(e, today, compiles).None? <==> !NotAfter(DateOf(ToString(Get(e, "expires_at"))), DateOf(today))
  {
    StringOrderIsCalendarOrder(ToString(Get(e, "expires_at")), today);
  }
}
