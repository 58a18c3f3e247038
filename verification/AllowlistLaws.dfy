/**
 What the allowlist loader accepts, line by line and field by field, in the terms of the file itself:
 the layout of a line, comments and line ends, the last of several equal keys, and the reasons to
 refuse an entry.
 */
module AllowlistLaws {
  import opened Prelude
  import opened Text
  import opened AllowlistYaml

  // ----------------------------------------------------------- the line pattern

  /** The characters of keys by their codes. */
  lemma KeyCodes(c: char)
    ensures IsKeyStart(c) <==> 65 <= c as int <= 90 || c as int == 95 || 97 <= c as int <= 122
    ensures IsKeyChar(c) <==> 48 <= c as int <= 57 || 65 <= c as int <= 90 || c as int == 95 || 97 <= c as int <= 122
  {
  }

  /** And no other line is read. */
  lemma ReadLineHasLayout(l: string) returns (dash: bool, i: nat, k: nat, m: nat, n: nat, r: nat)
    requires ReadLine(l).Some?
    ensures Layout(l, dash, i, k, m, n, r)
  {
    i := SkipSpaces(l, 0);
    SkippedAreSpaces(l, 0);
    dash := i < |l| && l[i] == '-';
    var start := if dash then i + 1 else i;
    k := SkipSpaces(l, start);
    SkippedAreSpaces(l, start);
    m, n, r := KeyHasLayout(l, k, i > 0, dash);
  }

  lemma KeyHasLayout(l: string, k: nat, indented: bool, dash: bool) returns (m: nat, n: nat, r: nat)
    requires k <= |l| && ReadKey(l, k, indented, dash).Some?
    ensures k < m <= n < r <= |l| && IsKeyStart(l[k]) && l[n] == ':'
    ensures (forall j :: k <= j < m ==> IsKeyChar(l[j])) && (forall j :: m <= j < n ==> IsSpace(l[j])) && (forall j :: n < j < r ==> IsSpace(l[j]))
    ensures (r < |l| ==> !IsSpace(l[r])) && OneLine(l[r..])
  {
    m := RunEnd(l, k, IsKeyChar);
    RunIs(l, k, IsKeyChar);
    n := SkipSpaces(l, m);
    SkippedAreSpaces(l, m);
    r := SkipSpaces(l, n + 1);
    SkippedAreSpaces(l, n + 1);
  }

  // ------------------------------------------------ comments, line ends, the mark

  /** A comment is a # at the start of a line or after whitespace: it goes, with the whitespace before it.
      A # anywhere else stays. */
  lemma CommentsGo(l: string, sp: char, comment: string)
    requires (l != "" ==> l[0] != '#') && NoComment(l) && IsSpace(sp) && OneLine(comment)
    ensures CleanLine(l + ([sp, '#'] + comment)) == TrimEnd(l)
    ensures CleanLine(l) == TrimEnd(l)
    ensures CleanLine(['#'] + comment) == ""
  {
    var s := l + ([sp, '#'] + comment);
    assert s[|l|] == sp && s[|l| + 1] == '#' && s[|l| + 2..] == comment;
    assert CommentAt(s, |l|);
    forall p | 0 <= p < |l| ensures !CommentAt(s, p) {
      assert s[p] == l[p] && s[p + 1] == if p + 1 < |l| then l[p + 1] else sp;
      assert sp != '#';
    }
    FirstCommentIs(s, 0, |l|);
    assert s[..|l|] == l;
    NoFirstComment(l, 0);
    assert l[..|l|] == l;
    var h := ['#'] + comment;
    assert h[1..] == comment && CommentAt(h, 0);
    assert h[..0] == "";
  }

  /** Lines end with a newline, with or without a carriage return before it. */
  lemma NewlineEnds(l: string, rest: string)
    requires OneLine(l)
    ensures SplitLines(l + (['\n'] + rest)) == [l] + SplitLines(rest)
  {
    FirstNewline(l, rest);
  }

  lemma ReturnNewlineEnds(l: string, rest: string)
    requires OneLine(l)
    ensures SplitLines((l + ['\r']) + (['\n'] + rest)) == [l] + SplitLines(rest)
  {
    FirstNewline(l + ['\r'], rest);
    assert (l + ['\r'])[..|l|] == l;
  }

  lemma LastLine(l: string)
    requires OneLine(l)
    ensures SplitLines(l) == [l]
  {
    FindIs(l, '\n', 0, |l|);
  }

  lemma FirstNewline(l: string, rest: string)
    requires forall i :: 0 <= i < |l| ==> l[i] != '\n'
    ensures SplitLines(l + (['\n'] + rest)) == [DropCr(l)] + SplitLines(rest)
  {
    var s := l + (['\n'] + rest);
    assert s[..|l|] == l && s[|l|] == '\n' && s[|l| + 1..] == rest;
    assert forall k :: 0 <= k < |l| ==> s[k] == l[k];
    FindIs(s, '\n', 0, |l|);
  }

  /** A byte order mark in front is dropped, once. */
  lemma MarkIsDropped(src: string)
    ensures DropBom([0xFEFF as char] + src) == src
    ensures (src != "" ==> src[0] as int != 0xFEFF) ==> DropBom(src) == src && Parse([0xFEFF as char] + src) == Parse(src)
  {
    var s := [0xFEFF as char] + src;
    assert s[0] as int == 0xFEFF && s[1..] == src;
  }

  /** Lines that are blank, or blank but for a comment, do not matter. */
  lemma {:induction false} BlankLinesGo(a: seq<string>, b: seq<string>, blank: string)
    requires Trim(CleanLine(blank)) == ""
    ensures CleanLines(a + ([blank] + b)) == CleanLines(a) + CleanLines(b)
    decreases |a|
  {
    if a == [] {
      assert a + ([blank] + b) == [blank] + b && ([blank] + b)[1..] == b;
    } else {
      assert (a + ([blank] + b))[1..] == a[1..] + ([blank] + b);
      BlankLinesGo(a[1..], b, blank);
    }
  }

  /** An empty file and an empty list have no entries. */
  lemma EmptyLists()
    ensures Parse("") == Ok(Doc(map[], [])) && Parse("[]") == Ok(Doc(map[], []))
  {
    LastLine("");
    assert CleanLine("") == "" && Trim("") == "";
    assert CleanLines([""]) == [] + CleanLines([]);
    ListMark("[]");
    assert CleanLines(["[]"]) == ["[]"] + CleanLines([]);
  }

  /** An empty list among other lines is an error. */
  lemma ListMarkAmongLines(src: string, rest: seq<string>)
    requires CleanLines(SplitLines(DropBom(src))) == ["[]"] + rest && rest != []
    ensures Parse(src) == Err(CannotParse("[]"))
  {
    var l := "[]";
    assert l[0] == '[';
    SkipSpacesIs(l, 0, 0);
    assert ReadLine(l).None?;
    assert FeedAll(START, ["[]"] + rest) == Stop(CannotParse("[]"));
  }

  lemma ListMark(l: string)
    requires l == "[]"
    ensures SplitLines(l) == [l] && CleanLine(l) == l && Trim(l) == l && DropBom(l) == l
  {
    assert |l| == 2 && l[0] == '[' && l[1] == ']';
    LastLine(l);
    CommentsGo(l, ' ', "");
    SkipSpacesIs(l, 0, 0);
    assert l[0..] == l;
  }

  // ---------------------------------------------------------- what a line does

  /** A line that is not read stops the loader with that line, and an indented key before the first dash
      with that key; nothing else does. */
  lemma ErrorsAre(s: State, l: string)
    ensures Feed(s, l) == Stop(CannotParse(l)) <==> ReadLine(l).None?
    ensures forall key :: Feed(s, l) == Stop(IndentedKey(key)) <==>
              ReadLine(l).Some? && ReadLine(l).value.key == key && s.current.None? && !ReadLine(l).value.dash && ReadLine(l).value.indented
    ensures Feed(s, l).Stop? ==> Feed(s, l).error == CannotParse(l) || Feed(s, l).error.IndentedKey?
  {
  }

  /** The first line with an error decides. */
  lemma {:induction false} FirstErrorCounts(s: State, good: seq<string>, bad: string, rest: seq<string>)
    requires FeedAll(s, good).Go? && Feed(FeedAll(s, good).s, bad).Stop?
    ensures FeedAll(s, good + ([bad] + rest)) == Feed(FeedAll(s, good).s, bad)
  {
    FeedAllSplits(s, good, [bad] + rest);
  }

  /** Of several fields with one key the last counts; a field called __proto__ is not one. */
  lemma {:induction false} LastFieldCounts(m: map<string, Value>, fields: seq<Field>, k: nat)
    requires k < |fields| && fields[k].key != "__proto__" && forall i :: k < i < |fields| ==> fields[i].key != fields[k].key
    ensures fields[k].key in MapOf(m, fields) && MapOf(m, fields)[fields[k].key] == fields[k].value
    decreases |fields|
  {
    var m1 := Assign(m, fields[0].key, fields[0].value);
    if k > 0 {
      LastFieldCounts(m1, fields[1..], k - 1);
    } else {
      OtherFields(m1, fields[1..], fields[0].key);
    }
  }

  lemma {:induction false} OtherFields(m: map<string, Value>, fields: seq<Field>, key: string)
    requires key == "__proto__" || forall i :: 0 <= i < |fields| ==> fields[i].key != key
    ensures key in MapOf(m, fields) <==> key in m
    ensures key in m ==> MapOf(m, fields)[key] == m[key]
    decreases |fields|
  {
    if fields != [] { OtherFields(Assign(m, fields[0].key, fields[0].value), fields[1..], key); }
  }

  // ------------------------------------------------------- when an entry is refused

  /** A field that is absent, null, false, 0 or an empty string. */
  predicate Lacks(e: map<string, Value>, key: string) {
    key !in e || e[key] == Null || e[key] == Bool(false) || e[key] == Int(0) || e[key] == Str("")
  }

  predicate HasText(e: map<string, Value>, key: string) {
    key in e && e[key].Str? && e[key].s != ""
  }

  /** A count that is a positive number. */
  predicate HasCount(e: map<string, Value>) {
    "count_max" in e && e["count_max"].Int? && e["count_max"].n > 0
  }

  predicate LacksField(e: map<string, Value>) {
    Lacks(e, "route") || Lacks(e, "rule") || Lacks(e, "issue") || Lacks(e, "expires_at")
  }

  /** The reasons, in their order. */
  lemma RefusedWhy(e: map<string, Value>, today: string, compiles: string -> bool)
    ensures var c, sel, pat := Check(e, today, compiles), HasText(e, "selector"), HasText(e, "selector_pattern");
            && (c == Some(MissingField) <==> LacksField(e))
            && (c == Some(NeedSelector) <==> !LacksField(e) && !sel && !pat)
            && (c == Some(BothSelectors) <==> !LacksField(e) && sel && pat)
            && (c == Some(BadCountMax) <==> !LacksField(e) && !sel && pat && !HasCount(e))
            && (c == Some(BadPattern) <==> !LacksField(e) && !sel && pat && HasCount(e) && !compiles(e["selector_pattern"].s))
            && c != Some(BadToday)
  {
  }

  /** An entry is accepted exactly when it has its fields, one kind of selector, for a pattern a positive
      count and a pattern that compiles, and an expiry after today. */
  lemma AcceptedWhen(e: map<string, Value>, today: string, compiles: string -> bool)
    ensures Check(e, today, compiles).None? <==>
            && !LacksField(e) && (HasText(e, "selector") <==> !HasText(e, "selector_pattern"))
            && (HasText(e, "selector_pattern") ==> HasCount(e) && compiles(e["selector_pattern"].s))
            && !StrLe(ToString(e["expires_at"]), today)
  {
  }

  /** The form of a date. */
  lemma DateForm(s: string)
    ensures IsDate(s) <==>
            |s| == 10 && s[4] == '-' && s[7] == '-' && forall i :: 0 <= i < 10 && i != 4 && i != 7 ==> '0' <= s[i] <= '9'
  {
    if |s| == 10 {
      assert forall i :: 0 <= i < 4 ==> s[..4][i] == s[i];
      assert s[5..7][0] == s[5] && s[5..7][1] == s[6] && s[8..][0] == s[8] && s[8..][1] == s[9];
    }
  }

  /** How an expiry that is not a string is compared. */
  lemma ExpiryText(n: nat)
    ensures ToString(Bool(true)) == "true" && (n > 0 ==> ToString(Int(0 - n)) == ['-'] + ToString(Int(n)))
    ensures AllDigits(ToString(Int(n))) && Number(ToString(Int(n))) == n
  {
    DecimalReadsBack(n);
  }
}
