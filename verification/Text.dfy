/** The character classes and string operations of JavaScript that the parsers rely on. */
module Text {

  /** \s and the characters trim() removes. */
  predicate IsSpace(c: char) {
    var n := c as int;
    n == 32 || 9 <= n <= 13 || n == 0xA0 || n == 0x1680 || 0x2000 <= n <= 0x200A
    || n == 0x2028 || n == 0x2029 || n == 0x202F || n == 0x205F || n == 0x3000 || n == 0xFEFF
  }

  /** The characters that . does not match. */
  predicate IsLineEnd(c: char) {
    c == '\n' || c == '\r' || c as int == 0x2028 || c as int == 0x2029
  }

  predicate OneLine(s: string) {
    forall i :: 0 <= i < |s| ==> !IsLineEnd(s[i])
  }

  /** The end of the run of whitespace at i. */
  function SkipSpaces(s: string, i: nat): (r: nat)
    requires i <= |s|
    ensures i <= r <= |s|
    ensures r < |s| ==> !IsSpace(s[r])
    decreases |s| - i
  {
    if i < |s| && IsSpace(s[i]) then SkipSpaces(s, i + 1) else i
  }

  /** The end of the run at i of characters that pass the test. */
  function RunEnd(s: string, i: nat, passes: char -> bool): (r: nat)
    requires i <= |s|
    ensures i <= r <= |s|
    decreases |s| - i
  {
    if i < |s| && passes(s[i]) then RunEnd(s, i + 1, passes) else i
  }

  lemma {:induction false} RunEndIs(s: string, i: nat, j: nat, passes: char -> bool)
    requires i <= j <= |s| && (forall k :: i <= k < j ==> passes(s[k])) && (j < |s| ==> !passes(s[j]))
    ensures RunEnd(s, i, passes) == j
    decreases j - i
  {
    if i < j { RunEndIs(s, i + 1, j, passes); }
  }

  /** The first c at or after i. */
  function Find(h: string, c: char, i: nat): (r: nat)
    requires i <= |h|
    ensures i <= r <= |h| && (r < |h| ==> h[r] == c)
    decreases |h| - i
  {
    if i < |h| && h[i] != c then Find(h, c, i + 1) else i
  }

  lemma {:induction false} FindIs(h: string, c: char, i: nat, j: nat)
    requires i <= j <= |h| && (forall k :: i <= k < j ==> h[k] != c) && (j < |h| ==> h[j] == c)
    ensures Find(h, c, i) == j
    decreases j - i
  {
    if i < j { FindIs(h, c, i + 1, j); }
  }

  predicate AllSpaces(s: string) {
    forall i :: 0 <= i < |s| ==> IsSpace(s[i])
  }

  /** The whitespace characters by their codes. */
  lemma SpaceCodes(c: char)
    ensures IsSpace(c) <==> c as int in {9, 10, 11, 12, 13, 32, 160, 5760, 8192, 8193, 8194, 8195, 8196, 8197, 8198, 8199, 8200,
                                         8201, 8202, 8232, 8233, 8239, 8287, 12288, 65279}
    ensures IsLineEnd(c) <==> c as int in {10, 13, 8232, 8233}
    ensures IsDigit(c) <==> c as int in {48, 49, 50, 51, 52, 53, 54, 55, 56, 57}
  {
  }

  lemma {:induction false} SkippedAreSpaces(s: string, i: nat)
    requires i <= |s|
    ensures forall j :: i <= j < SkipSpaces(s, i) ==> IsSpace(s[j])
    decreases |s| - i
  {
    if i < |s| && IsSpace(s[i]) { SkippedAreSpaces(s, i + 1); }
  }

  lemma {:induction false} RunIs(s: string, i: nat, passes: char -> bool)
    requires i <= |s|
    ensures var r := RunEnd(s, i, passes);
            && (forall k :: i <= k < r ==> passes(s[k])) && (r < |s| ==> !passes(s[r])) && (i < |s| && passes(s[i]) ==> i < r)
    decreases |s| - i
  {
    if i < |s| && passes(s[i]) { RunIs(s, i + 1, passes); }
  }

  function TrimEnd(s: string): (r: string)
    ensures r <= s
  {
    if s != "" && IsSpace(s[|s| - 1]) then TrimEnd(s[..|s| - 1]) else s
  }

  function Trim(s: string): (r: string)
    ensures |r| <= |s|
  {
    TrimEnd(s[SkipSpaces(s, 0)..])
  }

  /** Trimming removes the whitespace around a text, and nothing else. */
  lemma TrimIs(a: string, s: string, b: string)
    requires AllSpaces(a) && AllSpaces(b) && s != "" && !IsSpace(s[0]) && !IsSpace(s[|s| - 1])
    ensures Trim(a + (s + b)) == s
  {
    assert (s + b)[0] == s[0];
    SkipLead(a, s + b);
    assert (a + (s + b))[|a|..] == s + b;
    TrimEndIs(s, b);
  }

  /** The whitespace in front of r is skipped. */
  lemma SkipLead(a: string, r: string)
    requires AllSpaces(a) && (r != "" ==> !IsSpace(r[0]))
    ensures SkipSpaces(a + r, 0) == |a|
  {
    var t := a + r;
    assert forall i :: 0 <= i < |a| ==> t[i] == a[i];
    SkipSpacesIs(t, 0, |a|);
  }

  lemma {:induction false} TrimEndIs(s: string, b: string)
    requires AllSpaces(b) && (s != "" ==> !IsSpace(s[|s| - 1]))
    ensures TrimEnd(s + b) == s
    decreases |b|
  {
    if b == "" {
      assert s + b == s;
    } else {
      var t := s + b;
      assert t[|t| - 1] == b[|b| - 1] && t[..|t| - 1] == s + b[..|b| - 1];
      TrimEndIs(s, b[..|b| - 1]);
    }
  }

  lemma {:induction false} SkipSpacesIs(s: string, i: nat, j: nat)
    requires i <= j <= |s| && (forall k :: i <= k < j ==> IsSpace(s[k])) && (j < |s| ==> !IsSpace(s[j]))
    ensures SkipSpaces(s, i) == j
    decreases j - i
  {
    if i < j { SkipSpacesIs(s, i + 1, j); }
  }

  predicate IsDigit(c: char) {
    '0' <= c <= '9'
  }

  function DigitValue(c: char): (r: nat)
    requires IsDigit(c)
    ensures r < 10
  {
    c as int - '0' as int
  }

  predicate AllDigits(s: string) {
    forall i :: 0 <= i < |s| ==> IsDigit(s[i])
  }

  /** The number a string of digits stands for. */
  function Number(s: string): nat
    requires AllDigits(s)
  {
    if s == "" then 0 else 10 * Number(s[..|s| - 1]) + DigitValue(s[|s| - 1])
  }

  function Digit(n: nat): (c: char)
    requires n < 10
    ensures IsDigit(c) && DigitValue(c) == n
  {
    ('0' as int + n) as char
  }

  function Decimal(n: nat): (r: string)
    ensures r != "" && AllDigits(r)
  {
    if n < 10 then [Digit(n)] else Decimal(n / 10) + [Digit(n % 10)]
  }

  lemma {:induction false} DecimalReadsBack(n: nat)
    ensures Number(Decimal(n)) == n
  {
    var s := Decimal(n);
    if n < 10 {
      assert s[..|s| - 1] == "";
    } else {
      assert s[..|s| - 1] == Decimal(n / 10);
      DecimalReadsBack(n / 10);
    }
  }

  // -------------------------------------------- string comparison with <=

  predicate StrLe(a: string, b: string) {
    if a == "" then true
    else if b == "" then false
    else if a[0] != b[0] then a[0] < b[0]
    else StrLe(a[1..], b[1..])
  }

  /** The order of strings: a prefix comes first, otherwise the first difference decides. */
  lemma {:induction false} StrLePrefix(a: string, b: string)
    ensures a <= b ==> StrLe(a, b)
    ensures b < a ==> !StrLe(a, b)
  {
    if a != "" && b != "" { StrLePrefix(a[1..], b[1..]); }
  }

  lemma {:induction false} StrLeAt(a: string, b: string, i: nat)
    requires i < |a| && i < |b| && a[..i] == b[..i] && a[i] != b[i]
    ensures StrLe(a, b) <==> a[i] < b[i]
    decreases i
  {
    if i > 0 {
      assert a[0] == a[..i][0] == b[..i][0] == b[0];
      assert a[1..][..i - 1] == a[..i][1..] && b[1..][..i - 1] == b[..i][1..];
      StrLeAt(a[1..], b[1..], i - 1);
    }
  }

  lemma {:induction false} StrLeTransitive(a: string, b: string, c: string)
    requires StrLe(a, b) && StrLe(b, c)
    ensures StrLe(a, c)
  {
    if a != "" && a[0] == b[0] && b[0] == c[0] {
      StrLeTransitive(a[1..], b[1..], c[1..]);
    }
  }
}
