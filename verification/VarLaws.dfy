/**
 What a custom property resolves to, in terms of the declarations and of the text itself: whose
 declaration counts, when the fallback does, and which texts are references.
 */
module VarLaws {
  import opened Prelude
  import opened Text
  import opened VarResolver

  // ---------------------------------------------------------- which text counts

  /** A reference without a fallback reads back. */
  lemma ReadsBare(name: string)
    requires IsName(name)
    ensures Read("var(--" + (name + [')'])) == Var(name, None)
  {
    var s, m := "var(--" + (name + [')']), |name| + 6;
    assert forall i :: 0 <= i < 6 ==> s[i] == "var(--"[i];
    assert s[6..m] == name && s[m] == ')' && |s| == m + 1;
    assert forall i :: 6 <= i < m ==> s[i] == name[i - 6];
    TrimPlain(s);
    NotImportant(s);
    ReadBareAt(s, m);
  }

  lemma ReadBareAt(s: string, m: nat)
    requires IsVarOpen(s) && 6 < m == |s| - 1 && s[4] == '-' && s[5] == '-' && s[m] == ')' && forall i :: 6 <= i < m ==> IsNameChar(s[i])
    ensures ReadVar(s) == Some(Ref(s[6..m], None))
  {
    SkipSpacesIs(s, 4, 4);
    RunEndIs(s, 6, m, IsNameChar);
    SkipSpacesIs(s, m, m);
  }

  /** A declaration of the theme counts before one of the root, whatever the root and the fallback are; one
      of the root counts where the theme has none, or an empty one; the fallback counts where neither has a
      declaration; and without a fallback the name is unresolved. */
  lemma Precedence(theme: map<string, string>, root: map<string, string>, raw: string, name: string, fallback: Option<string>)
    requires Read(raw) == Var(name, fallback)
    ensures var env := Env(theme, root, Read);
            && Shrinks(env)
            && (name in theme && theme[name] != "" ==> SameResult(env, raw, name, theme[name]))
            && ((name !in theme || theme[name] == "") && name in root && root[name] != "" ==> SameResult(env, raw, name, root[name]))
            && ((name !in theme || theme[name] == "") && (name !in root || root[name] == "") ==>
                  match fallback
                  case Some(f) => SameResult(env, raw, name, f)
                  case None => forall seen, o :: name !in seen ==> Resolve(env, raw, seen, o) == Unresolved(name))
  {
    var env := Env(theme, root, Read);
    assert env.read(raw) == Var(name, fallback);
    if name in theme && theme[name] != "" {
      StepIsShared(env, raw, name, theme[name]);
    } else if name in root && root[name] != "" {
      StepIsShared(env, raw, name, root[name]);
    } else if fallback.Some? {
      StepIsShared(env, raw, name, fallback.value);
    }
  }

  lemma StepIsShared(env: Env, raw: string, name: string, next: string)
    requires Shrinks(env) && env.read(raw).Var? && env.read(raw).name == name && Step(env, raw) == Goto(next)
    ensures SameResult(env, raw, name, next)
  {
  }

  /** Resolving raw, which refers to name, is resolving next: by the guarded resolver, where the name has not
      been met before, and by the unguarded one. */
  ghost predicate SameResult(env: Env, raw: string, name: string, next: string)
    requires Shrinks(env)
  {
    && (forall seen, o :: name !in seen ==> Resolve(env, raw, seen, o) == Resolve(env, next, seen + {name}, o))
    && (forall fuel: nat :: Unguarded(env, raw, fuel + 1) == Unguarded(env, next, fuel))
  }

  /** A text that is no reference is its own value; a name met before is reported. */
  lemma PlainAndMet(env: Env, raw: string, seen: set<string>)
    requires Shrinks(env)
    ensures env.read(raw).Plain? ==> Resolve(env, raw, seen, false) == Value(env.read(raw).text)
    ensures env.read(raw).Var? && env.read(raw).name in seen ==> Resolve(env, raw, seen, false) == Cycle(env.read(raw).name)
  {
  }

  /** resolveVar on one declaration: the theme's value, the root's, or none. */
  lemma ResolveVarTakesTheme(theme: map<string, string>, root: map<string, string>, name: string)
    requires IsName(name)
    requires name in theme && theme[name] != "" ==> Read(theme[name]).Plain?
    requires name in root && root[name] != "" ==> Read(root[name]).Plain?
    ensures var env := Env(theme, root, Read);
            && Shrinks(env)
            && Resolve(env, "var(--" + (name + [')']), {}, false) ==
                 if name in theme && theme[name] != "" then Value(Read(theme[name]).text)
                 else if name in root && root[name] != "" then Value(Read(root[name]).text)
                 else Unresolved(name)
  {
    ReadsBare(name);
    Precedence(theme, root, "var(--" + (name + [')']), name, None);
  }

  // ------------------------------------------------------- which texts are references

  /** The characters of names by their codes. */
  lemma NameCodes(c: char)
    ensures IsNameChar(c) <==> c as int == 45 || 48 <= c as int <= 57 || 65 <= c as int <= 90 || 97 <= c as int <= 122
  {
  }

  /** The layout of a reference: var( in any case, whitespace up to the dashes at i, the name up to m,
      whitespace up to n, and there the closing parenthesis at the end or a comma before a fallback. */
  predicate RefLayout(s: string, i: nat, m: nat, n: nat) {
    && 4 <= i && i + 2 < m <= n < |s|
    && (s[0] == 'v' || s[0] == 'V') && (s[1] == 'a' || s[1] == 'A') && (s[2] == 'r' || s[2] == 'R') && s[3] == '('
    && s[|s| - 1] == ')'
    && (forall j :: 4 <= j < i ==> IsSpace(s[j])) && s[i] == '-' && s[i + 1] == '-'
    && (forall j :: i + 2 <= j < m ==> IsNameChar(s[j])) && (forall j :: m <= j < n ==> IsSpace(s[j]))
    && (n == |s| - 1 || (s[n] == ',' && n + 1 < |s| - 1 && OneLine(Shown(s[n + 1..|s| - 1]))))
  }

  /** What the pattern takes of a fallback: blanks in front are skipped, but one character has to remain. */
  function Shown(t: string): string
    requires t != ""
  {
    var i := SkipSpaces(t, 0);
    if i < |t| then t[i..] else t[|t| - 1..]
  }

  lemma RefIsRead(s: string, i: nat, m: nat, n: nat)
    requires RefLayout(s, i, m, n)
    ensures ReadVar(s) == Some(Ref(s[i + 2..m], if n == |s| - 1 then None else Some(Shown(s[n + 1..|s| - 1]))))
  {
    SkipSpacesIs(s, 4, i);
    NameIsRead(s, i, m, n);
    RestIsRead(s, s[i + 2..m], n);
  }

  lemma NameIsRead(s: string, i: nat, m: nat, n: nat)
    requires i + 2 < m <= n < |s| && s[i] == '-' && s[i + 1] == '-' && !IsNameChar(s[n]) && !IsSpace(s[n])
    requires (forall j :: i + 2 <= j < m ==> IsNameChar(s[j])) && (forall j :: m <= j < n ==> IsSpace(s[j]))
    ensures ReadName(s, i) == ReadRest(s, s[i + 2..m], n)
  {
    RunEndIs(s, i + 2, m, IsNameChar);
    SkipSpacesIs(s, m, n);
  }

  lemma RestIsRead(s: string, name: string, n: nat)
    requires n < |s| && (n == |s| - 1 || (s[n] == ',' && n + 1 < |s| - 1 && OneLine(Shown(s[n + 1..|s| - 1]))))
    ensures ReadRest(s, name, n) == Some(Ref(name, if n == |s| - 1 then None else Some(Shown(s[n + 1..|s| - 1]))))
  {
  }

  lemma ReadVarHasLayout(s: string) returns (i: nat, m: nat, n: nat)
    requires ReadVar(s).Some?
    ensures RefLayout(s, i, m, n)
  {
    i := SkipSpaces(s, 4);
    SkippedAreSpaces(s, 4);
    m, n := NameHasLayout(s, i);
  }

  lemma NameHasLayout(s: string, i: nat) returns (m: nat, n: nat)
    requires ReadName(s, i).Some?
    ensures i + 2 < m <= n < |s| && s[i] == '-' && s[i + 1] == '-'
    ensures (forall j :: i + 2 <= j < m ==> IsNameChar(s[j])) && (forall j :: m <= j < n ==> IsSpace(s[j]))
    ensures n == |s| - 1 || (s[n] == ',' && n + 1 < |s| - 1 && OneLine(Shown(s[n + 1..|s| - 1])))
  {
    m := RunEnd(s, i + 2, IsNameChar);
    RunIs(s, i + 2, IsNameChar);
    n := SkipSpaces(s, m);
    SkippedAreSpaces(s, m);
    RestHasLayout(s, s[i + 2..m], n);
  }

  lemma RestHasLayout(s: string, name: string, n: nat)
    requires ReadRest(s, name, n).Some?
    ensures n < |s| && (n == |s| - 1 || (s[n] == ',' && n + 1 < |s| - 1 && OneLine(Shown(s[n + 1..|s| - 1]))))
  {
  }

  /** The layout with its name and its fallback, trimmed. */
  predicate Spells(s: string, name: string, fallback: Option<string>, i: nat, m: nat, n: nat) {
    && RefLayout(s, i, m, n) && name == s[i + 2..m]
    && fallback == (if n == |s| - 1 then None else Some(Trim(Shown(s[n + 1..|s| - 1]))))
  }

  /** Every text, exactly: a reference if what remains of it has this layout, and its own value otherwise. */
  lemma ReadIs(raw: string)
    ensures Read(raw).Plain? ==> Read(raw).text == Normalise(raw)
    ensures Read(raw).Var? <==> exists i: nat, m: nat, n: nat :: RefLayout(Normalise(raw), i, m, n)
    ensures Read(raw).Var? ==> exists i: nat, m: nat, n: nat :: Spells(Normalise(raw), Read(raw).name, Read(raw).fallback, i, m, n)
  {
    var s := Normalise(raw);
    if ReadVar(s).Some? {
      var i, m, n := ReadVarHasLayout(s);
      RefIsRead(s, i, m, n);
      assert Spells(s, Read(raw).name, Read(raw).fallback, i, m, n);
    } else {
      forall i: nat, m: nat, n: nat ensures !RefLayout(s, i, m, n) {
        if RefLayout(s, i, m, n) { RefIsRead(s, i, m, n); }
      }
    }
  }

  /** Whitespace around a value, and one !important behind it, do not count. */
  lemma ImportantGoes(a: string, s: string, b: string, c: string)
    requires AllSpaces(a) && AllSpaces(b) && AllSpaces(c) && s != "" && !IsSpace(s[0]) && !IsSpace(s[|s| - 1])
    ensures Normalise(a + ((s + (b + "!important")) + c)) == s
    ensures (|s| < 10 || s[|s| - 10..] != "!important") ==> Normalise(a + (s + c)) == s
  {
    var w := s + (b + "!important");
    assert w[0] == s[0] && w[|w| - 1] == 't' by { assert "!important"[9] == 't'; }
    TrimIs(a, w, c);
    StripsImportant(s, b);
    TrimIs(a, s, c);
    TrimSelf(s);
  }

  lemma StripsImportant(s: string, b: string)
    requires AllSpaces(b) && s != "" && !IsSpace(s[|s| - 1])
    ensures StripImportant(s + (b + "!important")) == s
  {
    var w, n := s + (b + "!important"), |s| + |b|;
    assert w[n..] == "!important" && w[..n] == s + b;
    assert w[|w| - 1] == "!important"[9] == 't';
    TrimEndIs(w, "");
    assert w + "" == w;
    TrimEndIs(s, b);
  }

  lemma TrimSelf(s: string)
    requires s != "" && !IsSpace(s[0]) && !IsSpace(s[|s| - 1])
    ensures Trim(s) == s && TrimEnd(s) == s
  {
    TrimPlain(s);
  }
}
