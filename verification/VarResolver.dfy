/**
 The two resolvers of CSS custom properties in the contrast tests: one keeps the set of names it
 has met and reports a cycle, the other does not and may run forever.
 */
module VarResolver {
  import opened Prelude
  import opened Text

  // ------------------------------------------------------- reading a value

  const IMPORTANT := "!important"

  /** replace(/\s*!important\s*$/, '') */
  function StripImportant(s: string): (r: string)
    ensures |r| <= |s|
  {
    var t := TrimEnd(s);
    var n := |t| - |IMPORTANT|;
    if n >= 0 && t[n..] == IMPORTANT then TrimEnd(t[..n]) else s
  }

  function Normalise(raw: string): (r: string)
    ensures |r| <= |raw|
  {
    Trim(StripImportant(Trim(raw)))
  }

  predicate IsNameChar(c: char) {
    'a' <= c <= 'z' || 'A' <= c <= 'Z' || IsDigit(c) || c == '-'
  }

  predicate IsVarOpen(s: string) {
    |s| >= 4 && (s[0] == 'v' || s[0] == 'V') && (s[1] == 'a' || s[1] == 'A') && (s[2] == 'r' || s[2] == 'R') && s[3] == '('
  }

  datatype Ref = Ref(name: string, fallback: Option<string>)

  /** What follows the comma, up to the closing parenthesis: blanks are skipped, but one character
      has to remain. */
  function ReadFallback(t: string): (r: Option<string>)
    ensures r.Some? ==> |r.value| <= |t|
  {
    if t == "" then None
    else
      var i := SkipSpaces(t, 0);
      var rest := if i < |t| then t[i..] else t[|t| - 1..];
      if OneLine(rest) then Some(rest) else None
  }

  /** The pattern var( --name , fallback ). */
  function ReadVar(s: string): (r: Option<Ref>)
    ensures r.Some? && r.value.fallback.Some? ==> |r.value.fallback.value| < |s|
  {
    if !IsVarOpen(s) || s[|s| - 1] != ')' then None else ReadName(s, SkipSpaces(s, 4))
  }

  /** The pattern from the dashes at i on. */
  function ReadName(s: string, i: nat): (r: Option<Ref>)
    ensures r.Some? && r.value.fallback.Some? ==> |r.value.fallback.value| < |s|
  {
    if i + 2 > |s| || s[i] != '-' || s[i + 1] != '-' then None
    else
      var m := RunEnd(s, i + 2, IsNameChar);
      if m == i + 2 then None else ReadRest(s, s[i + 2..m], SkipSpaces(s, m))
  }

  /** The pattern from n on, behind the name. */
  function ReadRest(s: string, name: string, n: nat): (r: Option<Ref>)
    ensures r.Some? && r.value.fallback.Some? ==> |r.value.fallback.value| < |s|
  {
    if n >= |s| then None
    else if n == |s| - 1 then Some(Ref(name, None))
    else if s[n] != ',' then None
    else
      var f := ReadFallback(s[n + 1..|s| - 1]);
      if f.Some? then Some(Ref(name, f)) else None
  }

  datatype Parsed = Plain(text: string) | Var(name: string, fallback: Option<string>)

  /** What both resolvers make of a raw value. */
  function Read(raw: string): (r: Parsed)
    ensures r.Var? && r.fallback.Some? ==> |r.fallback.value| < |raw|
  {
    var s := Normalise(raw);
    match ReadVar(s)
    case None => Plain(s)
    case Some(Ref(name, fallback)) => Var(name, if fallback.Some? then Some(Trim(fallback.value)) else None)
  }

  // ------------------------------------------------------------ resolving

  /** The declarations of the theme and of the root. The results below hold for every way read of
      taking a value apart in which a fallback is shorter than the value; Read is the one of the
      source. */
  datatype Env = Env(theme: map<string, string>, root: map<string, string>, read: string -> Parsed)

  ghost predicate Shrinks(env: Env) {
    forall raw :: env.read(raw).Var? && env.read(raw).fallback.Some? ==> |env.read(raw).fallback.value| < |raw|
  }

  /** The theme comes first; an empty declaration counts as none. */
  function Lookup(env: Env, name: string): Option<string> {
    if name in env.theme && env.theme[name] != "" then Some(env.theme[name])
    else if name in env.root && env.root[name] != "" then Some(env.root[name])
    else None
  }

  function Declared(env: Env): set<string> {
    set n | n in env.theme.Keys + env.root.Keys && Lookup(env, n).Some?
  }

  datatype Outcome = Value(s: string) | Unresolved(name: string) | Cycle(name: string)

  datatype Next = Done(o: Outcome) | Goto(raw: string)

  /** One call of the resolver without a guard: a result, or the value it calls itself on. */
  function Step(env: Env, raw: string): Next {
    match env.read(raw)
    case Plain(text) => Done(Value(text))
    case Var(name, fallback) =>
      if Lookup(env, name).Some? then Goto(Lookup(env, name).value)
      else if fallback.Some? then Goto(fallback.value)
      else Done(Unresolved(name))
  }

  /** Whether meeting the name again is reported: any name for the guard of the source, and only
      a declared name if onlyDeclared. */
  predicate Guarded(env: Env, name: string, seen: set<string>, onlyDeclared: bool) {
    name in seen && (onlyDeclared ==> Lookup(env, name).Some?)
  }

  /** The resolver with its set of names met. */
  function Resolve(env: Env, raw: string, seen: set<string>, onlyDeclared: bool): Outcome
    requires Shrinks(env)
    decreases Declared(env) - seen, |raw|
  {
    match env.read(raw)
    case Plain(text) => Value(text)
    case Var(name, _) =>
      if Guarded(env, name, seen, onlyDeclared) then Cycle(name)
      else match Step(env, raw)
        case Done(o) => o
        case Goto(next) =>
          FewerLeft(env, raw, seen);
          Resolve(env, next, seen + {name}, onlyDeclared)
  }

  /** The measure: declared names not yet met, then the length of the value. */
  lemma FewerLeft(env: Env, raw: string, seen: set<string>)
    requires Shrinks(env) && env.read(raw).Var? && Step(env, raw).Goto?
    ensures var name := env.read(raw).name;
            var left, left' := Declared(env) - seen, Declared(env) - (seen + {name});
            if Lookup(env, name).Some? && name !in seen then left' < left
            else if Lookup(env, name).Some? then left' == left
            else left' == left && |Step(env, raw).raw| < |raw|
  {
    var name := env.read(raw).name;
    assert Lookup(env, name).Some? <==> name in Declared(env);
  }

  /** The resolver without a guard, given up after fuel calls. */
  function Unguarded(env: Env, raw: string, fuel: nat): Option<Outcome>
    decreases fuel
  {
    if fuel == 0 then None
    else match Step(env, raw)
      case Done(o) => Some(o)
      case Goto(next) => Unguarded(env, next, fuel - 1)
  }

  ghost predicate Ends(env: Env, raw: string) {
    exists fuel: nat :: Unguarded(env, raw, fuel).Some?
  }

  // ------------------------------------------- a result is the unguarded result

  lemma {:induction false} ResultIsUnguarded(env: Env, raw: string, seen: set<string>, onlyDeclared: bool) returns (fuel: nat)
    requires Shrinks(env) && !Resolve(env, raw, seen, onlyDeclared).Cycle?
    ensures Unguarded(env, raw, fuel) == Some(Resolve(env, raw, seen, onlyDeclared))
    decreases Declared(env) - seen, |raw|
  {
    match Step(env, raw)
    case Done(o) => fuel := 1;
    case Goto(next) =>
      var name := env.read(raw).name;
      FewerLeft(env, raw, seen);
      fuel := ResultIsUnguarded(env, next, seen + {name}, onlyDeclared);
      fuel := fuel + 1;
  }

  // ------------------------------------------------ a cycle never ends

  function Iterate(env: Env, raw: string, k: nat): Option<string>
    decreases k
  {
    if k == 0 then Some(raw)
    else match Step(env, raw)
      case Done(_) => None
      case Goto(next) => Iterate(env, next, k - 1)
  }

  lemma {:induction false} IterateOneMore(env: Env, raw: string, k: nat)
    requires Iterate(env, raw, k).Some? && Step(env, Iterate(env, raw, k).value).Goto?
    ensures Iterate(env, raw, k + 1) == Some(Step(env, Iterate(env, raw, k).value).raw)
    decreases k
  {
    if k > 0 {
      IterateOneMore(env, Step(env, raw).raw, k - 1);
    } else {
      assert Iterate(env, raw, 1) == Iterate(env, Step(env, raw).raw, 0);
    }
  }

  lemma {:induction false} SkipIterations(env: Env, raw: string, k: nat, fuel: nat)
    requires Iterate(env, raw, k).Some? && Unguarded(env, raw, fuel).Some?
    ensures k < fuel && Unguarded(env, Iterate(env, raw, k).value, fuel - k).Some?
    decreases k
  {
    if k > 0 { SkipIterations(env, Step(env, raw).raw, k - 1, fuel - 1); }
  }

  lemma {:induction false} LoopNeverEnds(env: Env, raw: string, k: nat, fuel: nat)
    requires k > 0 && Iterate(env, raw, k) == Some(raw)
    ensures Unguarded(env, raw, fuel).None?
    decreases fuel
  {
    if Unguarded(env, raw, fuel).Some? {
      SkipIterations(env, raw, k, fuel);
      LoopNeverEnds(env, raw, k, fuel - k);
    }
  }

  ghost predicate LeadsTo(env: Env, from: string, to: string) {
    exists k: nat :: Iterate(env, from, k) == Some(to)
  }

  /** The value of every declared name met so far has led to raw. */
  ghost predicate Trail(env: Env, seen: set<string>, raw: string) {
    forall m :: m in seen && Lookup(env, m).Some? ==> LeadsTo(env, Lookup(env, m).value, raw)
  }

  lemma TrailGrows(env: Env, seen: set<string>, raw: string)
    requires Trail(env, seen, raw) && env.read(raw).Var? && Step(env, raw).Goto?
    ensures Trail(env, seen + {env.read(raw).name}, Step(env, raw).raw)
  {
    var name, next := env.read(raw).name, Step(env, raw).raw;
    forall m | m in seen + {name} && Lookup(env, m).Some? ensures LeadsTo(env, Lookup(env, m).value, next) {
      var from := Lookup(env, m).value;
      if m == name {
        assert Iterate(env, from, 0) == Some(next);
      } else {
        var k: nat :| Iterate(env, from, k) == Some(raw);
        IterateOneMore(env, from, k);
      }
    }
  }

  /** A declared name met again: its value leads back to itself, and no run ends. */
  lemma RevisitNeverEnds(env: Env, seen: set<string>, raw: string)
    requires Trail(env, seen, raw) && env.read(raw).Var? && env.read(raw).name in seen
    requires Lookup(env, env.read(raw).name).Some?
    ensures !Ends(env, raw)
  {
    var from := Lookup(env, env.read(raw).name).value;
    var k: nat :| Iterate(env, from, k) == Some(raw);
    IterateOneMore(env, from, k);
    forall fuel: nat ensures Unguarded(env, raw, fuel).None? {
      if fuel > 0 { LoopNeverEnds(env, from, k + 1, fuel - 1); }
    }
  }

  lemma {:induction false} CycleNeverEnds(env: Env, raw: string, seen: set<string>)
    requires Shrinks(env) && Trail(env, seen, raw) && Resolve(env, raw, seen, true).Cycle?
    ensures !Ends(env, raw)
    decreases Declared(env) - seen, |raw|
  {
    var name := env.read(raw).name;
    if Guarded(env, name, seen, true) {
      RevisitNeverEnds(env, seen, raw);
    } else {
      var next := Step(env, raw).raw;
      FewerLeft(env, raw, seen);
      TrailGrows(env, seen, raw);
      CycleNeverEnds(env, next, seen + {name});
      forall fuel: nat ensures Unguarded(env, raw, fuel).None? {
        if fuel > 0 { assert Unguarded(env, next, fuel - 1).None?; }
      }
    }
  }

  // ------------------------------------- the guard in terms of the unguarded run

  /** The name the unguarded run meets in its k-th call. */
  function NameAt(env: Env, raw: string, k: nat): Option<string> {
    var at := Iterate(env, raw, k);
    if at.Some? && env.read(at.value).Var? then Some(env.read(at.value).name) else None
  }

  /** Call j meets a name from seen or from an earlier call; with onlyDeclared, a declared one. */
  predicate MeetsAgain(env: Env, raw: string, seen: set<string>, onlyDeclared: bool, j: nat) {
    var n := NameAt(env, raw, j);
    && n.Some? && (onlyDeclared ==> Lookup(env, n.value).Some?)
    && (n.value in seen || exists i: nat :: i < j && NameAt(env, raw, i) == n)
  }

  lemma LaterNames(env: Env, raw: string, seen: set<string>, onlyDeclared: bool, j: nat)
    requires env.read(raw).Var? && Step(env, raw).Goto?
    ensures MeetsAgain(env, raw, seen, onlyDeclared, j + 1)
       <==> MeetsAgain(env, Step(env, raw).raw, seen + {env.read(raw).name}, onlyDeclared, j)
  {
    var name, next := env.read(raw).name, Step(env, raw).raw;
    assert forall k: nat :: NameAt(env, raw, k + 1) == NameAt(env, next, k);
    assert NameAt(env, raw, 0) == Some(name);
    var n := NameAt(env, raw, j + 1);
    if MeetsAgain(env, raw, seen, onlyDeclared, j + 1) && n.value !in seen + {name} {
      var i: nat :| i < j + 1 && NameAt(env, raw, i) == n;
      assert NameAt(env, next, i - 1) == n;
    }
    if MeetsAgain(env, next, seen + {name}, onlyDeclared, j) && n.value !in seen && n.value != name {
      var i: nat :| i < j && NameAt(env, next, i) == n;
      assert NameAt(env, raw, i + 1) == n;
    }
  }

  /** A guard reports a cycle exactly when the unguarded run meets a name (or a declared name) again. */
  lemma {:induction false} GuardReportsRepeats(env: Env, raw: string, seen: set<string>, onlyDeclared: bool)
    requires Shrinks(env)
    ensures Resolve(env, raw, seen, onlyDeclared).Cycle? <==> exists j: nat :: MeetsAgain(env, raw, seen, onlyDeclared, j)
    decreases Declared(env) - seen, |raw|
  {
    var r := env.read(raw);
    if r.Var? && Guarded(env, r.name, seen, onlyDeclared) {
      assert NameAt(env, raw, 0) == Some(r.name);
      assert MeetsAgain(env, raw, seen, onlyDeclared, 0);
    } else if r.Var? && Step(env, raw).Goto? {
      var next := Step(env, raw).raw;
      FewerLeft(env, raw, seen);
      GuardReportsRepeats(env, next, seen + {r.name}, onlyDeclared);
      forall j: nat
        ensures MeetsAgain(env, raw, seen, onlyDeclared, j + 1) <==> MeetsAgain(env, next, seen + {r.name}, onlyDeclared, j)
      {
        LaterNames(env, raw, seen, onlyDeclared, j);
      }
      if j: nat :| MeetsAgain(env, next, seen + {r.name}, onlyDeclared, j) {
        assert MeetsAgain(env, raw, seen, onlyDeclared, j + 1);
      }
      if j: nat :| MeetsAgain(env, raw, seen, onlyDeclared, j) {
        assert j > 0 && MeetsAgain(env, next, seen + {r.name}, onlyDeclared, j - 1);
      }
    } else {
      forall j: nat ensures !MeetsAgain(env, raw, seen, onlyDeclared, j) {
        if j > 0 { assert Iterate(env, raw, j).None?; }
      }
    }
  }

  /** Calls i and j of the unguarded run meet the same declared name. */
  predicate DeclaredTwice(env: Env, raw: string, i: nat, j: nat) {
    i < j && NameAt(env, raw, i).Some? && NameAt(env, raw, i) == NameAt(env, raw, j) && Lookup(env, NameAt(env, raw, i).value).Some?
  }

  /** The unguarded resolver ends exactly when its run meets no declared name twice, and then it
      gives the result of a guard on the declared names. */
  lemma UnguardedEndsIff(env: Env, raw: string)
    requires Shrinks(env)
    ensures Ends(env, raw) <==> !exists i: nat, j: nat :: DeclaredTwice(env, raw, i, j)
    ensures forall fuel: nat :: Unguarded(env, raw, fuel).Some? ==>
              Unguarded(env, raw, fuel).value == Resolve(env, raw, {}, true)
  {
    DeclaredGuard(env, raw);
    GuardReportsRepeats(env, raw, {}, true);
    if i: nat, j: nat :| DeclaredTwice(env, raw, i, j) {
      assert MeetsAgain(env, raw, {}, true, j);
    }
    if j: nat :| MeetsAgain(env, raw, {}, true, j) {
      var i: nat :| i < j && NameAt(env, raw, i) == NameAt(env, raw, j);
      assert DeclaredTwice(env, raw, i, j);
    }
  }

  /** A guard on the declared names is exact. */
  lemma DeclaredGuard(env: Env, raw: string)
    requires Shrinks(env)
    ensures Ends(env, raw) <==> !Resolve(env, raw, {}, true).Cycle?
    ensures forall fuel: nat :: Unguarded(env, raw, fuel).Some? ==>
              Unguarded(env, raw, fuel).value == Resolve(env, raw, {}, true)
  {
    if Resolve(env, raw, {}, true).Cycle? {
      CycleNeverEnds(env, raw, {});
    } else {
      var n := ResultIsUnguarded(env, raw, {}, true);
      forall fuel: nat | Unguarded(env, raw, fuel).Some? ensures Unguarded(env, raw, fuel) == Unguarded(env, raw, n) {
        FuelIsEnough(env, raw, fuel, n);
      }
    }
  }

  lemma {:induction false} FuelIsEnough(env: Env, raw: string, m: nat, n: nat)
    requires Unguarded(env, raw, m).Some? && Unguarded(env, raw, n).Some?
    ensures Unguarded(env, raw, m) == Unguarded(env, raw, n)
    decreases m
  {
    if Step(env, raw).Goto? { FuelIsEnough(env, Step(env, raw).raw, m - 1, n - 1); }
  }

  // ------------------------------------------- the guard of the source

  /** The guard of the source agrees with the one on declared names unless it reports a name
      that is not declared. */
  lemma {:induction false} GuardsAgree(env: Env, raw: string, seen: set<string>)
    requires Shrinks(env)
    ensures var r := Resolve(env, raw, seen, false);
            (r.Cycle? && Lookup(env, r.name).None?) || Resolve(env, raw, seen, true) == r
    decreases Declared(env) - seen, |raw|
  {
    var r := env.read(raw);
    if r.Var? && r.name !in seen && Step(env, raw).Goto? {
      FewerLeft(env, raw, seen);
      GuardsAgree(env, Step(env, raw).raw, seen + {r.name});
    }
  }

  /** The guarded resolver against the unguarded one: a value or an unresolved name is what the
      unguarded one gives too, and a cycle on a declared name means that it never ends. */
  lemma GuardIsRight(env: Env, raw: string)
    requires Shrinks(env)
    ensures var r := Resolve(env, raw, {}, false);
            match r
            case Cycle(name) => Lookup(env, name).Some? ==> !Ends(env, raw)
            case _ => Ends(env, raw) && forall fuel: nat :: Unguarded(env, raw, fuel).Some? ==> Unguarded(env, raw, fuel) == Some(r)
  {
    GuardsAgree(env, raw, {});
    DeclaredGuard(env, raw);
  }

  /** The same for resolveVar of the source, which starts from var(--name). */
  lemma ResolveVarIsRight(theme: map<string, string>, root: map<string, string>, name: string)
    ensures var env := Env(theme, root, Read);
            var start := "var(--" + name + ")";
            && Shrinks(env)
            && match Resolve(env, start, {}, false)
               case Cycle(n) => Lookup(env, n).Some? ==> !Ends(env, start)
               case r => Ends(env, start) && forall fuel: nat :: Unguarded(env, start, fuel).Some? ==> Unguarded(env, start, fuel) == Some(r)
  {
    GuardIsRight(Env(theme, root, Read), "var(--" + name + ")");
  }

  predicate IsName(name: string) {
    name != "" && forall i :: 0 <= i < |name| ==> IsNameChar(name[i])
  }

  /** A reference as it is usually written, with a fallback. */
  function VarOf(name: string, f: string): string {
    "var(--" + (name + ([','] + (f + [')'])))
  }

  /** The guard raises a false alarm exactly when the run meets some name twice, but no declared one. */
  lemma FalseAlarmIff(env: Env, raw: string)
    requires Shrinks(env)
    ensures Resolve(env, raw, {}, false).Cycle? && Ends(env, raw)
       <==> (exists j: nat :: MeetsAgain(env, raw, {}, false, j)) && !exists i: nat, j: nat :: DeclaredTwice(env, raw, i, j)
  {
    GuardReportsRepeats(env, raw, {}, false);
    UnguardedEndsIff(env, raw);
  }

  /** A cycle on a name without a declaration is a false alarm of the guard: the name may occur
      twice in nested fallbacks, as in var(--a,var(--a,x)). */
  lemma UndeclaredTwiceIsReported(theme: map<string, string>, root: map<string, string>, name: string, x: string)
    requires IsName(name) && Lookup(Env(theme, root, Read), name).None? && Compact(x) && Read(x) == Plain(x)
    ensures var env := Env(theme, root, Read);
            var raw := VarOf(name, VarOf(name, x));
            Shrinks(env) && Resolve(env, raw, {}, false) == Cycle(name) && Unguarded(env, raw, 3) == Some(Value(x))
  {
    var inner := VarOf(name, x);
    ReadsAs(name, x);
    ReadsAs(name, inner);
    FalseAlarm(Env(theme, root, Read), VarOf(name, inner), inner, x, name);
  }

  /** A value that names the same undeclared property twice, around the plain value last. */
  lemma FalseAlarm(env: Env, outer: string, inner: string, last: string, name: string)
    requires Shrinks(env) && Lookup(env, name).None?
    requires env.read(outer) == Var(name, Some(inner)) && env.read(inner) == Var(name, Some(last)) && env.read(last) == Plain(last)
    ensures Resolve(env, outer, {}, false) == Cycle(name) && Unguarded(env, outer, 3) == Some(Value(last))
  {
    assert Resolve(env, inner, {} + {name}, false) == Cycle(name);
    assert Unguarded(env, inner, 2) == Unguarded(env, last, 1) == Some(Value(last));
  }

  lemma TrimPlain(s: string)
    requires s != "" && !IsSpace(s[0]) && !IsSpace(s[|s| - 1])
    ensures Trim(s) == s && TrimEnd(s) == s
  {
    assert s[0..] == s;
  }

  lemma NotImportant(s: string)
    requires s != "" && !IsSpace(s[|s| - 1]) && s[|s| - 1] != 't'
    ensures StripImportant(s) == s
  {
    var n := |s| - |IMPORTANT|;
    if n >= 0 { assert s[n..][|IMPORTANT| - 1] == s[|s| - 1]; }
  }

  predicate Compact(f: string) {
    f != "" && !IsSpace(f[0]) && !IsSpace(f[|f| - 1]) && OneLine(f)
  }

  /** Where the parts of a printed reference are. */
  lemma VarParts(name: string, f: string)
    requires IsName(name) && Compact(f)
    ensures var s, m := VarOf(name, f), |name| + 6;
            && |s| == m + |f| + 2 && Compact(s) && IsVarOpen(s) && s[|s| - 1] == ')'
            && s[4] == '-' && s[5] == '-' && s[6..m] == name && (forall i :: 6 <= i < m ==> IsNameChar(s[i]))
            && s[m] == ',' && s[m + 1..|s| - 1] == f
  {
    var s, m := VarOf(name, f), |name| + 6;
    assert forall i :: 0 <= i < 6 ==> s[i] == "var(--"[i];
    assert forall i :: 6 <= i < m ==> s[i] == name[i - 6];
    assert forall i :: m + 1 <= i < |s| - 1 ==> s[i] == f[i - m - 1];
  }

  /** Every reference with a name and a trimmed fallback on one line reads back. */
  lemma ReadsAs(name: string, f: string)
    requires IsName(name) && Compact(f)
    ensures Read(VarOf(name, f)) == Var(name, Some(f)) && Compact(VarOf(name, f))
  {
    var s := VarOf(name, f);
    VarParts(name, f);
    TrimPlain(s);
    TrimPlain(f);
    NotImportant(s);
    ReadVarParts(s, name, f);
  }

  lemma ReadVarParts(s: string, name: string, f: string)
    requires Compact(f) && name != "" && |s| == |name| + |f| + 8 && IsVarOpen(s) && s[|s| - 1] == ')'
    requires s[4] == '-' && s[5] == '-' && s[6..|name| + 6] == name && s[|name| + 6] == ','
    requires (forall i :: 6 <= i < |name| + 6 ==> IsNameChar(s[i])) && s[|name| + 7..|s| - 1] == f
    ensures ReadVar(s) == Some(Ref(name, Some(f)))
  {
    var m := |name| + 6;
    assert SkipSpaces(s, 4) == 4;
    RunEndIs(s, 6, m, IsNameChar);
    assert SkipSpaces(s, m) == m;
    assert SkipSpaces(f, 0) == 0 && f[0..] == f;
  }
}
