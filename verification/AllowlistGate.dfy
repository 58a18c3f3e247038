/**
 The suppression gate of the axe accessibility run: an allowlist entry suppresses the violations
 it is the first to match, up to its count_max over the whole run. Compiled patterns are an
 uninterpreted predicate on (pattern, target).
 */
module AllowlistGate {
  import opened Prelude

  /** An entry accepted by the loader: one of selector and pattern is set. A cap of None stands
      for a count_max that is absent, null or 0. */
  datatype Entry = Entry(route: string, rule: string, selector: Option<string>, pattern: Option<string>, cap: Option<int>)

  /** A violating node as the gate looks at it. */
  datatype Violation = Violation(route: string, rule: string, targets: seq<string>)

  type Regex = (string, string) -> bool

  predicate TargetHit(re: Regex, e: Entry, target: string) {
    (e.selector.Some? && e.selector.value != "" && target == e.selector.value)
    || (e.pattern.Some? && re(e.pattern.value, target))
  }

  predicate Matches(re: Regex, e: Entry, v: Violation) {
    e.route == v.route && e.rule == v.rule && exists i :: 0 <= i < |v.targets| && TargetHit(re, e, v.targets[i])
  }

  /** The first entry at or after k that matches, or |entries|. */
  function FirstMatch(re: Regex, entries: seq<Entry>, v: Violation, k: nat): (r: nat)
    requires k <= |entries|
    ensures k <= r <= |entries|
    ensures r < |entries| ==> Matches(re, entries[r], v)
    ensures forall j :: k <= j < r ==> !Matches(re, entries[j], v)
    decreases |entries| - k
  {
    if k == |entries| then k
    else if Matches(re, entries[k], v) then k
    else FirstMatch(re, entries, v, k + 1)
  }

  /** One entry and one violation, by their fields: same route and rule, and one of the targets is the
      selector, or the pattern hits it. An empty selector selects nothing. */
  lemma MatchesWhen(re: Regex, e: Entry, v: Violation)
    ensures Matches(re, e, v) <==>
            e.route == v.route && e.rule == v.rule
            && exists i :: 0 <= i < |v.targets|
                 && ((e.selector == Some(v.targets[i]) && v.targets[i] != "") || (e.pattern != None && re(e.pattern.value, v.targets[i])))
  {
  }

  // --------------------------------------------------------- accounting

  datatype Tally = Tally(counts: seq<nat>, suppressed: nat, net: nat)

  predicate Overflows(e: Entry, count: nat) {
    e.cap.Some? && count > e.cap.value
  }

  /** One violation through matchViolation and the accounting around it. */
  function Account(re: Regex, entries: seq<Entry>, t: Tally, v: Violation): (r: Tally)
    requires |t.counts| == |entries|
    ensures |r.counts| == |entries|
  {
    var k := FirstMatch(re, entries, v, 0);
    if k == |entries| then t.(net := t.net + 1)
    else
      var counts := t.counts[k := t.counts[k] + 1];
      if Overflows(entries[k], counts[k]) then t.(counts := counts, net := t.net + 1)
      else t.(counts := counts, suppressed := t.suppressed + 1)
  }

  function AccountAll(re: Regex, entries: seq<Entry>, t: Tally, vs: seq<Violation>): (r: Tally)
    requires |t.counts| == |entries|
    ensures |r.counts| == |entries|
    decreases |vs|
  {
    if vs == [] then t else AccountAll(re, entries, Account(re, entries, t, vs[0]), vs[1..])
  }

  function Fresh(entries: seq<Entry>): Tally {
    Tally(seq(|entries|, _ => 0), 0, 0)
  }

  /** One entry that matches all of n violations suppresses exactly as many as its count_max allows, all of
      them without one; the others count as net. */
  lemma {:induction false} CapIsExact(re: Regex, e: Entry, vs: seq<Violation>)
    requires forall i :: 0 <= i < |vs| ==> Matches(re, e, vs[i])
    ensures var t := AccountAll(re, [e], Fresh([e]), vs);
            && t.counts == [|vs|] && t.suppressed + t.net == |vs|
            && t.suppressed == (if e.cap == None || |vs| <= e.cap.value then |vs| else if e.cap.value < 0 then 0 else e.cap.value)
  {
    TotalsAreSums(re, [e], vs);
    HitsOfAll(re, e, vs);
    var t := AccountAll(re, [e], Fresh([e]), vs);
    assert t.counts == [|vs|];
    assert AllowedSum([e], t.counts, 1) == AllowedSum([e], t.counts, 0) + Allowed(e.cap, |vs|);
  }

  lemma {:induction false} HitsOfAll(re: Regex, e: Entry, vs: seq<Violation>)
    requires forall i :: 0 <= i < |vs| ==> Matches(re, e, vs[i])
    ensures Hits(re, [e], vs, 0) == |vs|
  {
    if vs != [] { HitsOfAll(re, e, vs[1..]); }
  }

  /** A violation that no entry matches counts as net, whatever the entries. */
  lemma UnmatchedIsNet(re: Regex, entries: seq<Entry>, t: Tally, v: Violation)
    requires |t.counts| == |entries| && forall k :: 0 <= k < |entries| ==> !Matches(re, entries[k], v)
    ensures Account(re, entries, t, v) == t.(net := t.net + 1)
  {
  }

  // ------------------------------------ totals as sums over the entries

  /** How many violations entry k is the first to match. */
  function Hits(re: Regex, entries: seq<Entry>, vs: seq<Violation>, k: nat): nat {
    if vs == [] then 0
    else (if FirstMatch(re, entries, vs[0], 0) == k then 1 else 0) + Hits(re, entries, vs[1..], k)
  }

  /** What an entry with this cap suppresses of h hits. */
  function Allowed(cap: Option<int>, h: nat): nat {
    match cap
    case None => h
    case Some(c) => if c < 0 then 0 else if h <= c then h else c
  }

  /** The sum of Allowed over the first k entries for the given counts. */
  function AllowedSum(entries: seq<Entry>, counts: seq<nat>, k: nat): nat
    requires k <= |entries| == |counts|
  {
    if k == 0 then 0 else AllowedSum(entries, counts, k - 1) + Allowed(entries[k - 1].cap, counts[k - 1])
  }

  lemma {:induction false} SumUpdate(entries: seq<Entry>, counts: seq<nat>, i: nat, c: nat, k: nat)
    requires k <= |entries| == |counts| && i < |counts|
    ensures AllowedSum(entries, counts[i := c], k) + (if i < k then Allowed(entries[i].cap, counts[i]) else 0)
         == AllowedSum(entries, counts, k) + (if i < k then Allowed(entries[i].cap, c) else 0)
    decreases k
  {
    if k > 0 {
      SumUpdate(entries, counts, i, c, k - 1);
    }
  }

  /** The totals are determined by the counters, and every violation is in exactly one total. */
  ghost predicate Balanced(entries: seq<Entry>, t: Tally, seen: nat) {
    && |t.counts| == |entries|
    && t.suppressed == AllowedSum(entries, t.counts, |entries|)
    && t.suppressed + t.net == seen
  }

  lemma AccountBalanced(re: Regex, entries: seq<Entry>, t: Tally, v: Violation, seen: nat)
    requires Balanced(entries, t, seen)
    ensures Balanced(entries, Account(re, entries, t, v), seen + 1)
  {
    var k := FirstMatch(re, entries, v, 0);
    if k < |entries| {
      SumUpdate(entries, t.counts, k, t.counts[k] + 1, |entries|);
    }
  }

  lemma {:induction false} AccountAllBalanced(re: Regex, entries: seq<Entry>, t: Tally, vs: seq<Violation>, seen: nat)
    requires Balanced(entries, t, seen)
    ensures Balanced(entries, AccountAll(re, entries, t, vs), seen + |vs|)
    decreases |vs|
  {
    if vs != [] {
      AccountBalanced(re, entries, t, vs[0], seen);
      AccountAllBalanced(re, entries, Account(re, entries, t, vs[0]), vs[1..], seen + 1);
    }
  }

  lemma {:induction false} CountsAreHits(re: Regex, entries: seq<Entry>, t: Tally, vs: seq<Violation>, k: nat)
    requires |t.counts| == |entries| && k < |entries|
    ensures AccountAll(re, entries, t, vs).counts[k] == t.counts[k] + Hits(re, entries, vs, k)
    decreases |vs|
  {
    if vs != [] {
      CountsAreHits(re, entries, Account(re, entries, t, vs[0]), vs[1..], k);
    }
  }

  lemma {:induction false} NothingAllowedYet(entries: seq<Entry>, k: nat)
    requires k <= |entries|
    ensures AllowedSum(entries, Fresh(entries).counts, k) == 0
  {
    if k > 0 {
      NothingAllowedYet(entries, k - 1);
    }
  }

  /** For every sequence of violations: each counter is the number of first matches, suppressed is
      the sum over the entries of min(first matches, count_max), and net is everything else. */
  lemma TotalsAreSums(re: Regex, entries: seq<Entry>, vs: seq<Violation>)
    ensures var r := AccountAll(re, entries, Fresh(entries), vs);
            && (forall k :: 0 <= k < |entries| ==> r.counts[k] == Hits(re, entries, vs, k))
            && r.suppressed == AllowedSum(entries, r.counts, |entries|)
            && r.suppressed + r.net == |vs|
  {
    NothingAllowedYet(entries, |entries|);
    AccountAllBalanced(re, entries, Fresh(entries), vs, 0);
    forall k | 0 <= k < |entries|
      ensures AccountAll(re, entries, Fresh(entries), vs).counts[k] == Hits(re, entries, vs, k)
    {
      CountsAreHits(re, entries, Fresh(entries), vs, k);
    }
  }

  // ------------------------------------------------- order does not matter

  lemma {:induction false} HitsSplit(re: Regex, entries: seq<Entry>, a: seq<Violation>, b: seq<Violation>, k: nat)
    ensures Hits(re, entries, a + b, k) == Hits(re, entries, a, k) + Hits(re, entries, b, k)
    decreases |a|
  {
    if a == [] {
      assert a + b == b;
    } else {
      assert (a + b)[1..] == a[1..] + b;
      HitsSplit(re, entries, a[1..], b, k);
    }
  }

  lemma {:induction false} HitsOfPermutation(re: Regex, entries: seq<Entry>, a: seq<Violation>, b: seq<Violation>, k: nat)
    requires multiset(a) == multiset(b)
    ensures Hits(re, entries, a, k) == Hits(re, entries, b, k)
    decreases |a|
  {
    if a == [] {
      assert |multiset(b)| == 0;
      assert b == [];
    } else {
      var v := a[0];
      assert v in multiset(b);
      var i :| 0 <= i < |b| && b[i] == v;
      assert a == [v] + a[1..];
      assert b == b[..i] + ([v] + b[i + 1..]);
      assert multiset(a[1..]) == multiset(a) - multiset{v};
      assert multiset(b[..i] + b[i + 1..]) == multiset(b) - multiset{v};
      HitsOfPermutation(re, entries, a[1..], b[..i] + b[i + 1..], k);
      HitsSplit(re, entries, b[..i], b[i + 1..], k);
      HitsSplit(re, entries, b[..i], [v] + b[i + 1..], k);
      assert ([v] + b[i + 1..])[1..] == b[i + 1..];
    }
  }

  /** The outcome of a run does not depend on the order in which the violations are met. */
  lemma OrderIsIrrelevant(re: Regex, entries: seq<Entry>, a: seq<Violation>, b: seq<Violation>)
    requires multiset(a) == multiset(b)
    ensures AccountAll(re, entries, Fresh(entries), a) == AccountAll(re, entries, Fresh(entries), b)
  {
    TotalsAreSums(re, entries, a);
    TotalsAreSums(re, entries, b);
    forall k | 0 <= k < |entries| ensures Hits(re, entries, a, k) == Hits(re, entries, b, k) {
      HitsOfPermutation(re, entries, a, b, k);
    }
    var ra, rb := AccountAll(re, entries, Fresh(entries), a), AccountAll(re, entries, Fresh(entries), b);
    assert ra.counts == rb.counts;
    assert |a| == |multiset(a)| == |multiset(b)| == |b|;
  }

  // ---------------------------------------------------------- a gate run

  /** One rule of an axe result with the targets of its nodes. */
  datatype Finding = Finding(rule: string, nodes: seq<seq<string>>)

  /** What a (viewport, theme, route) cell yields: a probe error or axe's findings. */
  datatype Cell = ProbeError | Scanned(rules: set<string>, route: string, findings: seq<Finding>)

  function NodeViolations(route: string, rule: string, nodes: seq<seq<string>>): seq<Violation> {
    if nodes == [] then [] else [Violation(route, rule, nodes[0])] + NodeViolations(route, rule, nodes[1..])
  }

  /** The violations of a cell; a rule outside the viewport's list is skipped. */
  function FindingViolations(rules: set<string>, route: string, findings: seq<Finding>): seq<Violation> {
    if findings == [] then []
    else (if findings[0].rule in rules then NodeViolations(route, findings[0].rule, findings[0].nodes) else [])
         + FindingViolations(rules, route, findings[1..])
  }

  function CellViolations(c: Cell): seq<Violation> {
    if c.ProbeError? then [] else FindingViolations(c.rules, c.route, c.findings)
  }

  function AllViolations(cells: seq<Cell>): seq<Violation> {
    if cells == [] then [] else CellViolations(cells[0]) + AllViolations(cells[1..])
  }

  function Errors(cells: seq<Cell>): nat {
    if cells == [] then 0 else (if cells[0].ProbeError? then 1 else 0) + Errors(cells[1..])
  }

  /** The violations of a run, by position: cell after cell, rule after rule, node after node; of the rules
      only those in the viewport's list, and nothing of a cell with a probe error. */
  lemma {:induction false} ViolationsSplit(a: seq<Cell>, b: seq<Cell>)
    ensures AllViolations(a + b) == AllViolations(a) + AllViolations(b) && Errors(a + b) == Errors(a) + Errors(b)
    decreases |a|
  {
    if a == [] {
      assert a + b == b;
    } else {
      assert (a + b)[1..] == a[1..] + b;
      ViolationsSplit(a[1..], b);
    }
  }

  lemma {:induction false} FindingsSplit(rules: set<string>, route: string, a: seq<Finding>, b: seq<Finding>)
    ensures FindingViolations(rules, route, a + b) == FindingViolations(rules, route, a) + FindingViolations(rules, route, b)
    decreases |a|
  {
    if a == [] {
      assert a + b == b;
    } else {
      assert (a + b)[1..] == a[1..] + b;
      FindingsSplit(rules, route, a[1..], b);
    }
  }

  lemma {:induction false} NodesByPosition(route: string, rule: string, nodes: seq<seq<string>>)
    ensures |NodeViolations(route, rule, nodes)| == |nodes|
    ensures forall k :: 0 <= k < |nodes| ==> NodeViolations(route, rule, nodes)[k] == Violation(route, rule, nodes[k])
  {
    if nodes != [] { NodesByPosition(route, rule, nodes[1..]); }
  }

  lemma OneFinding(rules: set<string>, route: string, f: Finding)
    ensures var vs := AllViolations([Scanned(rules, route, [f])]);
            if f.rule in rules then |vs| == |f.nodes| && forall k :: 0 <= k < |vs| ==> vs[k] == Violation(route, f.rule, f.nodes[k])
            else vs == []
    ensures AllViolations([ProbeError]) == [] && Errors([ProbeError]) == 1 && Errors([Scanned(rules, route, [f])]) == 0
  {
    NodesByPosition(route, f.rule, f.nodes);
    assert FindingViolations(rules, route, [f])
        == (if f.rule in rules then NodeViolations(route, f.rule, f.nodes) else []) + FindingViolations(rules, route, []);
    assert AllViolations([Scanned(rules, route, [f])]) == FindingViolations(rules, route, [f]) + AllViolations([]);
    assert AllViolations([ProbeError]) == [] + AllViolations([]);
    assert Errors([ProbeError]) == 1 + Errors([]) && Errors([Scanned(rules, route, [f])]) == 0 + Errors([]);
  }

  lemma {:induction false} AccountAllSplits(re: Regex, entries: seq<Entry>, t: Tally, a: seq<Violation>, b: seq<Violation>)
    requires |t.counts| == |entries|
    ensures AccountAll(re, entries, t, a + b) == AccountAll(re, entries, AccountAll(re, entries, t, a), b)
    decreases |a|
  {
    if a == [] {
      assert a + b == b;
    } else {
      assert (a + b)[1..] == a[1..] + b;
      AccountAllSplits(re, entries, Account(re, entries, t, a[0]), a[1..], b);
    }
  }

  /** The allowlist with its counters, shared by the whole run, and the run's totals. */
  class Gate {
    const re: Regex
    const entries: seq<Entry>
    var counts: seq<nat>
    var suppressed: nat
    var net: nat

    constructor (re: Regex, entries: seq<Entry>)
      ensures this.re == re && this.entries == entries && Now() == Fresh(entries)
    {
      this.re, this.entries := re, entries;
      counts, suppressed, net := seq(|entries|, _ => 0), 0, 0;
    }

    ghost function Now(): Tally
      reads this
    {
      Tally(counts, suppressed, net)
    }

    method MatchViolation(v: Violation) returns (allowed: bool, overflow: bool)
      requires |counts| == |entries|
      modifies this`counts
      ensures var k := FirstMatch(re, entries, v, 0);
              && allowed == (k < |entries|)
              && counts == (if allowed then old(counts)[k := old(counts)[k] + 1] else old(counts))
              && overflow == (allowed && Overflows(entries[k], counts[k]))
    {
      for i := 0 to |entries|
        invariant counts == old(counts)
        invariant FirstMatch(re, entries, v, 0) == FirstMatch(re, entries, v, i)
      {
        if entries[i].route == v.route && entries[i].rule == v.rule {
          for j := 0 to |v.targets|
            invariant counts == old(counts)
            invariant forall j' :: 0 <= j' < j ==> !TargetHit(re, entries[i], v.targets[j'])
          {
            if TargetHit(re, entries[i], v.targets[j]) {
              assert Matches(re, entries[i], v);
              counts := counts[i := counts[i] + 1];
              return true, Overflows(entries[i], counts[i]);
            }
          }
        }
      }
      return false, false;
    }

    method CountNode(v: Violation)
      requires |counts| == |entries|
      modifies this
      ensures Now() == Account(re, entries, old(Now()), v)
    {
      var allowed, overflow := MatchViolation(v);
      if allowed && !overflow {
        suppressed := suppressed + 1;
      } else {
        net := net + 1;
      }
    }

    method ScanFinding(route: string, f: Finding)
      requires |counts| == |entries|
      modifies this
      ensures Now() == AccountAll(re, entries, old(Now()), NodeViolations(route, f.rule, f.nodes))
    {
      for i := 0 to |f.nodes|
        invariant |counts| == |entries|
        invariant AccountAll(re, entries, Now(), NodeViolations(route, f.rule, f.nodes[i..]))
               == AccountAll(re, entries, old(Now()), NodeViolations(route, f.rule, f.nodes))
      {
        assert f.nodes[i..][1..] == f.nodes[i + 1..];
        CountNode(Violation(route, f.rule, f.nodes[i]));
      }
    }

    method ScanCell(rules: set<string>, route: string, findings: seq<Finding>)
      requires |counts| == |entries|
      modifies this
      ensures Now() == AccountAll(re, entries, old(Now()), FindingViolations(rules, route, findings))
    {
      for i := 0 to |findings|
        invariant |counts| == |entries|
        invariant AccountAll(re, entries, Now(), FindingViolations(rules, route, findings[i..]))
               == AccountAll(re, entries, old(Now()), FindingViolations(rules, route, findings))
      {
        var f := findings[i];
        ghost var here := if f.rule in rules then NodeViolations(route, f.rule, f.nodes) else [];
        assert findings[i..][1..] == findings[i + 1..];
        AccountAllSplits(re, entries, Now(), here, FindingViolations(rules, route, findings[i + 1..]));
        if f.rule in rules {
          ScanFinding(route, f);
        }
      }
    }

    /** The loops over viewports, themes and routes. */
    method Sweep(cells: seq<Cell>)
      requires |counts| == |entries|
      modifies this
      ensures var r := AccountAll(re, entries, old(Now()), AllViolations(cells));
              Now() == r.(net := r.net + Errors(cells))
    {
      ghost var start := Now();
      ghost var clean, errors := start, 0;
      for i := 0 to |cells|
        invariant |counts| == |entries| == |clean.counts|
        invariant Now() == clean.(net := clean.net + errors)
        invariant errors + Errors(cells[i..]) == Errors(cells)
        invariant AccountAll(re, entries, clean, AllViolations(cells[i..])) == AccountAll(re, entries, start, AllViolations(cells))
      {
        assert cells[i..][1..] == cells[i + 1..];
        AccountAllSplits(re, entries, clean, CellViolations(cells[i]), AllViolations(cells[i + 1..]));
        match cells[i] {
          case ProbeError =>
            net := net + 1;
            errors := errors + 1;
          case Scanned(rules, route, findings) =>
            NetShift(re, entries, clean, errors, CellViolations(cells[i]));
            ScanCell(rules, route, findings);
            clean := AccountAll(re, entries, clean, CellViolations(cells[i]));
        }
      }
    }

    /** The verdict: the exit code is 0. */
    method Verdict(strictUnused: bool) returns (pass: bool)
      requires |counts| == |entries|
      ensures pass <==> net == 0 && (strictUnused ==> forall k :: 0 <= k < |entries| ==> counts[k] > 0)
    {
      var stale := 0;
      for i := 0 to |entries|
        invariant stale == 0 <==> forall k :: 0 <= k < i ==> counts[k] > 0
      {
        if counts[i] == 0 {
          stale := stale + 1;
        }
      }
      return net == 0 && !(stale > 0 && strictUnused);
    }
  }

  /** Probe errors, which go into net, do not touch the rest of the accounting. */
  lemma {:induction false} NetShift(re: Regex, entries: seq<Entry>, t: Tally, d: nat, vs: seq<Violation>)
    requires |t.counts| == |entries|
    ensures var r := AccountAll(re, entries, t, vs);
            AccountAll(re, entries, t.(net := t.net + d), vs) == r.(net := r.net + d)
    decreases |vs|
  {
    if vs != [] {
      NetShift(re, entries, Account(re, entries, t, vs[0]), d, vs[1..]);
    }
  }

  /** The run as a value: what Sweep leaves in a fresh gate. */
  function Outcome(re: Regex, entries: seq<Entry>, cells: seq<Cell>): Tally {
    var r := AccountAll(re, entries, Fresh(entries), AllViolations(cells));
    r.(net := r.net + Errors(cells))
  }

  /** A run that nothing above the allowlist spoils. */
  ghost predicate Clean(re: Regex, entries: seq<Entry>, cells: seq<Cell>) {
    var vs := AllViolations(cells);
    && Errors(cells) == 0
    && (forall i :: 0 <= i < |vs| ==> FirstMatch(re, entries, vs[i], 0) < |entries|)
    && (forall k :: 0 <= k < |entries| ==> !Overflows(entries[k], Hits(re, entries, vs, k)) || Hits(re, entries, vs, k) == 0)
  }

  /** No violation is above the allowlist exactly when no probe failed, each violation is matched
      by an entry, and no entry is the first match of more violations than its count_max. */
  lemma NetIsZeroIff(re: Regex, entries: seq<Entry>, cells: seq<Cell>)
    ensures Outcome(re, entries, cells).net == 0 <==> Clean(re, entries, cells)
  {
    var vs := AllViolations(cells);
    var r := AccountAll(re, entries, Fresh(entries), vs);
    TotalsAreSums(re, entries, vs);
    SumOfHits(re, entries, vs);
    AllowedSumIsFull(entries, r.counts, |entries|);
    assert r.net == |vs| - AllowedSum(entries, r.counts, |entries|);
    MatchedIff(re, entries, vs);
    SumsAgree(re, entries, vs, r.counts, |entries|);
  }

  /** The whole gate: it passes exactly when the run is clean and, if unused entries are not
      tolerated, every entry was the first match of some violation. */
  method RunGate(re: Regex, entries: seq<Entry>, cells: seq<Cell>, strictUnused: bool) returns (pass: bool)
    ensures pass <==>
              && Clean(re, entries, cells)
              && (strictUnused ==> forall k :: 0 <= k < |entries| ==> Used(re, entries, cells, k))
  {
    var gate := new Gate(re, entries);
    gate.Sweep(cells);
    pass := gate.Verdict(strictUnused);
    VerdictOf(re, entries, cells, gate.Now());
  }

  /** The condition Verdict tests, for the tally t that Sweep leaves in a fresh gate. */
  lemma VerdictOf(re: Regex, entries: seq<Entry>, cells: seq<Cell>, t: Tally)
    requires t == Outcome(re, entries, cells)
    ensures |t.counts| == |entries|
    ensures t.net == 0 <==> Clean(re, entries, cells)
    ensures forall k :: 0 <= k < |entries| ==> (t.counts[k] > 0 <==> Used(re, entries, cells, k))
  {
    NetIsZeroIff(re, entries, cells);
    TotalsAreSums(re, entries, AllViolations(cells));
  }

  /** Entry k was the first match of some violation. */
  predicate Used(re: Regex, entries: seq<Entry>, cells: seq<Cell>, k: nat) {
    Hits(re, entries, AllViolations(cells), k) > 0
  }

  /** The violations that some entry matches. */
  function Matched(re: Regex, entries: seq<Entry>, vs: seq<Violation>): nat {
    if vs == [] then 0
    else (if FirstMatch(re, entries, vs[0], 0) < |entries| then 1 else 0) + Matched(re, entries, vs[1..])
  }

  function HitsSum(re: Regex, entries: seq<Entry>, vs: seq<Violation>, k: nat): nat {
    if k == 0 then 0 else HitsSum(re, entries, vs, k - 1) + Hits(re, entries, vs, k - 1)
  }

  function Sum(counts: seq<nat>, k: nat): nat
    requires k <= |counts|
  {
    if k == 0 then 0 else Sum(counts, k - 1) + counts[k - 1]
  }

  lemma {:induction false} HitsSumStep(re: Regex, entries: seq<Entry>, vs: seq<Violation>, k: nat)
    requires vs != []
    ensures HitsSum(re, entries, vs, k) == HitsSum(re, entries, vs[1..], k) + (if FirstMatch(re, entries, vs[0], 0) < k then 1 else 0)
    decreases k
  {
    if k > 0 {
      HitsSumStep(re, entries, vs, k - 1);
    }
  }

  lemma {:induction false} NoHits(re: Regex, entries: seq<Entry>, k: nat)
    ensures HitsSum(re, entries, [], k) == 0
  {
    if k > 0 {
      NoHits(re, entries, k - 1);
    }
  }

  /** Each matched violation is a hit of exactly one entry. */
  lemma {:induction false} SumOfHits(re: Regex, entries: seq<Entry>, vs: seq<Violation>)
    ensures HitsSum(re, entries, vs, |entries|) == Matched(re, entries, vs)
  {
    if vs == [] {
      NoHits(re, entries, |entries|);
    } else {
      SumOfHits(re, entries, vs[1..]);
      HitsSumStep(re, entries, vs, |entries|);
    }
  }

  lemma {:induction false} SumsAgree(re: Regex, entries: seq<Entry>, vs: seq<Violation>, counts: seq<nat>, k: nat)
    requires k <= |counts| == |entries| && forall i :: 0 <= i < |entries| ==> counts[i] == Hits(re, entries, vs, i)
    ensures Sum(counts, k) == HitsSum(re, entries, vs, k)
  {
    if k > 0 {
      SumsAgree(re, entries, vs, counts, k - 1);
    }
  }

  lemma {:induction false} AllowedSumIsFull(entries: seq<Entry>, counts: seq<nat>, k: nat)
    requires k <= |entries| == |counts|
    ensures AllowedSum(entries, counts, k) <= Sum(counts, k)
    ensures AllowedSum(entries, counts, k) == Sum(counts, k) <==>
              forall i :: 0 <= i < k ==> !Overflows(entries[i], counts[i]) || counts[i] == 0
  {
    if k > 0 {
      AllowedSumIsFull(entries, counts, k - 1);
    }
  }

  lemma {:induction false} MatchedIff(re: Regex, entries: seq<Entry>, vs: seq<Violation>)
    ensures Matched(re, entries, vs) <= |vs|
    ensures Matched(re, entries, vs) == |vs| <==>
              forall i :: 0 <= i < |vs| ==> FirstMatch(re, entries, vs[i], 0) < |entries|
  {
    if vs != [] {
      MatchedIff(re, entries, vs[1..]);
      assert forall i :: 0 <= i < |vs| ==> vs[i] == if i == 0 then vs[0] else vs[1..][i - 1];
    }
  }
}
