/**
 Backup sessions on the shared daemon: what the copies of overlapping helpers record in every run of
 the processes, and what serialised sessions guarantee.
 */
module Sessions {
  import opened Prelude
  import opened Daemon
  import opened DockerCli
  import opened LazyDaemon
  import opened Programs

  // ------------------------------------------ a daemon whose stops take no time

  datatype Instant = Instant(up: bool, copied: seq<bool>, wal: seq<bool>, printed: seq<Print>)

  function InstantNext(d: Instant, a: EagerAction): Instant {
    match a
    case Pass => d
    case First(tag, c) =>
      if c.Copy? then d.(copied := d.copied + [d.up])
      else if c == Inspect(InspectRunning, false) then d.(printed := d.printed + [Print(tag, d.up)])
      else d
    case Second(_, c) =>
      if IsUp(a) then d.(up := true)
      else if IsDown(a) then d.(up := false)
      else if c.Copy? && c.pause then d.(wal := d.wal + [d.up])
      else d
    case Deadline(_, _) => d.(up := false)
  }

  function InstantRun(d: Instant, actions: seq<EagerAction>): Instant
    decreases |actions|
  {
    if actions == [] then d else InstantRun(InstantNext(d, actions[0]), actions[1..])
  }

  lemma {:induction false} InstantRunSplits(d: Instant, a: seq<EagerAction>, b: seq<EagerAction>)
    ensures InstantRun(d, a + b) == InstantRun(InstantRun(d, a), b)
    decreases |a|
  {
    if a == [] {
      assert a + b == b;
    } else {
      assert (a + b)[1..] == a[1..] + b;
      InstantRunSplits(InstantNext(d, a[0]), a[1..], b);
    }
  }

  // ----------------------------- no process can tell it from the eager daemon

  /** While q sleeps until the deadline it has saved, the stop has already happened for d. */
  ghost predicate Dozes(q: Proc, e: Eager, d: Instant) {
    && !d.up
    && (e.f.stopAt.Some? ==> q.local.stopAt == e.f.stopAt)
    && (e.f.stopAt.None? ==> !e.f.running)
  }

  predicate SameRecords(e: Eager, d: Instant) {
    e.f.copiedWhileRunning == d.copied && e.f.walCopyRunning == d.wal && e.printed == d.printed
  }

  predicate Steady(e: Eager, d: Instant) {
    e.f.stopAt.None? && e.f.running == d.up
  }

  /** The records agree, and apart from a sleeping stop so does the container. */
  ghost predicate Agrees(s: Sys, e: Eager, d: Instant) {
    && SameRecords(e, d)
    && (forall p :: 0 <= p < |s.procs| && s.procs[p].pc.Sleeping? ==> Dozes(s.procs[p], e, d))
    && ((forall p :: 0 <= p < |s.procs| ==> !s.procs[p].pc.Sleeping?) ==> Steady(e, d))
  }

  lemma TickAgrees(s: Sys, e: Eager, d: Instant)
    requires Agrees(s, e, d)
    ensures Agrees(Next(s, Tick), EagerNext(e, Pass), d)
  {
  }

  /** What one visible action does to the two daemons while nobody sleeps. */
  lemma ActionAgrees(e: Eager, d: Instant, a: EagerAction)
    requires SameRecords(e, d) && Steady(e, d) && (a.First? || a.Second?)
    ensures SameRecords(EagerNext(e, a), InstantNext(d, a)) && Steady(EagerNext(e, a), InstantNext(d, a))
  {
  }

  lemma NobodyElseSleeps(s: Sys, p: nat)
    requires Exclusive(s) && p < |s.procs| && Holds(s.procs[p])
    ensures forall q :: 0 <= q < |s.procs| && q != p ==> !s.procs[q].pc.Sleeping?
  {
  }

  /** What d becomes when process p takes its step. */
  lemma VisibleInstant(s: Sys, p: nat, d: Instant)
    requires p < |s.procs| && s.procs[p].calls != []
    ensures var c := s.procs[p].calls[0].c;
            InstantRun(d, Visible(s, Act(p))) == match s.procs[p].pc
              case Locked(false) => if Waits(c) then InstantNext(d, First(p, c)) else InstantNext(InstantNext(d, First(p, c)), Second(p, c))
              case Locked(true) => InstantNext(d, Second(p, c))
              case Dirty(false) => if IsSlow(c) then InstantNext(d, Deadline(p, c.delay)) else d
              case _ => d
  {
    var c := s.procs[p].calls[0].c;
    InstantTwo(d, First(p, c), Second(p, c));
    InstantOne(d, First(p, c));
    InstantOne(d, Second(p, c));
    if IsSlow(c) { InstantOne(d, Deadline(p, c.delay)); }
  }

  lemma InstantOne(d: Instant, a: EagerAction)
    ensures InstantRun(d, [a]) == InstantNext(d, a)
  {
    assert InstantRun(d, [a]) == InstantRun(InstantNext(d, a), []);
  }

  lemma InstantTwo(d: Instant, a: EagerAction, b: EagerAction)
    ensures InstantRun(d, [a, b]) == InstantNext(InstantNext(d, a), b)
  {
    assert [a, b] == [a] + [b];
    InstantRunSplits(d, [a], [b]);
    InstantOne(d, a);
    InstantOne(InstantNext(d, a), b);
  }

  lemma LockedAgrees(s: Sys, p: nat, e: Eager, d: Instant)
    requires Inv(s) && Agrees(s, e, d) && p < |s.procs| && s.procs[p].calls != [] && s.procs[p].pc.Locked?
    ensures Agrees(Step(s, p), EagerRun(e, Visible(s, Act(p))), InstantRun(d, Visible(s, Act(p))))
  {
    var c := s.procs[p].calls[0].c;
    NobodyElseSleeps(s, p);
    StepFrame(s, p);
    VisibleRun(s, p, e);
    VisibleInstant(s, p, d);
    assert !Step(s, p).procs[p].pc.Sleeping?;
    ActionAgrees(e, d, First(p, c));
    ActionAgrees(e, d, Second(p, c));
    ActionAgrees(EagerNext(e, First(p, c)), InstantNext(d, First(p, c)), Second(p, c));
  }

  /** Saving, where a slow stop sets its deadline and goes to sleep. */
  lemma SaveAgrees(s: Sys, p: nat, e: Eager, d: Instant)
    requires Inv(s) && Matches(s, e) && Agrees(s, e, d) && p < |s.procs| && s.procs[p].calls != [] && s.procs[p].pc.Dirty?
    ensures Agrees(Step(s, p), EagerRun(e, Visible(s, Act(p))), InstantRun(d, Visible(s, Act(p))))
  {
    NobodyElseSleeps(s, p);
    StepFrame(s, p);
    VisibleRun(s, p, e);
    VisibleInstant(s, p, d);
    var q, r := s.procs[p], Step(s, p).procs[p];
    assert Settle(q.local, s.now) == e.f && Steady(e, d);
    assert r.pc.Sleeping? <==> q.pc == Dirty(false) && IsSlow(q.calls[0].c);
    if r.pc.Sleeping? {
      assert r.local == Arm(q.local, s.now, q.calls[0].c.delay);
    }
  }

  /** The sleeper wakes after its deadline; by then the eager container is down too. */
  lemma WakeAgrees(s: Sys, p: nat, e: Eager, d: Instant)
    requires Inv(s) && Matches(s, e) && Agrees(s, e, d) && p < |s.procs| && s.procs[p].calls != [] && s.procs[p].pc.Sleeping?
    ensures Agrees(Step(s, p), EagerRun(e, Visible(s, Act(p))), InstantRun(d, Visible(s, Act(p))))
  {
    NobodyElseSleeps(s, p);
    StepFrame(s, p);
    VisibleRun(s, p, e);
    VisibleInstant(s, p, d);
    assert Dozes(s.procs[p], e, d);
  }

  lemma QuietAgrees(s: Sys, p: nat, e: Eager, d: Instant)
    requires Agrees(s, e, d) && p < |s.procs| && s.procs[p].calls != []
    requires !s.procs[p].pc.Locked? && !s.procs[p].pc.Dirty? && !s.procs[p].pc.Sleeping?
    ensures Agrees(Step(s, p), EagerRun(e, Visible(s, Act(p))), InstantRun(d, Visible(s, Act(p))))
  {
    StepFrame(s, p);
    VisibleRun(s, p, e);
    VisibleInstant(s, p, d);
    assert !Step(s, p).procs[p].pc.Sleeping?;
    assert forall q :: 0 <= q < |s.procs| ==> Step(s, p).procs[q].pc.Sleeping? == s.procs[q].pc.Sleeping?;
  }

  lemma NextAgrees(s: Sys, a: Action, e: Eager, d: Instant)
    requires Inv(s) && Matches(s, e) && Agrees(s, e, d)
    ensures Agrees(Next(s, a), EagerRun(e, Visible(s, a)), InstantRun(d, Visible(s, a)))
  {
    match a
    case Tick =>
      TickAgrees(s, e, d);
      RunOne(e, Pass);
      InstantOne(d, Pass);
    case Act(p) =>
      if p < |s.procs| && s.procs[p].calls != [] {
        if s.procs[p].pc.Locked? {
          LockedAgrees(s, p, e, d);
        } else if s.procs[p].pc.Dirty? {
          SaveAgrees(s, p, e, d);
        } else if s.procs[p].pc.Sleeping? {
          WakeAgrees(s, p, e, d);
        } else {
          QuietAgrees(s, p, e, d);
        }
      }
  }

  lemma {:induction false} RunAgrees(s: Sys, actions: seq<Action>, e: Eager, d: Instant)
    requires Inv(s) && Matches(s, e) && Agrees(s, e, d)
    ensures Agrees(Run(s, actions), EagerRun(e, Trace(s, actions)), InstantRun(d, Trace(s, actions)))
    decreases |actions|
  {
    if actions != [] {
      var a, s1 := actions[0], Next(s, actions[0]);
      NextKeepsInv(s, a);
      NextMatches(s, a, e);
      NextAgrees(s, a, e, d);
      RunAgrees(s1, actions[1..], EagerRun(e, Visible(s, a)), InstantRun(d, Visible(s, a)));
      EagerRunSplits(e, Visible(s, a), Trace(s1, actions[1..]));
      InstantRunSplits(d, Visible(s, a), Trace(s1, actions[1..]));
    }
  }

  /** No call is under way and no stop is pending. */
  ghost predicate Calm(s: Sys) {
    Inv(s) && Settle(s.file, s.now).stopAt.None? && forall p :: 0 <= p < |s.procs| ==> s.procs[p].pc.Idle?
  }

  /** What a calm system shows. */
  function Shown(s: Sys): Instant {
    Instant(Settle(s.file, s.now).running, s.file.copiedWhileRunning, s.file.walCopyRunning, s.printed)
  }

  /** In every run from a calm system, whatever the calls, their faults and delays, the copies and the
      inspections record what a daemon without delays would show them: the effect of the last effective
      start or stop. When no call holds the mutex, so does the file. */
  lemma DelaysDoNotShow(s: Sys, actions: seq<Action>)
    requires Calm(s)
    ensures var r, d := Run(s, actions), InstantRun(Shown(s), Trace(s, actions));
            && r.printed == d.printed
            && ((forall p :: 0 <= p < |r.procs| ==> !r.procs[p].pc.Dirty?) ==>
                  r.file.copiedWhileRunning == d.copied && r.file.walCopyRunning == d.wal)
            && ((forall p :: 0 <= p < |r.procs| ==> !Holds(r.procs[p])) ==>
                  Settle(r.file, r.now).stopAt.None? && Shown(r) == d)
  {
    var e := Eager(s.now, Settle(s.file, s.now), s.printed);
    LazyRefinesEager(s, actions, e);
    RunAgrees(s, actions, e, Shown(s));
  }

  // ------------------------------------------------------------- sessions

  /** A backup without injected faults, by a client that saw the container running or not: whether
      its stop waits for a marker and how long it takes, whether its copy pauses before the WALs, and
      whether its start is slow. */
  datatype Session = Session(seen: bool, waits: bool, delay: nat, pause: bool, slow: bool)

  const INSPECT := Inspect(InspectRunning, false)

  function StopOf(x: Session): Command { Stop(x.waits, false, x.delay, false) }

  function CopyOf(x: Session): Command { Copy(x.pause, false) }

  function StartOf(x: Session): Command { Start(false, false, x.slow) }

  /** Inspect; stop if it was running; copy; start if it was running. */
  function Script(x: Session): seq<Call> {
    if x.seen then [Call(INSPECT, Never), Call(StopOf(x), Never), Call(CopyOf(x), Never), Call(StartOf(x), Never)]
    else [Call(INSPECT, Never), Call(CopyOf(x), Never)]
  }

  /** The actions of a session up to its copy, the last of which makes sure that the container is down. */
  function StopActs(x: Session, p: nat): seq<EagerAction> {
    if !x.seen then [] else [First(p, StopOf(x)), Second(p, StopOf(x))] + SlowActs(StopOf(x), p)
  }

  function ScriptActs(x: Session, p: nat): seq<EagerAction> {
    [First(p, INSPECT), Second(p, INSPECT)] + (StopActs(x, p) + ([First(p, CopyOf(x)), Second(p, CopyOf(x))]
    + (if x.seen then [First(p, StartOf(x)), Second(p, StartOf(x))] else [])))
  }

  lemma ProgramOfCall(k: Call, rest: seq<Call>, p: nat)
    requires k.givesUp.Never?
    ensures ProgramActs([k] + rest, p) == ([First(p, k.c), Second(p, k.c)] + SlowActs(k.c, p)) + ProgramActs(rest, p)
  {
    assert ([k] + rest)[1..] == rest;
    assert [First(p, k.c)] + ([Second(p, k.c)] + SlowActs(k.c, p)) == [First(p, k.c), Second(p, k.c)] + SlowActs(k.c, p);
  }

  lemma ScriptIsProgram(x: Session, p: nat)
    ensures ProgramActs(Script(x), p) == ScriptActs(x, p)
  {
    var i, t, c, u := Call(INSPECT, Never), Call(StopOf(x), Never), Call(CopyOf(x), Never), Call(StartOf(x), Never);
    var end := if x.seen then [u] else [];
    if x.seen {
      assert Script(x) == [i] + ([t] + ([c] + [u]));
      ProgramOfCall(t, [c] + [u], p);
      ProgramOfCall(u, [], p);
      assert [u] + [] == [u];
    } else {
      assert Script(x) == [i] + ([c] + []);
    }
    ProgramOfCall(i, if x.seen then [t] + ([c] + [u]) else [c] + [], p);
    ProgramOfCall(c, end, p);
  }

  /** The log of a session. */
  lemma SessionLog(x: Session)
    ensures Program(Script(x)) == if x.seen then [InspectRunning, Stopping, Copying, CopyDone, Starting, StartDone]
                                  else [InspectRunning, Copying, CopyDone]
  {
    var i, t, c, u := Call(INSPECT, Never), Call(StopOf(x), Never), Call(CopyOf(x), Never), Call(StartOf(x), Never);
    LogOfCall(c, if x.seen then [u] else []);
    assert Program([]) == [];
    if x.seen {
      LogOfCall(u, []);
      assert Program([u]) == [Starting, StartDone] by { assert [u] + [] == [u]; }
      assert Program([c, u]) == [Copying, CopyDone, Starting, StartDone] by { assert [c] + [u] == [c, u]; }
      LogOfCall(t, [c, u]);
      assert Program([t, c, u]) == [Stopping, Copying, CopyDone, Starting, StartDone] by { assert [t] + [c, u] == [t, c, u]; }
      LogOfCall(i, [t, c, u]);
      assert [i] + [t, c, u] == Script(x);
    } else {
      assert Program([c]) == [Copying, CopyDone] by { assert [c] + [] == [c]; }
      LogOfCall(i, [c]);
      assert [i] + [c] == Script(x);
    }
  }

  lemma LogOfCall(k: Call, rest: seq<Call>)
    requires k.givesUp.Never?
    ensures Program([k] + rest) == ([FirstKind(k.c)] + SecondKinds(k.c)) + Program(rest)
  {
    assert ([k] + rest)[1..] == rest;
  }

  // ------------------------------------------------------- calls without effect

  /** Calls that neither change nor show whether the container runs. */
  predicate Harmless(c: Command) {
    c.Plain? || (c.Inspect? && c != INSPECT)
  }

  /** The calls that matter. */
  function Needed(calls: seq<Call>): seq<Call> {
    if calls == [] then [] else (if Harmless(calls[0].c) then [] else [calls[0]]) + Needed(calls[1..])
  }

  predicate Matters(a: EagerAction) {
    match a
    case Pass => false
    case First(_, c) => !Harmless(c)
    case Second(_, c) => !Harmless(c)
    case Deadline(_, _) => true
  }

  /** The actions that matter. */
  function Effects(tr: seq<EagerAction>): seq<EagerAction> {
    if tr == [] then [] else (if Matters(tr[0]) then [tr[0]] else []) + Effects(tr[1..])
  }

  lemma {:induction false} EffectsSplit(a: seq<EagerAction>, b: seq<EagerAction>)
    ensures Effects(a + b) == Effects(a) + Effects(b)
    decreases |a|
  {
    if a == [] {
      assert a + b == b;
    } else {
      assert (a + b)[1..] == a[1..] + b;
      EffectsSplit(a[1..], b);
      Regroup(if Matters(a[0]) then [a[0]] else [], Effects(a[1..]), Effects(b));
    }
  }

  /** The other actions leave no record. */
  lemma {:induction false} OnlyEffectsShow(d: Instant, tr: seq<EagerAction>)
    ensures InstantRun(d, tr) == InstantRun(d, Effects(tr))
    decreases |tr|
  {
    if tr != [] {
      OnlyEffectsShow(InstantNext(d, tr[0]), tr[1..]);
      if Matters(tr[0]) {
        assert Effects(tr)[1..] == Effects(tr[1..]);
      } else {
        assert Effects(tr) == Effects(tr[1..]);
      }
    }
  }

  lemma {:induction false} ProgramSplits(a: seq<Call>, b: seq<Call>, p: nat)
    ensures ProgramActs(a + b, p) == ProgramActs(a, p) + ProgramActs(b, p)
    decreases |a|
  {
    if a == [] {
      assert a + b == b;
    } else {
      assert (a + b)[1..] == a[1..] + b;
      ProgramSplits(a[1..], b, p);
      Regroup(CallActs(a[0], p), ProgramActs(a[1..], p), ProgramActs(b, p));
    }
  }

  function CallActs(k: Call, p: nat): seq<EagerAction> {
    if k.givesUp.AtLock? then [] else [First(p, k.c)] + LaterActs(k, p)
  }

  lemma EffectsOfCall(k: Call, p: nat)
    ensures Effects(CallActs(k, p)) == if Harmless(k.c) then [] else CallActs(k, p)
  {
    var first, second, slow := [First(p, k.c)], [Second(p, k.c)], SlowActs(k.c, p);
    EffectsSplit(first, LaterActs(k, p));
    EffectsSplit(second, slow);
    assert Effects(first) == (if Harmless(k.c) then [] else first) + Effects([]);
    assert Effects(second) == (if Harmless(k.c) then [] else second) + Effects([]);
    assert Effects(slow) == slow;
  }

  lemma {:induction false} EffectsOfProgram(calls: seq<Call>, p: nat)
    ensures Effects(ProgramActs(calls, p)) == ProgramActs(Needed(calls), p)
  {
    if calls != [] {
      EffectsOfProgram(calls[1..], p);
      EffectsOfCall(calls[0], p);
      EffectsSplit(CallActs(calls[0], p), ProgramActs(calls[1..], p));
      if Harmless(calls[0].c) {
        assert Needed(calls) == Needed(calls[1..]);
      } else {
        assert Needed(calls)[1..] == Needed(calls[1..]);
      }
    }
  }

  // ------------------------------------- what a copy records, for every interleaving

  /** An effective start after position i, by a helper other than p, that no effective stop undoes
      before position j. */
  ghost predicate RestartedByAnother(tr: seq<EagerAction>, i: nat, j: nat, p: nat)
    requires j <= |tr|
  {
    exists k :: i < k < j && IsUp(tr[k]) && Tag(tr[k]) != Some(p) && forall m :: k < m < j ==> !IsDown(tr[m])
  }

  ghost predicate Restarted(tr: seq<EagerAction>, i: nat, j: nat)
    requires j <= |tr|
  {
    exists k :: i < k < j && IsUp(tr[k]) && forall m :: k < m < j ==> !IsDown(tr[m])
  }

  lemma OneMore(d: Instant, tr: seq<EagerAction>, j: nat)
    requires j < |tr|
    ensures InstantRun(d, tr[..j + 1]) == InstantNext(InstantRun(d, tr[..j]), tr[j])
  {
    assert tr[..j + 1] == tr[..j] + [tr[j]];
    InstantRunSplits(d, tr[..j], [tr[j]]);
    InstantOne(InstantRun(d, tr[..j]), tr[j]);
  }

  /** Once down, the container is up exactly if it was restarted since. */
  lemma {:induction false} UpSince(d: Instant, tr: seq<EagerAction>, i: nat, j: nat)
    requires i < j <= |tr| && !InstantRun(d, tr[..i + 1]).up
    ensures InstantRun(d, tr[..j]).up <==> Restarted(tr, i, j)
    decreases j
  {
    if j > i + 1 {
      UpSince(d, tr, i, j - 1);
      OneMore(d, tr, j - 1);
      RestartedStep(tr, i, j - 1);
    }
  }

  lemma RestartedStep(tr: seq<EagerAction>, i: nat, j: nat)
    requires i < j < |tr|
    ensures Restarted(tr, i, j + 1) <==> IsUp(tr[j]) || (Restarted(tr, i, j) && !IsDown(tr[j]))
  {
    if Restarted(tr, i, j + 1) && !IsUp(tr[j]) {
      var k :| i < k < j + 1 && IsUp(tr[k]) && forall m :: k < m < j + 1 ==> !IsDown(tr[m]);
      assert k < j;
    }
    if Restarted(tr, i, j) && !IsDown(tr[j]) {
      var k :| i < k < j && IsUp(tr[k]) && forall m :: k < m < j ==> !IsDown(tr[m]);
      assert forall m :: k < m < j + 1 ==> !IsDown(tr[m]);
    }
  }

  /** What helper t has done that matters. */
  function EffectsOf(tr: seq<EagerAction>, t: nat): seq<EagerAction> {
    Effects(OwnActs(tr, t))
  }

  /** Position j has the n-th action of helper t that matters. */
  predicate IsNth(tr: seq<EagerAction>, t: nat, n: nat, j: nat) {
    j < |tr| && Tag(tr[j]) == Some(t) && Matters(tr[j]) && |EffectsOf(tr[..j], t)| == n
  }

  lemma EffectsOfSplit(a: seq<EagerAction>, b: seq<EagerAction>, t: nat)
    ensures EffectsOf(a + b, t) == EffectsOf(a, t) + EffectsOf(b, t)
  {
    OwnActsSplit(a, b, t);
    EffectsSplit(OwnActs(a, t), OwnActs(b, t));
  }

  lemma EffectsOfOne(tr: seq<EagerAction>, t: nat, j: nat)
    requires j < |tr|
    ensures EffectsOf(tr[..j + 1], t) == EffectsOf(tr[..j], t) + (if Tag(tr[j]) == Some(t) && Matters(tr[j]) then [tr[j]] else [])
  {
    assert tr[..j + 1] == tr[..j] + [tr[j]];
    EffectsOfSplit(tr[..j], [tr[j]], t);
    assert OwnActs([tr[j]], t) == (if Tag(tr[j]) == Some(t) then [tr[j]] else []) + OwnActs([], t);
    assert Effects([tr[j]]) == (if Matters(tr[j]) then [tr[j]] else []) + Effects([]);
  }

  lemma EffectsOfPrefix(tr: seq<EagerAction>, t: nat, i: nat, j: nat)
    requires i <= j <= |tr|
    ensures EffectsOf(tr[..i], t) <= EffectsOf(tr[..j], t)
  {
    assert tr[..j] == tr[..i] + tr[i..j];
    EffectsOfSplit(tr[..i], tr[i..j], t);
  }

  /** It is the n-th of its program. */
  lemma NthIs(tr: seq<EagerAction>, t: nat, n: nat, j: nat)
    requires IsNth(tr, t, n, j)
    ensures n < |EffectsOf(tr, t)| && EffectsOf(tr, t)[n] == tr[j] && |EffectsOf(tr[..j + 1], t)| == n + 1
  {
    EffectsOfOne(tr, t, j);
    EffectsOfPrefix(tr, t, j + 1, |tr|);
    assert tr[..|tr|] == tr;
  }

  lemma {:induction false} NthPlace(tr: seq<EagerAction>, t: nat, n: nat, j: nat) returns (i: nat)
    requires j <= |tr| && n < |EffectsOf(tr[..j], t)|
    ensures i < j && IsNth(tr, t, n, i)
    decreases j
  {
    assert j > 0;
    EffectsOfOne(tr, t, j - 1);
    if n < |EffectsOf(tr[..j - 1], t)| {
      i := NthPlace(tr, t, n, j - 1);
    } else {
      i := j - 1;
    }
  }

  /** The c-th action of a program comes after the b-th, and p starts nothing between them if nothing
      between them in its program does. */
  lemma NthOrder(tr: seq<EagerAction>, p: nat, acts: seq<EagerAction>, b: nat, c: nat, j: nat) returns (i: nat)
    requires EffectsOf(tr, p) <= acts && b < c < |acts| && IsNth(tr, p, c, j)
    requires forall n :: b < n < c ==> !IsUp(acts[n])
    ensures i < j && IsNth(tr, p, b, i) && tr[i] == acts[b] && tr[j] == acts[c]
    ensures forall k :: i < k < j && IsUp(tr[k]) ==> Tag(tr[k]) != Some(p)
  {
    NthIs(tr, p, c, j);
    i := NthPlace(tr, p, b, j);
    NthIs(tr, p, b, i);
    forall k | i < k < j && IsUp(tr[k]) ensures Tag(tr[k]) != Some(p) {
      if Tag(tr[k]) == Some(p) {
        var n := |EffectsOf(tr[..k], p)|;
        assert IsNth(tr, p, n, k);
        NthIs(tr, p, n, k);
        EffectsOfPrefix(tr, p, i + 1, k);
        EffectsOfPrefix(tr, p, k + 1, j);
      }
    }
  }

  /** The same for a part of the program. */
  lemma NthOrderIn(tr: seq<EagerAction>, p: nat, pre: seq<EagerAction>, acts: seq<EagerAction>, post: seq<EagerAction>, b: nat, c: nat, j: nat)
    returns (i: nat)
    requires EffectsOf(tr, p) <= pre + (acts + post) && b < c < |acts| && IsNth(tr, p, |pre| + c, j)
    requires forall n :: b < n < c ==> !IsUp(acts[n])
    ensures i < j && IsNth(tr, p, |pre| + b, i) && tr[i] == acts[b] && tr[j] == acts[c]
    ensures forall k :: i < k < j && IsUp(tr[k]) ==> Tag(tr[k]) != Some(p)
  {
    var all := pre + (acts + post);
    forall m | |pre| <= m < |pre| + |acts| ensures all[m] == acts[m - |pre|] {
    }
    i := NthOrder(tr, p, all, |pre| + b, |pre| + c, j);
  }

  /** The action of a session after which the container is known to be down: its stop, or the
      inspection that showed it down. */
  function DownAt(x: Session): nat {
    if x.seen then 1 + |StopActs(x, 0)| else 0
  }

  function CopyAt(x: Session): nat {
    2 + |StopActs(x, 0)|
  }

  lemma ScriptPlaces(x: Session, p: nat)
    ensures var acts := ScriptActs(x, p);
            && DownAt(x) < CopyAt(x) < |acts| - 1 && acts[CopyAt(x)] == First(p, CopyOf(x)) && acts[CopyAt(x) + 1] == Second(p, CopyOf(x))
            && (if x.seen then IsDown(acts[DownAt(x)]) else acts[DownAt(x)] == First(p, INSPECT))
            && (forall i :: 0 <= i <= CopyAt(x) + 1 ==> !IsUp(acts[i]))
  {
  }

  /** A session among the calls of a helper, any calls before and after it; calls without effect are
      not counted and may be anywhere. */
  datatype Plan = Plan(before: seq<Call>, x: Session, after: seq<Call>)

  /** Where the actions of the session begin among those of the helper. */
  function Base(w: Plan, p: nat): nat {
    |ProgramActs(w.before, p)|
  }

  /** The session is about what its inspection showed: of the entries printed, the one that the
      inspection added. */
  ghost predicate Saw(s: Sys, actions: seq<Action>, p: nat, w: Plan) {
    var tr, printed := Trace(s, actions), Run(s, actions).printed;
    forall i: nat :: IsNth(tr, p, Base(w, p), i) ==>
      var n := |InstantRun(Shown(s), tr[..i]).printed|;
      n < |printed| ==> printed[n].running == w.x.seen
  }

  /** Helper p of the run has this plan. */
  ghost predicate Follows(s: Sys, actions: seq<Action>, p: nat, w: Plan) {
    && Calm(s) && p < |s.procs| && Needed(s.procs[p].calls) == w.before + (Script(w.x) + w.after)
    && Saw(s, actions, p, w)
  }

  lemma {:induction false} RecordsGrow(d: Instant, tr: seq<EagerAction>)
    ensures var r := InstantRun(d, tr);
            d.copied <= r.copied && d.wal <= r.wal && d.printed <= r.printed
    decreases |tr|
  {
    if tr != [] { RecordsGrow(InstantNext(d, tr[0]), tr[1..]); }
  }

  lemma RecordsUpTo(d: Instant, tr: seq<EagerAction>, j: nat)
    requires j <= |tr|
    ensures var m, r := InstantRun(d, tr[..j]), InstantRun(d, tr);
            m.copied <= r.copied && m.wal <= r.wal && d.printed <= m.printed <= r.printed
  {
    assert tr == tr[..j] + tr[j..];
    InstantRunSplits(d, tr[..j], tr[j..]);
    RecordsGrow(InstantRun(d, tr[..j]), tr[j..]);
    RecordsGrow(d, tr[..j]);
  }

  /** What helper p has done that matters is the beginning of its program, with the session at its
      place. */
  lemma ProgramOfPlan(s: Sys, actions: seq<Action>, p: nat, w: Plan)
    requires Follows(s, actions, p, w)
    ensures EffectsOf(Trace(s, actions), p)
         <= ProgramActs(w.before, p) + (ScriptActs(w.x, p) + ProgramActs(w.after, p))
  {
    ProgramIsKept(s, actions, p);
    var tr, left := Trace(s, actions), ToDo(Run(s, actions).procs[p], p);
    EffectsSplit(OwnActs(tr, p), left);
    EffectsOfProgram(s.procs[p].calls, p);
    ProgramSplits(w.before, Script(w.x) + w.after, p);
    ProgramSplits(Script(w.x), w.after, p);
    ScriptIsProgram(w.x, p);
  }

  /** The position i of the action after which p knows the container to be down; from there on p does
      not start it before its copy is over, that is, before the action at c of the session. */
  lemma DownBefore(s: Sys, actions: seq<Action>, p: nat, w: Plan, c: nat, j: nat) returns (i: nat)
    requires Follows(s, actions, p, w) && (c == CopyAt(w.x) || c == CopyAt(w.x) + 1)
    requires IsNth(Trace(s, actions), p, Base(w, p) + c, j)
    ensures var tr := Trace(s, actions);
            && i < j && IsNth(tr, p, Base(w, p) + DownAt(w.x), i)
            && c < |ScriptActs(w.x, p)| && tr[j] == ScriptActs(w.x, p)[c]
            && !InstantRun(Shown(s), tr[..i + 1]).up
            && forall k :: i < k < j && IsUp(tr[k]) ==> Tag(tr[k]) != Some(p)
  {
    ProgramOfPlan(s, actions, p, w);
    ScriptPlaces(w.x, p);
    i := NthOrderIn(Trace(s, actions), p, ProgramActs(w.before, p), ScriptActs(w.x, p), ProgramActs(w.after, p), DownAt(w.x), c, j);
    DownAfter(s, actions, p, w, i);
  }

  lemma DownAfter(s: Sys, actions: seq<Action>, p: nat, w: Plan, i: nat)
    requires Follows(s, actions, p, w) && IsNth(Trace(s, actions), p, Base(w, p) + DownAt(w.x), i)
    requires DownAt(w.x) < |ScriptActs(w.x, p)| && Trace(s, actions)[i] == ScriptActs(w.x, p)[DownAt(w.x)]
    ensures !InstantRun(Shown(s), Trace(s, actions)[..i + 1]).up
  {
    ScriptPlaces(w.x, p);
    OneMore(Shown(s), Trace(s, actions), i);
    if !w.x.seen { SawDown(s, actions, p, w, i); }
  }

  lemma SawDown(s: Sys, actions: seq<Action>, p: nat, w: Plan, i: nat)
    requires Follows(s, actions, p, w) && !w.x.seen && IsNth(Trace(s, actions), p, Base(w, p), i)
    requires Trace(s, actions)[i] == First(p, INSPECT)
    ensures !InstantRun(Shown(s), Trace(s, actions)[..i + 1]).up
  {
    var tr, d := Trace(s, actions), Shown(s);
    var m := InstantRun(d, tr[..i]);
    OneMore(d, tr, i);
    RecordsUpTo(d, tr, i + 1);
    DelaysDoNotShow(s, actions);
    assert Run(s, actions).printed[|m.printed|] == Print(p, m.up);
  }

  /** In every run, whatever the other processes do and wherever time passes, and for every session of
      every helper: its copy records a running container if and only if, since the session's own stop
      (or since it saw the container down), another helper has started it and no stop has followed. */
  lemma CopyRecordsIff(s: Sys, actions: seq<Action>, p: nat, w: Plan, j: nat) returns (i: nat)
    requires Follows(s, actions, p, w) && IsNth(Trace(s, actions), p, Base(w, p) + CopyAt(w.x), j)
    requires forall q :: 0 <= q < |Run(s, actions).procs| ==> !Run(s, actions).procs[q].pc.Dirty?
    ensures var tr, copied := Trace(s, actions), Run(s, actions).file.copiedWhileRunning;
            var n := |InstantRun(Shown(s), tr[..j]).copied|;
            && tr[j] == First(p, CopyOf(w.x))
            && i < j && IsNth(tr, p, Base(w, p) + DownAt(w.x), i)
            && n < |copied| && (copied[n] <==> RestartedByAnother(tr, i, j, p))
  {
    var tr, d := Trace(s, actions), Shown(s);
    ScriptPlaces(w.x, p);
    i := DownBefore(s, actions, p, w, CopyAt(w.x), j);
    UpSince(d, tr, i, j);
    CopyEntry(s, actions, j, p, w.x);
  }

  /** The same for the WALs, which a pausing copy copies after its pause. */
  lemma WalRecordsIff(s: Sys, actions: seq<Action>, p: nat, w: Plan, j: nat) returns (i: nat)
    requires Follows(s, actions, p, w) && w.x.pause && IsNth(Trace(s, actions), p, Base(w, p) + CopyAt(w.x) + 1, j)
    requires forall q :: 0 <= q < |Run(s, actions).procs| ==> !Run(s, actions).procs[q].pc.Dirty?
    ensures var tr, wal := Trace(s, actions), Run(s, actions).file.walCopyRunning;
            var n := |InstantRun(Shown(s), tr[..j]).wal|;
            && tr[j] == Second(p, CopyOf(w.x))
            && i < j && IsNth(tr, p, Base(w, p) + DownAt(w.x), i)
            && n < |wal| && (wal[n] <==> RestartedByAnother(tr, i, j, p))
  {
    var tr, d := Trace(s, actions), Shown(s);
    ScriptPlaces(w.x, p);
    i := DownBefore(s, actions, p, w, CopyAt(w.x) + 1, j);
    UpSince(d, tr, i, j);
    WalEntry(s, actions, j, p, w.x);
  }

  /** So an unserialised helper copies its WALs from a running container as soon as another helper
      starts it during the pause, from h to j, and nobody stops it again. */
  lemma OverlapIsUnsafe(s: Sys, actions: seq<Action>, p: nat, w: Plan, h: nat, k: nat, j: nat)
    requires Follows(s, actions, p, w) && w.x.pause && h < k < j
    requires IsNth(Trace(s, actions), p, Base(w, p) + CopyAt(w.x), h)
    requires IsNth(Trace(s, actions), p, Base(w, p) + CopyAt(w.x) + 1, j)
    requires IsUp(Trace(s, actions)[k]) && forall m :: k < m < j ==> !IsDown(Trace(s, actions)[m])
    requires forall q :: 0 <= q < |Run(s, actions).procs| ==> !Run(s, actions).procs[q].pc.Dirty?
    ensures var n := |InstantRun(Shown(s), Trace(s, actions)[..j]).wal|;
            n < |Run(s, actions).file.walCopyRunning| && Run(s, actions).file.walCopyRunning[n]
  {
    var tr, d := Trace(s, actions), Shown(s);
    ScriptPlaces(w.x, p);
    var _ := DownBefore(s, actions, p, w, CopyAt(w.x) + 1, j);
    var i := DownBefore(s, actions, p, w, CopyAt(w.x), h);
    UpSince(d, tr, i, j);
    assert Restarted(tr, i, j);
    WalEntry(s, actions, j, p, w.x);
  }

  /** Where the file has what the copy at position j records. */
  lemma WalEntry(s: Sys, actions: seq<Action>, j: nat, p: nat, x: Session)
    requires Calm(s) && x.pause && j < |Trace(s, actions)| && Trace(s, actions)[j] == Second(p, CopyOf(x))
    requires forall q :: 0 <= q < |Run(s, actions).procs| ==> !Run(s, actions).procs[q].pc.Dirty?
    ensures var m, wal := InstantRun(Shown(s), Trace(s, actions)[..j]), Run(s, actions).file.walCopyRunning;
            |m.wal| < |wal| && wal[|m.wal|] == m.up
  {
    OneMore(Shown(s), Trace(s, actions), j);
    RecordsUpTo(Shown(s), Trace(s, actions), j + 1);
    DelaysDoNotShow(s, actions);
  }

  lemma CopyEntry(s: Sys, actions: seq<Action>, j: nat, p: nat, x: Session)
    requires Calm(s) && j < |Trace(s, actions)| && Trace(s, actions)[j] == First(p, CopyOf(x))
    requires forall q :: 0 <= q < |Run(s, actions).procs| ==> !Run(s, actions).procs[q].pc.Dirty?
    ensures var m, copied := InstantRun(Shown(s), Trace(s, actions)[..j]), Run(s, actions).file.copiedWhileRunning;
            |m.copied| < |copied| && copied[|m.copied|] == m.up
  {
    OneMore(Shown(s), Trace(s, actions), j);
    RecordsUpTo(Shown(s), Trace(s, actions), j + 1);
    DelaysDoNotShow(s, actions);
  }

  // ---------------------------------------------------- serialised sessions

  /** A session of helper p. */
  datatype Turn = Turn(p: nat, x: Session)

  /** The actions of sessions one after the other. */
  function AllScripts(turns: seq<Turn>): seq<EagerAction> {
    if turns == [] then [] else ScriptActs(turns[0].x, turns[0].p) + AllScripts(turns[1..])
  }

  /** What their inspections print. */
  function SeenBy(turns: seq<Turn>): seq<Print> {
    if turns == [] then [] else [Print(turns[0].p, turns[0].x.seen)] + SeenBy(turns[1..])
  }

  function Falses(n: nat): seq<bool> {
    seq(n, _ => false)
  }

  function Pausing(turns: seq<Turn>): nat {
    if turns == [] then 0 else (if turns[0].x.pause then 1 else 0) + Pausing(turns[1..])
  }

  /** A whole session of a daemon without delays. */
  lemma InstantSession(d: Instant, x: Session, p: nat)
    ensures var r := InstantRun(d, ScriptActs(x, p));
            && r.printed == d.printed + [Print(p, d.up)]
            && (d.up == x.seen ==> r.up == d.up && r.copied == d.copied + [false] && r.wal == d.wal + (if x.pause then [false] else []))
  {
    var stop := StopActs(x, p);
    var copy := [First(p, CopyOf(x)), Second(p, CopyOf(x))];
    var start := if x.seen then [First(p, StartOf(x)), Second(p, StartOf(x))] else [];
    InstantRunSplits(d, [First(p, INSPECT), Second(p, INSPECT)], stop + (copy + start));
    InstantTwo(d, First(p, INSPECT), Second(p, INSPECT));
    var d1 := d.(printed := d.printed + [Print(p, d.up)]);
    InstantRunSplits(d1, stop, copy + start);
    InstantStop(d1, x, p);
    var d2 := InstantRun(d1, stop);
    InstantRunSplits(d2, copy, start);
    InstantTwo(d2, First(p, CopyOf(x)), Second(p, CopyOf(x)));
    var d3 := InstantRun(d2, copy);
    InstantTwo(d3, First(p, StartOf(x)), Second(p, StartOf(x)));
  }

  lemma InstantStop(d: Instant, x: Session, p: nat)
    ensures InstantRun(d, StopActs(x, p)) == if x.seen then d.(up := false) else d
  {
    if x.seen {
      var c := StopOf(x);
      InstantRunSplits(d, [First(p, c), Second(p, c)], SlowActs(c, p));
      InstantTwo(d, First(p, c), Second(p, c));
      if x.delay > 0 { InstantOne(d, Deadline(p, x.delay)); }
    }
  }

  lemma {:induction false} InstantSessions(d: Instant, turns: seq<Turn>)
    requires InstantRun(d, AllScripts(turns)).printed == d.printed + SeenBy(turns)
    ensures var r := InstantRun(d, AllScripts(turns));
            && r.up == d.up && r.copied == d.copied + Falses(|turns|) && r.wal == d.wal + Falses(Pausing(turns))
    decreases |turns|
  {
    if turns == [] {
      assert d.copied + Falses(0) == d.copied && d.wal + Falses(0) == d.wal;
    } else {
      var t, rest := turns[0], turns[1..];
      var script := ScriptActs(t.x, t.p);
      var m := InstantRun(d, script);
      InstantSession(d, t.x, t.p);
      InstantRunSplits(d, script, AllScripts(rest));
      RecordsGrow(m, AllScripts(rest));
      assert (d.printed + SeenBy(turns))[|d.printed|] == Print(t.p, t.x.seen);
      Regroup(d.printed, [Print(t.p, d.up)], SeenBy(rest));
      InstantSessions(m, rest);
      MoreFalses(d.copied, [false], |rest|);
      MoreFalses(d.wal, if t.x.pause then [false] else [], Pausing(rest));
    }
  }

  lemma MoreFalses(a: seq<bool>, b: seq<bool>, n: nat)
    requires b == Falses(|b|)
    ensures (a + b) + Falses(n) == a + Falses(|b| + n)
  {
    assert b + Falses(n) == Falses(|b| + n);
    assert (a + b) + Falses(n) == a + (b + Falses(n));
  }

  /** However many sessions follow one another, with time passing and calls without effect anywhere:
      every copy recorded in the file saw a stopped container, and the container ends as it began. */
  lemma SerialSessionsAreSafe(s: Sys, actions: seq<Action>, turns: seq<Turn>)
    requires Calm(s) && Effects(Trace(s, actions)) == AllScripts(turns)
    requires Run(s, actions).printed == s.printed + SeenBy(turns)
    requires forall p :: 0 <= p < |Run(s, actions).procs| ==> !Holds(Run(s, actions).procs[p])
    ensures var r := Run(s, actions);
            && Settle(r.file, r.now).running == Settle(s.file, s.now).running && Settle(r.file, r.now).stopAt.None?
            && r.file.copiedWhileRunning == s.file.copiedWhileRunning + Falses(|turns|)
            && r.file.walCopyRunning == s.file.walCopyRunning + Falses(Pausing(turns))
  {
    DelaysDoNotShow(s, actions);
    OnlyEffectsShow(Shown(s), Trace(s, actions));
    InstantSessions(Shown(s), turns);
  }

  // ------------------------------------------- schedules that serialise sessions

  /** A part of a run in which one helper makes these calls. */
  datatype Part = Part(turn: Turn, calls: seq<Call>, actions: seq<Action>)

  /** The calls are those of the session and calls without effect. What the other helpers have still to
      do that matters does not change meanwhile: they make calls without effect, or wait. */
  ghost predicate Whole(s: Sys, part: Part) {
    var r, p := Run(s, part.actions), part.turn.p;
    && p < |s.procs| == |r.procs| && s.procs[p].pc.Idle? && r.procs[p].pc.Idle?
    && s.procs[p].calls == part.calls + r.procs[p].calls && Needed(part.calls) == Script(part.turn.x)
    && forall q :: 0 <= q < |s.procs| && q != p ==> Effects(ToDo(r.procs[q], q)) == Effects(ToDo(s.procs[q], q))
  }

  /** One session after the other. */
  ghost predicate Serial(s: Sys, parts: seq<Part>)
    decreases |parts|
  {
    parts == [] || (Whole(s, parts[0]) && Serial(Run(s, parts[0].actions), parts[1..]))
  }

  function AllActions(parts: seq<Part>): seq<Action> {
    if parts == [] then [] else parts[0].actions + AllActions(parts[1..])
  }

  function TurnsOf(parts: seq<Part>): seq<Turn> {
    if parts == [] then [] else [parts[0].turn] + TurnsOf(parts[1..])
  }

  lemma {:induction false} TraceSplits(s: Sys, a: seq<Action>, b: seq<Action>)
    ensures Trace(s, a + b) == Trace(s, a) + Trace(Run(s, a), b)
    decreases |a|
  {
    if a == [] {
      assert a + b == b;
    } else {
      assert (a + b)[1..] == a[1..] + b;
      TraceSplits(Next(s, a[0]), a[1..], b);
      Regroup(Visible(s, a[0]), Trace(Next(s, a[0]), a[1..]), Trace(Run(s, a), b));
    }
  }

  /** Every action belongs to one of n helpers, or is the passing of time. */
  ghost predicate Tagged(tr: seq<EagerAction>, n: nat) {
    forall i :: 0 <= i < |tr| && Tag(tr[i]).Some? ==> Tag(tr[i]).value < n
  }

  lemma {:induction false} TraceIsTagged(s: Sys, actions: seq<Action>)
    ensures Tagged(Trace(s, actions), |s.procs|)
    decreases |actions|
  {
    if actions != [] {
      var a := actions[0];
      if a.Act? && a.p < |s.procs| { StepFrame(s, a.p); }
      assert Tagged(Visible(s, a), |s.procs|);
      TraceIsTagged(Next(s, a), actions[1..]);
    }
  }

  /** Where only p does anything that matters, the actions that matter are p's. */
  lemma {:induction false} OnlyOneActs(tr: seq<EagerAction>, p: nat, n: nat)
    requires Tagged(tr, n) && forall q :: 0 <= q < n && q != p ==> EffectsOf(tr, q) == []
    ensures Effects(tr) == EffectsOf(tr, p)
  {
    if tr != [] {
      var head, tail := [tr[0]], tr[1..];
      assert tr == head + tail;
      forall q: nat ensures EffectsOf(tr, q) == (if Tag(tr[0]) == Some(q) && Matters(tr[0]) then head else []) + EffectsOf(tail, q) {
        EffectsOfHead(tr, q);
      }
      OnlyOneActs(tail, p, n);
    }
  }

  lemma EffectsOfHead(tr: seq<EagerAction>, q: nat)
    requires tr != []
    ensures EffectsOf(tr, q) == (if Tag(tr[0]) == Some(q) && Matters(tr[0]) then [tr[0]] else []) + EffectsOf(tr[1..], q)
  {
    if Tag(tr[0]) == Some(q) {
      assert OwnActs(tr, q)[1..] == OwnActs(tr[1..], q);
    } else {
      assert OwnActs(tr, q) == OwnActs(tr[1..], q);
    }
  }

  lemma {:induction false} RunPlaced(s: Sys, actions: seq<Action>)
    requires AllPlaced(s)
    ensures AllPlaced(Run(s, actions)) && |Run(s, actions).procs| == |s.procs|
    decreases |actions|
  {
    if actions != [] {
      var a := actions[0];
      if a.Act? && a.p < |s.procs| { StepPlaced(s, a.p); }
      RunPlaced(Next(s, a), actions[1..]);
    }
  }

  /** What a helper does that matters, from what it has to do before and after. */
  lemma EffectsAreKept(s: Sys, actions: seq<Action>, q: nat)
    requires q < |s.procs| && AllPlaced(s)
    ensures AllPlaced(Run(s, actions)) && |Run(s, actions).procs| == |s.procs|
    ensures EffectsOf(Trace(s, actions), q) + Effects(ToDo(Run(s, actions).procs[q], q)) == Effects(ToDo(s.procs[q], q))
  {
    RunPlaced(s, actions);
    ProgramIsKept(s, actions, q);
    EffectsSplit(OwnActs(Trace(s, actions), q), ToDo(Run(s, actions).procs[q], q));
  }

  lemma PartIsScript(s: Sys, part: Part)
    requires AllPlaced(s) && Whole(s, part)
    ensures AllPlaced(Run(s, part.actions))
    ensures Effects(Trace(s, part.actions)) == ScriptActs(part.turn.x, part.turn.p)
  {
    var r, p, tr := Run(s, part.actions), part.turn.p, Trace(s, part.actions);
    TraceIsTagged(s, part.actions);
    forall q | 0 <= q < |s.procs| && q != p ensures EffectsOf(tr, q) == [] {
      EffectsAreKept(s, part.actions, q);
    }
    OnlyOneActs(tr, p, |s.procs|);
    EffectsAreKept(s, part.actions, p);
    OwnPart(part, p, r.procs[p].calls);
    assert ToDo(s.procs[p], p) == ProgramActs(part.calls + r.procs[p].calls, p);
    assert ToDo(r.procs[p], p) == ProgramActs(r.procs[p].calls, p);
    Cancel(EffectsOf(tr, p), ScriptActs(part.turn.x, p), Effects(ProgramActs(r.procs[p].calls, p)));
  }

  lemma OwnPart(part: Part, p: nat, after: seq<Call>)
    requires Needed(part.calls) == Script(part.turn.x)
    ensures Effects(ProgramActs(part.calls + after, p)) == ScriptActs(part.turn.x, p) + Effects(ProgramActs(after, p))
  {
    ProgramSplits(part.calls, after, p);
    EffectsSplit(ProgramActs(part.calls, p), ProgramActs(after, p));
    EffectsOfProgram(part.calls, p);
    ScriptIsProgram(part.turn.x, p);
  }

  lemma Cancel(a: seq<EagerAction>, b: seq<EagerAction>, c: seq<EagerAction>)
    requires a + c == b + c
    ensures a == b
  {
    assert |a| == |b|;
    assert a == (a + c)[..|a|] && b == (b + c)[..|b|];
  }

  lemma {:induction false} PartsAreScripts(s: Sys, parts: seq<Part>)
    requires AllPlaced(s) && Serial(s, parts)
    ensures Effects(Trace(s, AllActions(parts))) == AllScripts(TurnsOf(parts)) && |TurnsOf(parts)| == |parts|
    decreases |parts|
  {
    if parts != [] {
      var part, rest := parts[0], parts[1..];
      PartIsScript(s, part);
      PartsAreScripts(Run(s, part.actions), rest);
      TraceSplits(s, part.actions, AllActions(rest));
      EffectsSplit(Trace(s, part.actions), Trace(Run(s, part.actions), AllActions(rest)));
      assert TurnsOf(parts)[1..] == TurnsOf(rest);
    }
  }

  /** Helpers that take turns are safe: during the session of one, the others make no call that matters. */
  lemma TakingTurnsIsSafe(s: Sys, parts: seq<Part>)
    requires Calm(s) && Serial(s, parts)
    requires Run(s, AllActions(parts)).printed == s.printed + SeenBy(TurnsOf(parts))
    requires forall p :: 0 <= p < |Run(s, AllActions(parts)).procs| ==> !Holds(Run(s, AllActions(parts)).procs[p])
    ensures var r := Run(s, AllActions(parts));
            && Settle(r.file, r.now).running == Settle(s.file, s.now).running && Settle(r.file, r.now).stopAt.None?
            && r.file.copiedWhileRunning == s.file.copiedWhileRunning + Falses(|parts|)
            && r.file.walCopyRunning == s.file.walCopyRunning + Falses(Pausing(TurnsOf(parts)))
  {
    PartsAreScripts(s, parts);
    SerialSessionsAreSafe(s, AllActions(parts), TurnsOf(parts));
  }

  /** In particular a single session copies from a stopped container and leaves it as it found it. */
  lemma SessionRestores(s: Sys, part: Part)
    requires Calm(s) && Whole(s, part) && Run(s, part.actions).printed == s.printed + [Print(part.turn.p, part.turn.x.seen)]
    requires forall p :: 0 <= p < |Run(s, part.actions).procs| ==> !Holds(Run(s, part.actions).procs[p])
    ensures var r, d := Shown(Run(s, part.actions)), Shown(s);
            && r.up == d.up && r.copied == d.copied + [false] && r.wal == d.wal + (if part.turn.x.pause then [false] else [])
  {
    assert AllActions([part]) == part.actions + [] == part.actions;
    assert SeenBy([part.turn]) == [Print(part.turn.p, part.turn.x.seen)] + SeenBy([]);
    assert TurnsOf([part]) == [part.turn] + TurnsOf([]) == [part.turn];
    assert Pausing([part.turn]) == (if part.turn.x.pause then 1 else 0) + Pausing([]);
    TakingTurnsIsSafe(s, [part]);
    assert Falses(1) == [false] && Falses(0) == [];
  }
}
