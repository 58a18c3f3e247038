/**
 The mock Docker daemon of the backup safety test: its state file, the lazily settled stop, the
 effect of each CLI call, and an eager daemon that stops the container exactly at the deadline.
 */
module Daemon {
  import opened Prelude

  datatype Kind = InspectId | InspectRunning | InspectOther | Stopping | Starting | StartDone | Copying | CopyDone | Other

  /** An entry of the shared log; a tag names the helper that made the call. */
  datatype Event = Event(tag: nat, kind: Kind)

  /** The contents of the state file. */
  datatype File = File(
    running: bool,
    stopAt: Option<nat>,
    events: seq<Event>,
    copiedWhileRunning: seq<bool>,
    walCopyRunning: seq<bool>)

  /** Whoever reads the file completes a stop whose deadline has passed. */
  function Settle(f: File, now: nat): File {
    if f.stopAt.Some? && now >= f.stopAt.value then f.(running := false, stopAt := None) else f
  }

  /** No deadline has passed unnoticed. */
  predicate Settled(f: File, now: nat) {
    f.stopAt.Some? ==> now < f.stopAt.value
  }

  // ------------------------------------------------------------ CLI calls

  /** A docker command with the faults and waits its environment asks for. */
  datatype Command =
    | Inspect(kind: Kind, fails: bool)
    | Stop(waits: bool, fails: bool, delay: nat, noop: bool)
    | Start(fails: bool, noop: bool, slow: bool)
    | Copy(pause: bool, fails: bool)
    | Plain

  function FirstKind(c: Command): Kind {
    match c
    case Inspect(kind, _) => kind
    case Stop(_, _, _, _) => Stopping
    case Start(_, _, _) => Starting
    case Copy(_, _) => Copying
    case Plain => Other
  }

  /** The call lets other helpers run before it takes effect. */
  predicate Waits(c: Command) {
    match c
    case Stop(waits, _, _, _) => waits
    case Start(fails, noop, slow) => !fails && !noop && slow
    case Copy(pause, _) => pause
    case _ => false
  }

  /** The stop is handed to the daemon with a deadline, and the CLI waits for it. */
  predicate IsSlow(c: Command) {
    c.Stop? && !c.fails && c.delay > 0
  }

  /** Log the call; a copy notes whether the container runs. */
  function Before(c: Command, tag: nat, f: File): File {
    var g := f.(events := f.events + [Event(tag, FirstKind(c))]);
    if c.Copy? then g.(copiedWhileRunning := g.copiedWhileRunning + [g.running]) else g
  }

  /** The effect of the call; that of a slow stop is Arm. */
  function After(c: Command, tag: nat, f: File): File {
    match c
    case Stop(_, fails, delay, noop) => if fails || delay > 0 || noop then f else f.(running := false)
    case Start(fails, noop, _) =>
      if fails || noop then f else f.(events := f.events + [Event(tag, StartDone)], running := true)
    case Copy(pause, fails) =>
      var g := if pause then f.(walCopyRunning := f.walCopyRunning + [f.running]) else f;
      if fails then g else g.(events := g.events + [Event(tag, CopyDone)])
    case _ => f
  }

  /** A slow stop sets a deadline unless the container is down or already stopping. */
  function Arm(f: File, now: nat, delay: nat): File {
    if f.running && f.stopAt.None? then f.(stopAt := Some(now + delay)) else f
  }

  /** What a call that waits for nobody does to the file, field by field. */
  lemma EffectOfCall(c: Command, tag: nat, f: File)
    ensures var g := After(c, tag, Before(c, tag, f));
            match c
            case Inspect(kind, _) => g == f.(events := f.events + [Event(tag, kind)])
            case Plain => g == f.(events := f.events + [Event(tag, Other)])
            case Stop(_, fails, delay, noop) =>
              g == f.(events := f.events + [Event(tag, Stopping)], running := f.running && (fails || delay > 0 || noop))
            case Start(fails, noop, _) =>
              g == if fails || noop then f.(events := f.events + [Event(tag, Starting)])
                   else f.(events := f.events + [Event(tag, Starting), Event(tag, StartDone)], running := true)
            case Copy(pause, fails) =>
              g == f.(events := f.events + [Event(tag, Copying)] + (if fails then [] else [Event(tag, CopyDone)]),
                      copiedWhileRunning := f.copiedWhileRunning + [f.running],
                      walCopyRunning := f.walCopyRunning + (if pause then [f.running] else []))
  {
    assert forall e: seq<Event>, a, b :: (e + [a]) + [b] == e + [a, b];
    assert f.walCopyRunning + [] == f.walCopyRunning;
  }

  /** What a call that waits does before its wait and, to whatever file it finds, after it. */
  lemma EffectOfHalves(c: Command, tag: nat, f: File)
    ensures Waits(c) <==> (c.Stop? && c.waits) || (c.Start? && c.slow && !c.fails && !c.noop) || (c.Copy? && c.pause)
    ensures match c
            case Stop(_, fails, delay, noop) =>
              && Before(c, tag, f) == f.(events := f.events + [Event(tag, Stopping)])
              && After(c, tag, f) == f.(running := f.running && (fails || delay > 0 || noop))
            case Start(fails, noop, _) =>
              && Before(c, tag, f) == f.(events := f.events + [Event(tag, Starting)])
              && (!fails && !noop ==> After(c, tag, f) == f.(events := f.events + [Event(tag, StartDone)], running := true))
            case Copy(pause, fails) =>
              && Before(c, tag, f) == f.(events := f.events + [Event(tag, Copying)], copiedWhileRunning := f.copiedWhileRunning + [f.running])
              && (pause ==> After(c, tag, f) == f.(events := f.events + (if fails then [] else [Event(tag, CopyDone)]),
                                                   walCopyRunning := f.walCopyRunning + [f.running]))
            case _ => true
  {
    assert f.events + [] == f.events;
  }

  // -------------------------------------------------------- eager daemon

  datatype Print = Print(tag: nat, running: bool)

  /** A daemon that knows no files, locks or processes and stops the container at the deadline. */
  datatype Eager = Eager(now: nat, f: File, printed: seq<Print>)

  datatype EagerAction =
    | Pass
    | First(tag: nat, c: Command)
    | Second(tag: nat, c: Command)
    | Deadline(tag: nat, delay: nat)

  function EagerNext(e: Eager, a: EagerAction): Eager {
    match a
    case Pass =>
      var now := e.now + 1;
      e.(now := now, f := if e.f.stopAt == Some(now) then e.f.(running := false, stopAt := None) else e.f)
    case First(tag, c) =>
      e.(f := Before(c, tag, e.f),
         printed := if c == Inspect(InspectRunning, false) then e.printed + [Print(tag, e.f.running)] else e.printed)
    case Second(tag, c) => e.(f := After(c, tag, e.f))
    case Deadline(_, delay) => e.(f := Arm(e.f, e.now, delay))
  }

  function EagerRun(e: Eager, actions: seq<EagerAction>): Eager
    decreases |actions|
  {
    if actions == [] then e else EagerRun(EagerNext(e, actions[0]), actions[1..])
  }

  lemma {:induction false} EagerRunSplits(e: Eager, a: seq<EagerAction>, b: seq<EagerAction>)
    ensures EagerRun(e, a + b) == EagerRun(EagerRun(e, a), b)
    decreases |a|
  {
    if a == [] {
      assert a + b == b;
    } else {
      assert (a + b)[1..] == a[1..] + b;
      EagerRunSplits(EagerNext(e, a[0]), a[1..], b);
    }
  }

  /** An effective start. */
  predicate IsUp(a: EagerAction) {
    a.Second? && a.c.Start? && !a.c.fails && !a.c.noop
  }

  /** An effective stop, immediate or delayed. */
  predicate IsDown(a: EagerAction) {
    a.Deadline? || (a.Second? && a.c.Stop? && !a.c.fails && a.c.delay == 0 && !a.c.noop)
  }

  // ---------------------------------------- when a delayed stop takes effect

  /** An effective stop that takes effect at once. */
  predicate IsSudden(a: EagerAction) {
    IsDown(a) && !a.Deadline?
  }

  /** Up with the deadline ahead, or down with the deadline past. */
  predicate StopsAt(e: Eager, d: nat) {
    if e.now < d then e.f.running && e.f.stopAt == Some(d) else !e.f.running
  }

  lemma {:induction false} StopsAtStays(e: Eager, d: nat, actions: seq<EagerAction>)
    requires StopsAt(e, d) && forall a :: a in actions ==> !IsUp(a) && !IsSudden(a)
    ensures StopsAt(EagerRun(e, actions), d)
    decreases |actions|
  {
    if actions != [] {
      assert actions[0] in actions;
      assert StopsAt(EagerNext(e, actions[0]), d);
      StopsAtStays(EagerNext(e, actions[0]), d, actions[1..]);
    }
  }

  /** A stop with a delay, of a running container without a deadline, takes effect exactly after the
      delay, whatever else is called meanwhile or later that is neither an effective start nor an
      immediate stop. Further delayed stops do not change that. */
  lemma DelayedStopIsOnTime(e: Eager, tag: nat, delay: nat, actions: seq<EagerAction>)
    requires e.f.running && e.f.stopAt.None? && delay > 0
    requires forall a :: a in actions ==> !IsUp(a) && !IsSudden(a)
    ensures var r := EagerRun(e, [Deadline(tag, delay)] + actions);
            r.f.running <==> r.now < e.now + delay
  {
    assert ([Deadline(tag, delay)] + actions)[1..] == actions;
    StopsAtStays(EagerNext(e, Deadline(tag, delay)), e.now + delay, actions);
  }

  /** The deadline in the file: that of the first delayed stop of a running container. */
  lemma DeadlineInFile(f: File, now: nat, delay: nat)
    ensures Arm(f, now, delay) == if f.running && f.stopAt == None then f.(stopAt := Some(now + delay)) else f
    ensures f.running && f.stopAt.None? && delay > 0 ==>
              forall u: nat :: Settle(Arm(f, now, delay), u).running <==> u < now + delay
  {
  }

  // ------------------------------------------- what a start is worth

  /** Every stop in the run is a slow one, or has no effect. */
  predicate StopsAreDelayed(actions: seq<EagerAction>) {
    forall a :: a in actions ==> StopIsDelayed(a)
  }

  predicate StopIsDelayed(a: EagerAction) {
    match a
    case Second(_, Stop(_, fails, delay, noop)) => fails || delay > 0 || noop
    case Deadline(_, delay) => delay > 0
    case _ => true
  }

  /** A pending deadline lies ahead and belongs to a running container. */
  predicate Tidy(e: Eager) {
    e.f.stopAt.Some? ==> e.f.running && e.now < e.f.stopAt.value
  }

  lemma TidyStep(e: Eager, a: EagerAction)
    requires Tidy(e) && StopIsDelayed(a)
    ensures Tidy(EagerNext(e, a))
  {
  }

  /** In every run whose stops are all delayed, a pending deadline implies a running container. */
  lemma {:induction false} DelayedStopsStayTidy(e: Eager, actions: seq<EagerAction>)
    requires Tidy(e) && StopsAreDelayed(actions)
    ensures Tidy(EagerRun(e, actions))
    decreases |actions|
  {
    if actions != [] {
      assert actions[0] in actions;
      TidyStep(e, actions[0]);
      DelayedStopsStayTidy(EagerNext(e, actions[0]), actions[1..]);
    }
  }

  predicate IsStop(a: EagerAction) {
    a.Deadline? || (a.Second? && a.c.Stop?)
  }

  /** An effective start. */
  function StartNow(tag: nat): EagerAction {
    Second(tag, Start(false, false, false))
  }

  lemma {:induction false} RunsOn(e: Eager, actions: seq<EagerAction>)
    requires e.f.running && e.f.stopAt.None?
    requires forall a :: a in actions ==> !IsStop(a)
    ensures EagerRun(e, actions).f.running && EagerRun(e, actions).f.stopAt.None?
    decreases |actions|
  {
    if actions != [] {
      assert actions[0] in actions;
      RunsOn(EagerNext(e, actions[0]), actions[1..]);
    }
  }

  function Passes(n: nat): seq<EagerAction> {
    seq(n, _ => Pass)
  }

  /** Letting time pass changes nothing but the time, up to a deadline. */
  lemma {:induction false} PassingTime(e: Eager, n: nat)
    requires Settled(e.f, e.now)
    ensures EagerRun(e, Passes(n)) == e.(now := e.now + n, f := Settle(e.f, e.now + n))
    decreases n
  {
    if n > 0 {
      assert Passes(n)[1..] == Passes(n - 1);
      PassingTime(EagerNext(e, Pass), n - 1);
    }
  }

  /** A start on a container that is seen down keeps it up until the next stop, whatever else
      happens, if and only if no deadline is pending. */
  lemma StartHoldsIff(e: Eager, tag: nat)
    requires !e.f.running && Settled(e.f, e.now)
    ensures (forall future :: (forall a :: a in future ==> !IsStop(a)) ==>
              EagerRun(EagerNext(e, StartNow(tag)), future).f.running)
            <==> e.f.stopAt.None?
  {
    var s := EagerNext(e, StartNow(tag));
    if e.f.stopAt.None? {
      forall future | forall a :: a in future ==> !IsStop(a) ensures EagerRun(s, future).f.running {
        RunsOn(s, future);
      }
    } else {
      var future := Passes(e.f.stopAt.value - e.now);
      PassingTime(s, |future|);
      assert !EagerRun(s, future).f.running;
    }
  }

  /** In particular after a run of delayed stops. */
  lemma StartAfterStopHolds(e: Eager, past: seq<EagerAction>, tag: nat, future: seq<EagerAction>)
    requires Tidy(e) && StopsAreDelayed(past)
    requires !EagerRun(e, past).f.running
    requires forall a :: a in future ==> !IsStop(a)
    ensures EagerRun(EagerNext(EagerRun(e, past), StartNow(tag)), future).f.running
  {
    DelayedStopsStayTidy(e, past);
    StartHoldsIff(EagerRun(e, past), tag);
  }

  /** With an immediate stop among the delayed ones the guarantee is gone: whenever a deadline is
      pending, an immediate stop shows the container down, a start brings it up, and at the old
      deadline it is down again although nobody stopped it. */
  lemma MixedStopsBreakIt(e: Eager, tag: nat, d: nat)
    requires e.f.stopAt == Some(d) && e.now < d
    ensures var stopped := EagerNext(e, Second(tag, Stop(false, false, 0, false)));
            var started := EagerNext(stopped, StartNow(tag));
            && !stopped.f.running && started.f.running
            && !EagerRun(started, Passes(d - e.now)).f.running
  {
    var stopped := EagerNext(e, Second(tag, Stop(false, false, 0, false)));
    PassingTime(EagerNext(stopped, StartNow(tag)), d - e.now);
  }

  lemma {:induction false} DeadlineStands(e: Eager, actions: seq<EagerAction>, d: nat)
    requires e.f.stopAt == Some(d) && e.now < d
    requires EagerRun(e, actions).now < d
    ensures EagerRun(e, actions).f.stopAt == Some(d)
    decreases |actions|
  {
    if actions != [] {
      TimeMovesOn(EagerNext(e, actions[0]), actions[1..]);
      DeadlineStands(EagerNext(e, actions[0]), actions[1..], d);
    }
  }

  lemma {:induction false} TimeMovesOn(e: Eager, actions: seq<EagerAction>)
    ensures e.now <= EagerRun(e, actions).now
    decreases |actions|
  {
    if actions != [] {
      TimeMovesOn(EagerNext(e, actions[0]), actions[1..]);
    }
  }

  lemma {:induction false} StaysDown(e: Eager, actions: seq<EagerAction>)
    requires !e.f.running && forall a :: a in actions ==> !IsUp(a)
    ensures !EagerRun(e, actions).f.running
    decreases |actions|
  {
    if actions != [] {
      assert actions[0] in actions;
      StaysDown(EagerNext(e, actions[0]), actions[1..]);
    }
  }

  /** A start issued while a stop is pending is lost, whether the container was up or already down:
      whatever else is called before the deadline d (more starts and stops included), the container
      is down at d, and stays down until a start that comes after d. */
  lemma StartWhileStoppingIsLost(e: Eager, tag: nat, d: nat, before: seq<EagerAction>, after: seq<EagerAction>)
    requires e.f.stopAt == Some(d) && e.now < d
    requires EagerRun(EagerNext(e, StartNow(tag)), before).now == d - 1
    requires forall a :: a in after ==> !IsUp(a)
    ensures !EagerRun(e, [StartNow(tag)] + before + [Pass] + after).f.running
  {
    var s := EagerNext(e, StartNow(tag));
    DeadlineStands(s, before, d);
    StaysDown(EagerNext(EagerRun(s, before), Pass), after);
    EagerRunSplits(s, before, [Pass] + after);
    assert [StartNow(tag)] + before + [Pass] + after == [StartNow(tag)] + (before + ([Pass] + after));
    assert ([StartNow(tag)] + (before + ([Pass] + after)))[1..] == before + ([Pass] + after);
    assert ([Pass] + after)[1..] == after;
  }

  lemma RunTwo(e: Eager, a: EagerAction, b: EagerAction)
    ensures EagerRun(e, [a, b]) == EagerNext(EagerNext(e, a), b)
  {
    assert [a, b][1..] == [b] && [b][1..] == [];
    assert EagerRun(EagerNext(e, a), [b]) == EagerRun(EagerNext(EagerNext(e, a), b), []);
  }
}
