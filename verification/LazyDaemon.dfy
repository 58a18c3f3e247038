/**
 The lazily settled daemon against an eager one: in every run of the processes, the eager daemon that
 takes the visible steps agrees with whoever reads the state file.
 */
module LazyDaemon {
  import opened Daemon
  import opened DockerCli

  /** What the eager daemon does when the system takes a step. */
  function Visible(s: Sys, a: Action): seq<EagerAction> {
    match a
    case Tick => [Pass]
    case Act(p) =>
      if p >= |s.procs| || s.procs[p].calls == [] then []
      else
        var c := s.procs[p].calls[0].c;
        match s.procs[p].pc
        case Locked(false) => if Waits(c) then [First(p, c)] else [First(p, c), Second(p, c)]
        case Locked(true) => [Second(p, c)]
        case Dirty(false) => if IsSlow(c) then [Deadline(p, c.delay)] else []
        case _ => []
  }

  function Trace(s: Sys, actions: seq<Action>): seq<EagerAction>
    decreases |actions|
  {
    if actions == [] then [] else Visible(s, actions[0]) + Trace(Next(s, actions[0]), actions[1..])
  }

  /** The eager daemon e is in the state that a reader of the file, or the process with unsaved
      work, would compute now. */
  ghost predicate Matches(s: Sys, e: Eager) {
    && e.now == s.now && e.printed == s.printed && Settled(e.f, e.now)
    && (forall p :: 0 <= p < |s.procs| && s.procs[p].pc.Dirty? ==> Settle(s.procs[p].local, s.now) == e.f)
    && ((forall p :: 0 <= p < |s.procs| ==> !s.procs[p].pc.Dirty?) ==> Settle(s.file, s.now) == e.f)
  }

  lemma TickMatches(s: Sys, e: Eager)
    requires Matches(s, e)
    ensures Matches(Next(s, Tick), EagerNext(e, Pass))
  {
  }

  /** What e becomes when process p, in the given state, takes its step. */
  lemma VisibleRun(s: Sys, p: nat, e: Eager)
    requires p < |s.procs| && s.procs[p].calls != []
    ensures var c := s.procs[p].calls[0].c;
            EagerRun(e, Visible(s, Act(p))) == match s.procs[p].pc
              case Locked(false) => if Waits(c) then EagerNext(e, First(p, c)) else EagerNext(EagerNext(e, First(p, c)), Second(p, c))
              case Locked(true) => EagerNext(e, Second(p, c))
              case Dirty(false) => if IsSlow(c) then EagerNext(e, Deadline(p, c.delay)) else e
              case _ => e
  {
    var c := s.procs[p].calls[0].c;
    RunTwo(e, First(p, c), Second(p, c));
    RunOne(e, First(p, c));
    RunOne(e, Second(p, c));
    if IsSlow(c) { RunOne(e, Deadline(p, c.delay)); }
  }

  lemma RunOne(e: Eager, a: EagerAction)
    ensures EagerRun(e, [a]) == EagerNext(e, a)
  {
    assert EagerRun(e, [a]) == EagerRun(EagerNext(e, a), []);
  }

  lemma OnlyHolder(s: Sys, p: nat)
    requires Exclusive(s) && p < |s.procs| && Holds(s.procs[p])
    ensures forall q :: 0 <= q < |s.procs| && q != p ==> !s.procs[q].pc.Dirty?
  {
  }

  lemma StepFrame(s: Sys, p: nat)
    requires p < |s.procs|
    ensures |Step(s, p).procs| == |s.procs| && Step(s, p).now == s.now
    ensures forall q :: 0 <= q < |s.procs| && q != p ==> Step(s, p).procs[q] == s.procs[q]
  {
  }

  /** A process that saves unsaved work. */
  lemma SaveMatches(s: Sys, p: nat, e: Eager)
    requires Inv(s) && Matches(s, e) && p < |s.procs| && s.procs[p].calls != [] && s.procs[p].pc.Dirty?
    ensures Matches(Step(s, p), EagerRun(e, Visible(s, Act(p))))
  {
    VisibleRun(s, p, e);
    OnlyHolder(s, p);
    StepFrame(s, p);
    var q := s.procs[p];
    assert Settle(q.local, s.now) == e.f;
    assert Step(s, p).file == if q.pc == Dirty(false) && IsSlow(q.calls[0].c) then Arm(q.local, s.now, q.calls[0].c.delay) else q.local;
  }

  /** A process that holds the mutex and has nothing unsaved. */
  lemma HolderMatches(s: Sys, p: nat, e: Eager)
    requires Inv(s) && Matches(s, e) && p < |s.procs| && s.procs[p].calls != []
    requires Holds(s.procs[p]) && !s.procs[p].pc.Dirty?
    ensures Matches(Step(s, p), EagerRun(e, Visible(s, Act(p))))
  {
    VisibleRun(s, p, e);
    OnlyHolder(s, p);
    StepFrame(s, p);
    assert Settle(s.file, s.now) == e.f;
    assert Step(s, p).file == s.file;
    if s.procs[p].pc.Locked? {
      assert Step(s, p).procs[p].pc.Dirty?;
    }
  }

  lemma StepMatches(s: Sys, p: nat, e: Eager)
    requires Inv(s) && Matches(s, e) && p < |s.procs| && s.procs[p].calls != []
    ensures Matches(Step(s, p), EagerRun(e, Visible(s, Act(p))))
  {
    if s.procs[p].pc.Dirty? {
      SaveMatches(s, p, e);
    } else if Holds(s.procs[p]) {
      HolderMatches(s, p, e);
    } else {
      VisibleRun(s, p, e);
      StepFrame(s, p);
      assert Step(s, p).file == s.file && Step(s, p).printed == s.printed;
      assert forall q :: 0 <= q < |s.procs| ==> Step(s, p).procs[q].pc.Dirty? == s.procs[q].pc.Dirty?;
    }
  }

  lemma NextMatches(s: Sys, a: Action, e: Eager)
    requires Inv(s) && Matches(s, e)
    ensures Matches(Next(s, a), EagerRun(e, Visible(s, a)))
  {
    match a
    case Tick =>
      TickMatches(s, e);
      RunOne(e, Pass);
    case Act(p) =>
      if p < |s.procs| && s.procs[p].calls != [] {
        StepMatches(s, p, e);
      }
  }

  /** The lazily settled daemon refines the eager one: after every run, whoever settled and
      whether or not the settled state was saved, the eager daemon that took the visible steps
      agrees on the state a reader computes, on what was recorded and on what was printed. */
  lemma {:induction false} LazyRefinesEager(s: Sys, actions: seq<Action>, e: Eager)
    requires Inv(s) && Matches(s, e)
    ensures Matches(Run(s, actions), EagerRun(e, Trace(s, actions)))
    decreases |actions|
  {
    if actions != [] {
      var s1 := Next(s, actions[0]);
      NextKeepsInv(s, actions[0]);
      NextMatches(s, actions[0], e);
      LazyRefinesEager(s1, actions[1..], EagerRun(e, Visible(s, actions[0])));
      EagerRunSplits(e, Visible(s, actions[0]), Trace(s1, actions[1..]));
    }
  }

  /** So every process that is about to read the file sees the eager container. */
  lemma ReaderSeesEager(s: Sys, actions: seq<Action>, e: Eager, p: nat)
    requires Inv(s) && Matches(s, e)
    requires p < |s.procs| == |Run(s, actions).procs| && Run(s, actions).procs[p].pc.Locked?
    ensures Settle(Run(s, actions).file, Run(s, actions).now) == EagerRun(e, Trace(s, actions)).f
  {
    LazyRefinesEager(s, actions, e);
    RunIsExclusive(s, actions);
    var r := Run(s, actions);
    forall q | 0 <= q < |r.procs| ensures !r.procs[q].pc.Dirty? {
      assert Holds(r.procs[p]);
    }
  }

  /** So a delayed stop shows on time to whoever reads the file: in a run that arms it at the end of
      before, with the container up and no deadline, and has no effective start and no immediate stop
      afterwards, a reader sees the container running exactly until the delay has passed. */
  lemma DelayedStopShowsOnTime(s: Sys, actions: seq<Action>, e: Eager, p: nat, before: seq<EagerAction>, tag: nat, delay: nat, after: seq<EagerAction>)
    requires Inv(s) && Matches(s, e) && Trace(s, actions) == before + ([Deadline(tag, delay)] + after) && delay > 0
    requires EagerRun(e, before).f.running && EagerRun(e, before).f.stopAt.None?
    requires forall a :: a in after ==> !IsUp(a) && !IsSudden(a)
    requires p < |s.procs| == |Run(s, actions).procs| && Run(s, actions).procs[p].pc.Locked?
    ensures var r := Run(s, actions);
            Settle(r.file, r.now).running <==> r.now < EagerRun(e, before).now + delay
  {
    ReaderSeesEager(s, actions, e, p);
    LazyRefinesEager(s, actions, e);
    EagerRunSplits(e, before, [Deadline(tag, delay)] + after);
    DelayedStopIsOnTime(EagerRun(e, before), tag, delay, after);
  }
}
