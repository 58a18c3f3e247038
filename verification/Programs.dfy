/**
 The programs of the helpers: in every run each helper takes its actions in program order, and the
 shared log loses and reorders none of its entries.
 */
module Programs {
  import opened Prelude
  import opened Daemon
  import opened DockerCli
  import opened LazyDaemon

  function Tag(a: EagerAction): Option<nat> {
    if a.Pass? then None else Some(a.tag)
  }

  /** The actions of one helper. */
  function OwnActs(tr: seq<EagerAction>, t: nat): seq<EagerAction> {
    if tr == [] then []
    else (if Tag(tr[0]) == Some(t) then [tr[0]] else []) + OwnActs(tr[1..], t)
  }

  lemma {:induction false} OwnActsSplit(a: seq<EagerAction>, b: seq<EagerAction>, t: nat)
    ensures OwnActs(a + b, t) == OwnActs(a, t) + OwnActs(b, t)
    decreases |a|
  {
    if a == [] {
      assert a + b == b;
    } else {
      assert (a + b)[1..] == a[1..] + b;
      OwnActsSplit(a[1..], b, t);
      Regroup(if Tag(a[0]) == Some(t) then [a[0]] else [], OwnActs(a[1..], t), OwnActs(b, t));
    }
  }

  function SlowActs(c: Command, p: nat): seq<EagerAction> {
    if IsSlow(c) then [Deadline(p, c.delay)] else []
  }

  function SecondActs(c: Command, p: nat): seq<EagerAction> {
    [Second(p, c)] + SlowActs(c, p)
  }

  /** What a call does after its first entry. */
  function LaterActs(k: Call, p: nat): seq<EagerAction> {
    if Waits(k.c) && k.givesUp.AtWait? then [] else SecondActs(k.c, p)
  }

  /** The actions of a list of calls in program order. */
  function ProgramActs(calls: seq<Call>, p: nat): seq<EagerAction> {
    if calls == [] then []
    else (if calls[0].givesUp.AtLock? then [] else [First(p, calls[0].c)] + LaterActs(calls[0], p)) + ProgramActs(calls[1..], p)
  }

  /** What a process has still to do. */
  function ToDo(q: Proc, p: nat): seq<EagerAction> {
    if q.calls == [] then []
    else
      var c, rest := q.calls[0].c, ProgramActs(q.calls[1..], p);
      match q.pc
      case Idle => ProgramActs(q.calls, p)
      case Locked(false) => ([First(p, c)] + LaterActs(q.calls[0], p)) + rest
      case Dirty(true) => LaterActs(q.calls[0], p) + rest
      case Parking => LaterActs(q.calls[0], p) + rest
      case Parked => LaterActs(q.calls[0], p) + rest
      case Locked(true) => SecondActs(c, p) + rest
      case Dirty(false) => SlowActs(c, p) + rest
      case _ => rest
  }

  /** Between its two halves a call does have a wait; a call under way did not give up before. */
  ghost predicate Placed(q: Proc) {
    q.calls != [] ==>
      && (q.pc == Dirty(true) || q.pc.Parking? || q.pc.Parked? || q.pc == Locked(true) ==> Waits(q.calls[0].c))
      && (!q.pc.Idle? ==> !q.calls[0].givesUp.AtLock?)
      && (q.pc == Locked(true) ==> !q.calls[0].givesUp.AtWait?)
  }

  ghost predicate AllPlaced(s: Sys) {
    forall p :: 0 <= p < |s.procs| ==> Placed(s.procs[p])
  }

  lemma StepPlaced(s: Sys, p: nat)
    requires p < |s.procs| && AllPlaced(s)
    ensures AllPlaced(Step(s, p)) && |Step(s, p).procs| == |s.procs|
  {
  }

  lemma StepToDo(s: Sys, p: nat)
    requires p < |s.procs| && Placed(s.procs[p]) && s.procs[p].calls != []
    ensures Visible(s, Act(p)) + ToDo(Step(s, p).procs[p], p) == ToDo(s.procs[p], p)
  {
    match s.procs[p].pc
    case Idle => IdleToDo(s, p);
    case Locked(_) => LockedToDo(s, p);
    case Dirty(_) => DirtyToDo(s, p);
    case _ => OtherToDo(s, p);
  }

  lemma DirtyToDo(s: Sys, p: nat)
    requires p < |s.procs| && s.procs[p].calls != [] && s.procs[p].pc.Dirty?
    ensures Visible(s, Act(p)) + ToDo(Step(s, p).procs[p], p) == ToDo(s.procs[p], p)
  {
    var q, q' := s.procs[p], Step(s, p).procs[p];
    assert q'.calls == q.calls && (q'.pc.Parking? <==> q.pc.waits);
    assert [] + ToDo(q', p) == ToDo(q', p);
  }

  lemma OtherToDo(s: Sys, p: nat)
    requires p < |s.procs| && s.procs[p].calls != [] && Placed(s.procs[p])
    requires var pc := s.procs[p].pc; pc.Parking? || pc.Parked? || pc.Sleeping? || pc.Leaving?
    ensures Visible(s, Act(p)) + ToDo(Step(s, p).procs[p], p) == ToDo(s.procs[p], p)
  {
    var q, q' := s.procs[p], Step(s, p).procs[p];
    assert Visible(s, Act(p)) == [];
    assert [] + ToDo(q', p) == ToDo(q', p);
    if q.pc.Leaving? || (q.pc.Parked? && q.calls[0].givesUp.AtWait?) {
      assert q' == EndCall(q);
      EndToDo(q, p);
    } else {
      assert q'.calls == q.calls;
    }
  }

  lemma EndToDo(q: Proc, p: nat)
    requires q.calls != [] && Placed(q) && (q.pc.Leaving? || (q.pc.Parked? && q.calls[0].givesUp.AtWait?))
    ensures ToDo(EndCall(q), p) == ToDo(q, p)
  {
    var rest := ProgramActs(q.calls[1..], p);
    assert [] + rest == rest;
  }

  lemma IdleToDo(s: Sys, p: nat)
    requires p < |s.procs| && s.procs[p].calls != [] && s.procs[p].pc.Idle?
    ensures Visible(s, Act(p)) + ToDo(Step(s, p).procs[p], p) == ToDo(s.procs[p], p)
  {
    var q, q' := s.procs[p], Step(s, p).procs[p];
    var c, rest := q.calls[0].c, ProgramActs(q.calls[1..], p);
    if q.calls[0].givesUp.AtLock? {
      assert q' == EndCall(q);
      assert [] + rest == rest;
    } else {
      assert q'.calls == q.calls && (q'.pc.Idle? || q'.pc == Locked(false));
      assert ProgramActs(q.calls, p) == ([First(p, c)] + LaterActs(q.calls[0], p)) + rest;
    }
  }

  lemma LockedToDo(s: Sys, p: nat)
    requires p < |s.procs| && Placed(s.procs[p]) && s.procs[p].calls != [] && s.procs[p].pc.Locked?
    ensures Visible(s, Act(p)) + ToDo(Step(s, p).procs[p], p) == ToDo(s.procs[p], p)
  {
    var q, q' := s.procs[p], Step(s, p).procs[p];
    var c, rest := q.calls[0].c, ProgramActs(q.calls[1..], p);
    var again := q.pc.again;
    assert q'.calls == q.calls && q'.pc == Dirty(!again && Waits(c));
    if again {
      assert [Second(p, c)] + (SlowActs(c, p) + rest) == SecondActs(c, p) + rest;
    } else if Waits(c) {
      Regroup([First(p, c)], LaterActs(q.calls[0], p), rest);
    } else {
      assert [First(p, c), Second(p, c)] + (SlowActs(c, p) + rest) == ([First(p, c)] + SecondActs(c, p)) + rest;
    }
  }

  lemma VisibleIsOwn(s: Sys, p: nat, t: nat)
    requires p < |s.procs| && s.procs[p].calls != []
    ensures OwnActs(Visible(s, Act(p)), t) == if p == t then Visible(s, Act(p)) else []
  {
    var v := Visible(s, Act(p));
    assert |v| <= 2 && forall i :: 0 <= i < |v| ==> Tag(v[i]) == Some(p);
    OwnOfFew(v, p, t);
  }

  lemma {:induction false} OwnOfFew(v: seq<EagerAction>, p: nat, t: nat)
    requires forall i :: 0 <= i < |v| ==> Tag(v[i]) == Some(p)
    ensures OwnActs(v, t) == if p == t then v else []
  {
    if v != [] { OwnOfFew(v[1..], p, t); }
  }

  /** In every run, the actions a helper has taken and those it has still to take are its program. */
  lemma {:induction false} ProgramIsKept(s: Sys, actions: seq<Action>, t: nat)
    requires t < |s.procs| && AllPlaced(s)
    ensures t < |Run(s, actions).procs|
    ensures OwnActs(Trace(s, actions), t) + ToDo(Run(s, actions).procs[t], t) == ToDo(s.procs[t], t)
    decreases |actions|
  {
    if actions == [] {
      assert [] + ToDo(s.procs[t], t) == ToDo(s.procs[t], t);
    } else {
      var a, s1 := actions[0], Next(s, actions[0]);
      var v, rest := Visible(s, a), Trace(s1, actions[1..]);
      NextKeepsProgram(s, a, t);
      ProgramIsKept(s1, actions[1..], t);
      OwnActsSplit(v, rest, t);
      Regroup(OwnActs(v, t), OwnActs(rest, t), ToDo(Run(s1, actions[1..]).procs[t], t));
    }
  }

  lemma NextKeepsProgram(s: Sys, a: Action, t: nat)
    requires t < |s.procs| && AllPlaced(s)
    ensures AllPlaced(Next(s, a)) && t < |Next(s, a).procs|
    ensures OwnActs(Visible(s, a), t) + ToDo(Next(s, a).procs[t], t) == ToDo(s.procs[t], t)
  {
    var kept := ToDo(s.procs[t], t);
    assert [] + kept == kept;
    if a.Act? && a.p < |s.procs| {
      StepPlaced(s, a.p);
      if s.procs[a.p].calls != [] {
        VisibleIsOwn(s, a.p, t);
        StepFrame(s, a.p);
        if a.p == t { StepToDo(s, t); }
      }
    } else if a.Tick? {
      assert OwnActs([Pass], t) == [] + OwnActs([], t);
    }
  }

  // ---------------------------------------- no event is lost or reordered

  /** The entries of one helper, in log order. */
  function Own(events: seq<Event>, tag: nat): seq<Kind> {
    if events == [] then []
    else
      var last := events[|events| - 1];
      Own(events[..|events| - 1], tag) + (if last.tag == tag then [last.kind] else [])
  }

  function SecondKinds(c: Command): seq<Kind> {
    match c
    case Start(fails, noop, _) => if fails || noop then [] else [StartDone]
    case Copy(_, fails) => if fails then [] else [CopyDone]
    case _ => []
  }

  /** What a call has still to log after its first entry. */
  function Later(k: Call): seq<Kind> {
    if Waits(k.c) && k.givesUp.AtWait? then [] else SecondKinds(k.c)
  }

  /** The log entries of a list of calls in program order. */
  function Program(calls: seq<Call>): seq<Kind> {
    if calls == [] then []
    else (if calls[0].givesUp.AtLock? then [] else [FirstKind(calls[0].c)] + Later(calls[0])) + Program(calls[1..])
  }

  /** The log entries that actions make. */
  function Kinds(acts: seq<EagerAction>): seq<Kind> {
    if acts == [] then []
    else
      (match acts[0]
       case First(_, c) => [FirstKind(c)]
       case Second(_, c) => SecondKinds(c)
       case _ => []) + Kinds(acts[1..])
  }

  /** What a process has still to log. */
  function ToLog(q: Proc, p: nat): seq<Kind> {
    Kinds(ToDo(q, p))
  }

  lemma {:induction false} KindsSplit(a: seq<EagerAction>, b: seq<EagerAction>)
    ensures Kinds(a + b) == Kinds(a) + Kinds(b)
    decreases |a|
  {
    if a == [] {
      assert a + b == b;
    } else {
      assert (a + b)[1..] == a[1..] + b;
      KindsSplit(a[1..], b);
    }
  }

  lemma {:induction false} ProgramLogs(calls: seq<Call>, p: nat)
    ensures Kinds(ProgramActs(calls, p)) == Program(calls)
  {
    if calls != [] {
      var k, rest := calls[0], ProgramActs(calls[1..], p);
      ProgramLogs(calls[1..], p);
      CallLogs(k, p);
      KindsSplit(if k.givesUp.AtLock? then [] else [First(p, k.c)] + LaterActs(k, p), rest);
    }
  }

  lemma CallLogs(k: Call, p: nat)
    ensures Kinds([First(p, k.c)] + LaterActs(k, p)) == [FirstKind(k.c)] + Later(k)
  {
    var first, second := [First(p, k.c)], [Second(p, k.c)];
    KindsSplit(first, LaterActs(k, p));
    KindsSplit(second, SlowActs(k.c, p));
    assert Kinds(first) == [FirstKind(k.c)] + Kinds([]) && Kinds(second) == SecondKinds(k.c) + Kinds([]);
    assert Kinds(SlowActs(k.c, p)) == [];
  }

  lemma OwnAppend(events: seq<Event>, x: Event, tag: nat)
    ensures Own(events + [x], tag) == Own(events, tag) + (if x.tag == tag then [x.kind] else [])
  {
    assert (events + [x])[..|events|] == events;
  }

  lemma OwnBefore(c: Command, tag: nat, f: File, t: nat)
    ensures Own(Before(c, tag, f).events, t) == Own(f.events, t) + (if tag == t then [FirstKind(c)] else [])
  {
    OwnAppend(f.events, Event(tag, FirstKind(c)), t);
  }

  lemma OwnAfter(c: Command, tag: nat, f: File, t: nat)
    ensures Own(After(c, tag, f).events, t) == Own(f.events, t) + (if tag == t then SecondKinds(c) else [])
  {
    OwnAppend(f.events, Event(tag, StartDone), t);
    OwnAppend(f.events, Event(tag, CopyDone), t);
  }

  /** The log holds of each helper what its actions have logged, in their order. */
  lemma {:induction false} ActionsLog(e: Eager, tr: seq<EagerAction>, t: nat)
    ensures Own(EagerRun(e, tr).f.events, t) == Own(e.f.events, t) + Kinds(OwnActs(tr, t))
    decreases |tr|
  {
    if tr != [] {
      var a, rest := tr[0], OwnActs(tr[1..], t);
      var here := if Tag(a) == Some(t) then [a] else [];
      ActionsLog(EagerNext(e, a), tr[1..], t);
      ActionLogs(e, a, t);
      KindsSplit(here, rest);
      Regroup(Own(e.f.events, t), Kinds(here), Kinds(rest));
    }
  }

  lemma ActionLogs(e: Eager, a: EagerAction, t: nat)
    ensures Own(EagerNext(e, a).f.events, t) == Own(e.f.events, t) + Kinds(if Tag(a) == Some(t) then [a] else [])
  {
    assert Kinds([a]) == (match a case First(_, c) => [FirstKind(c)] case Second(_, c) => SecondKinds(c) case _ => []) + Kinds([]);
    match a
    case First(tag, c) => OwnBefore(c, tag, e.f, t);
    case Second(tag, c) => OwnAfter(c, tag, e.f, t);
    case _ =>
  }

  /** Over any run, the entries of a helper with those it has still to make never change. */
  lemma TraceConservesLog(s: Sys, actions: seq<Action>, e: Eager, t: nat)
    requires t < |s.procs| && AllPlaced(s)
    ensures t < |Run(s, actions).procs|
    ensures Own(EagerRun(e, Trace(s, actions)).f.events, t) + ToLog(Run(s, actions).procs[t], t)
         == Own(e.f.events, t) + ToLog(s.procs[t], t)
  {
    var done := OwnActs(Trace(s, actions), t);
    ProgramIsKept(s, actions, t);
    ActionsLog(e, Trace(s, actions), t);
    var left := ToDo(Run(s, actions).procs[t], t);
    KindsSplit(done, left);
    Regroup(Own(e.f.events, t), Kinds(done), Kinds(left));
  }

  lemma IdleLog(q: Proc, p: nat)
    requires q.pc.Idle?
    ensures ToLog(q, p) == Program(q.calls)
  {
    ProgramLogs(q.calls, p);
  }

  /** The initial state: nobody has started, the lock directory does not exist. */
  ghost predicate Init(s: Sys) {
    && !s.mutex && s.printed == [] && s.file.events == []
    && forall p :: 0 <= p < |s.procs| ==> s.procs[p].pc.Idle?
  }

  /** The log in the file holds the program of helper t but for what is left of it, up to the entries
      of the one process that has unsaved work, and these are the last ones. */
  ghost predicate LogCurrent(r: Sys, t: nat, left: seq<Kind>, program: seq<Kind>) {
    && (forall p :: 0 <= p < |r.procs| && r.procs[p].pc.Dirty? ==>
          r.file.events <= r.procs[p].local.events && Own(r.procs[p].local.events, t) + left == program)
    && ((forall p :: 0 <= p < |r.procs| ==> !r.procs[p].pc.Dirty?) ==>
          Own(r.file.events, t) + left == program)
  }

  lemma MatchedLog(r: Sys, e: Eager, t: nat, left: seq<Kind>)
    requires Inv(r) && Matches(r, e)
    ensures LogCurrent(r, t, left, Own(e.f.events, t) + left)
  {
  }

  /** Whatever the interleaving, no entry is lost and each helper's entries are in program order,
      also across the sections it runs without the mutex. */
  lemma LogIsCurrent(s: Sys, actions: seq<Action>, t: nat)
    requires Init(s) && t < |s.procs|
    ensures t < |Run(s, actions).procs| && LogCurrent(Run(s, actions), t, ToLog(Run(s, actions).procs[t], t), Program(s.procs[t].calls))
  {
    var e := Eager(s.now, Settle(s.file, s.now), []);
    LazyRefinesEager(s, actions, e);
    RunIsExclusive(s, actions);
    TraceConservesLog(s, actions, e, t);
    IdleLog(s.procs[t], t);
    MatchedLog(Run(s, actions), EagerRun(e, Trace(s, actions)), t, ToLog(Run(s, actions).procs[t], t));
    assert Own(e.f.events, t) + ToLog(s.procs[t], t) == Program(s.procs[t].calls);
  }

  /** In a run that ends with all calls done, the part of each helper in the saved log is its
      program. */
  lemma LogIsComplete(s: Sys, actions: seq<Action>, t: nat)
    requires Init(s) && t < |s.procs|
    requires forall p :: 0 <= p < |Run(s, actions).procs| ==> Run(s, actions).procs[p].pc.Idle? && Run(s, actions).procs[p].calls == []
    ensures Own(Run(s, actions).file.events, t) == Program(s.procs[t].calls)
  {
    LogIsCurrent(s, actions, t);
  }
}
