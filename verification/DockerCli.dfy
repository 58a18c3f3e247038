/**
 Overlapping docker CLI processes that share the daemon's state file under a mkdir mutex. Each
 file-system call of a process is one step; the computation between two calls is part of the step
 of the call it follows, since nobody else can see the file in between. A process is a helper with
 its own tag that makes its calls one after the other. No process is killed while it holds the
 mutex.
 */
module DockerCli {
  import opened Prelude
  import opened Daemon

  /** Whether a call runs into the retry limit of the lock or of a wait, and where. */
  datatype GivesUp = Never | AtLock | AtWait

  datatype Call = Call(c: Command, givesUp: GivesUp)

  /** Program points. */
  datatype Pc =
    | Idle                 // no call under way
    | Locked(again: bool)  // mkdir has succeeded, the file is still to be read
    | Dirty(waits: bool)   // file read and settled; what was computed since is not saved
    | Parking              // saved, about to release the mutex for a wait
    | Parked               // waiting without the mutex
    | Sleeping             // a slow stop: saved, waiting for the daemon, mutex held
    | Leaving              // nothing left to save, the exit handler will release the mutex

  datatype Proc = Proc(pc: Pc, local: File, calls: seq<Call>)

  /** mutex says whether the lock directory exists. */
  datatype Sys = Sys(now: nat, mutex: bool, file: File, procs: seq<Proc>, printed: seq<Print>)

  datatype Action = Tick | Act(p: nat)

  predicate Holds(q: Proc) {
    q.pc.Locked? || q.pc.Dirty? || q.pc.Parking? || q.pc.Sleeping? || q.pc.Leaving?
  }

  function Put(s: Sys, p: nat, q: Proc): Sys
    requires p < |s.procs|
  {
    s.(procs := s.procs[p := q])
  }

  /** mkdir: it fails while the directory exists, and the process tries again later. */
  function TryLock(s: Sys, p: nat, again: bool): Sys
    requires p < |s.procs|
  {
    if s.mutex then s else Put(s.(mutex := true), p, s.procs[p].(pc := Locked(again)))
  }

  function EndCall(q: Proc): Proc
    requires q.calls != []
  {
    q.(pc := Idle, calls := q.calls[1..])
  }

  predicate Wakes(q: Proc, now: nat) {
    q.local.stopAt.Some? ==> now >= q.local.stopAt.value + 5
  }

  /** The next step of process p; its tag is p. */
  function Step(s: Sys, p: nat): Sys
    requires p < |s.procs|
  {
    var q := s.procs[p];
    if q.calls == [] then s
    else
      var c := q.calls[0].c;
      match q.pc
      case Idle => if q.calls[0].givesUp.AtLock? then Put(s, p, EndCall(q)) else TryLock(s, p, false)
      case Locked(false) =>
        var f := Settle(s.file, s.now);
        var g := Before(c, p, f);
        var s' := if c == Inspect(InspectRunning, false) then s.(printed := s.printed + [Print(p, f.running)]) else s;
        Put(s', p, q.(pc := Dirty(Waits(c)), local := if Waits(c) then g else After(c, p, g)))
      case Locked(true) => Put(s, p, q.(pc := Dirty(false), local := After(c, p, Settle(s.file, s.now))))
      case Dirty(true) => Put(s.(file := q.local), p, q.(pc := Parking))
      case Dirty(false) =>
        if IsSlow(c) then
          var g := Arm(q.local, s.now, c.delay);
          Put(s.(file := g), p, q.(pc := Sleeping, local := g))
        else
          Put(s.(file := q.local), p, q.(pc := Leaving))
      case Parking => Put(s.(mutex := false), p, q.(pc := Parked))
      case Parked => if q.calls[0].givesUp.AtWait? then Put(s, p, EndCall(q)) else TryLock(s, p, true)
      case Sleeping =>
        if Wakes(q, s.now) then Put(s, p, q.(pc := Leaving, local := Settle(s.file, s.now))) else s
      case Leaving => Put(s.(mutex := false), p, EndCall(q))
  }

  function Next(s: Sys, a: Action): Sys {
    match a
    case Tick => s.(now := s.now + 1)
    case Act(p) => if p < |s.procs| then Step(s, p) else s
  }

  function Run(s: Sys, actions: seq<Action>): Sys
    decreases |actions|
  {
    if actions == [] then s else Run(Next(s, actions[0]), actions[1..])
  }

  lemma {:induction false} RunSplits(s: Sys, a: seq<Action>, b: seq<Action>)
    ensures Run(s, a + b) == Run(Run(s, a), b)
    decreases |a|
  {
    if a == [] {
      assert a + b == b;
    } else {
      assert (a + b)[1..] == a[1..] + b;
      RunSplits(Next(s, a[0]), a[1..], b);
    }
  }

  // ------------------------------------------------------- mutual exclusion

  /** At most one process holds the mutex, and the directory exists exactly when one does. */
  ghost predicate Exclusive(s: Sys) {
    && (forall p, q :: 0 <= p < |s.procs| && 0 <= q < |s.procs| && Holds(s.procs[p]) && Holds(s.procs[q]) ==> p == q)
    && (s.mutex <==> exists p :: 0 <= p < |s.procs| && Holds(s.procs[p]))
  }

  /** Unsaved work starts from the log in the file; a call is under way outside Idle. */
  ghost predicate Consistent(s: Sys) {
    forall p :: 0 <= p < |s.procs| ==>
      && (s.procs[p].pc.Dirty? ==> s.file.events <= s.procs[p].local.events)
      && (s.procs[p].pc.Idle? || s.procs[p].calls != [])
  }

  ghost predicate Inv(s: Sys) {
    Exclusive(s) && Consistent(s)
  }

  lemma StepExclusive(s: Sys, p: nat)
    requires p < |s.procs| && Inv(s)
    ensures Exclusive(Step(s, p))
  {
    var s' := Step(s, p);
    assert forall q :: 0 <= q < |s.procs| && q != p ==> s'.procs[q] == s.procs[q];
    if s'.mutex && Holds(s'.procs[p]) {
      assert exists q :: 0 <= q < |s'.procs| && Holds(s'.procs[q]);
    }
    if s'.mutex && !Holds(s'.procs[p]) && s.mutex {
      var q :| 0 <= q < |s.procs| && Holds(s.procs[q]);
      assert Holds(s'.procs[q]);
    }
  }

  lemma StepConsistent(s: Sys, p: nat)
    requires p < |s.procs| && Inv(s)
    ensures Consistent(Step(s, p))
    ensures s.file.events <= Step(s, p).file.events
  {
    var s' := Step(s, p);
    forall q | 0 <= q < |s'.procs|
      ensures s'.procs[q].pc.Dirty? ==> s'.file.events <= s'.procs[q].local.events
      ensures s'.procs[q].pc.Idle? || s'.procs[q].calls != []
    {
      if q != p && s.procs[q].pc.Dirty? {
        assert !Holds(s.procs[p]);
      }
    }
  }

  lemma NextKeepsInv(s: Sys, a: Action)
    requires Inv(s)
    ensures Inv(Next(s, a)) && s.file.events <= Next(s, a).file.events
  {
    if a.Act? && a.p < |s.procs| {
      StepExclusive(s, a.p);
      StepConsistent(s, a.p);
    }
  }

  /** In every run at most one process holds the mutex, and the log in the file only grows. */
  lemma {:induction false} RunIsExclusive(s: Sys, actions: seq<Action>)
    requires Inv(s)
    ensures Inv(Run(s, actions)) && s.file.events <= Run(s, actions).file.events
    decreases |actions|
  {
    if actions != [] {
      NextKeepsInv(s, actions[0]);
      RunIsExclusive(Next(s, actions[0]), actions[1..]);
    }
  }
}
