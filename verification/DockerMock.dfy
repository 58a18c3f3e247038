/**
 One docker CLI process of the mock, as it changes the state file, the lock directory and its own
 copy of the state in place. What the other helpers do meanwhile is a parameter: how often mkdir
 finds the directory taken, how often a poll finds no marker, and the file they leave behind.
 */
module DockerMock {
  import opened Prelude
  import opened Daemon
  import opened DockerCli
  import Sessions

  /** The surroundings of one call. */
  datatype World = World(
    busy: nat,       // failing attempts to take the lock before the first that succeeds
    pause: Pause,    // what the unlocked section does
    left: File,      // the state file when the lock is taken again
    busyAgain: nat)

  /** Poll for a marker that is missing n times, or sleep. */
  datatype Pause = Poll(n: nat) | Sleep(ms: nat)

  /** The marker is missing more often than waitFor polls. */
  predicate Expires(p: Pause) {
    p.Poll? && p.n > 2001
  }

  function Min(a: nat, b: nat): nat {
    if a < b then a else b
  }

  /** The time at which the file is read for the second time, when it is first read at t. */
  function ReadAgainAt(t: nat, w: World): nat {
    t + (match w.pause case Poll(n) => 10 * n case Sleep(ms) => ms) + 2 * w.busyAgain
  }

  class Process {
    const tag: nat
    var now: nat
    var mutex: bool
    var held: bool
    var disk: File
    var state: File
    var printed: seq<Print>

    constructor (tag: nat, now: nat, mutex: bool, disk: File)
      ensures this.tag == tag && this.now == now && this.mutex == mutex && this.disk == disk && !held && printed == []
    {
      this.tag, this.now, this.mutex, this.held := tag, now, mutex, false;
      this.disk, this.state, this.printed := disk, disk, [];
    }

    /** lockState: the attempts numbered below busy find the directory. */
    method LockState(busy: nat) returns (ok: bool)
      requires !held
      modifies this`now, this`mutex, this`held
      ensures ok == held == (busy <= 5001) && now == old(now) + 2 * Min(busy, 5001)
      ensures mutex == (ok || old(mutex))
    {
      var i: nat := 0;
      while !held
        invariant i <= busy && i <= 5001 && now == old(now) + 2 * i
        invariant held ==> i == busy && mutex
        invariant !held ==> mutex == old(mutex)
        decreases !held, busy - i
      {
        if i == busy {
          mutex, held := true, true;
        } else if i > 5000 {
          return false;
        } else {
          now := now + 2;
          i := i + 1;
        }
      }
      ok := true;
    }

    method UnlockState()
      modifies this`mutex, this`held
      ensures !held && mutex == (old(mutex) && !old(held))
    {
      if held {
        mutex, held := false, false;
      }
    }

    method SettleState()
      modifies this`state
      ensures state == Settle(old(state), now)
    {
      if state.stopAt.Some? && now >= state.stopAt.value {
        state := state.(running := false, stopAt := None);
      }
    }

    method Push(kind: Kind)
      modifies this`state
      ensures state == old(state).(events := old(state).events + [Event(tag, kind)])
    {
      state := state.(events := state.events + [Event(tag, kind)]);
    }

    method Save()
      modifies this`disk
      ensures disk == state
    {
      disk := state;
    }

    method Wait(p: Pause) returns (ok: bool)
      modifies this`now
      ensures ok == (p.Poll? ==> p.n <= 2001)
      ensures now == old(now) + (match p case Poll(n) => 10 * Min(n, 2001) case Sleep(ms) => ms)
    {
      match p
      case Sleep(ms) =>
        now := now + ms;
        ok := true;
      case Poll(n) =>
        var i: nat := 0;
        while i < n
          invariant i <= n && i <= 2001 && now == old(now) + 10 * i
        {
          if i > 2000 {
            return false;
          }
          now := now + 10;
          i := i + 1;
        }
        ok := true;
    }

    /** unlocked: save, let the others run, and pick up what they left. */
    method Unlocked(w: World) returns (ok: bool)
      requires held && mutex
      modifies this`now, this`mutex, this`held, this`disk, this`state
      ensures ok == held == (!Expires(w.pause) && w.busyAgain <= 5001)
      ensures disk == w.left && (ok ==> mutex && now == ReadAgainAt(old(now), w) && state == Settle(w.left, now))
    {
      Save();
      UnlockState();
      ok := Wait(w.pause);
      disk := w.left;
      if ok {
        ok := LockState(w.busyAgain);
        if ok {
          state := disk;
          SettleState();
        }
      }
    }

    /** One call from the first mkdir to the exit handler. It gives up without a trace when the lock
        or the wait runs into its limit. Otherwise it leaves the file that the daemon's transitions
        give: those of the state read first, or, after a wait, of the state read again. */
    method Invoke(c: Command, w: World) returns (done: bool)
      requires !held
      modifies this
      ensures !held && (done ==> !mutex)
      ensures done <==> w.busy <= 5001 && (Waits(c) ==> !Expires(w.pause) && w.busyAgain <= 5001)
      ensures !done ==> disk == if w.busy > 5001 then old(disk) else w.left
      ensures done ==> var t := old(now) + 2 * w.busy;
                var first := Before(c, tag, Settle(old(disk), t));
                var t' := if Waits(c) then ReadAgainAt(t, w) else t;
                var second := After(c, tag, if Waits(c) then Settle(w.left, t') else first);
                disk == if IsSlow(c) then Arm(second, t', c.delay) else second
      ensures done && c.Stop? && !c.fails && c.delay > 0 ==>
                var t := old(now) + 2 * w.busy;
                var t' := if c.waits then ReadAgainAt(t, w) else t;
                var found := Settle(if c.waits then w.left else old(disk), t');
                disk.running == found.running
                && disk.stopAt == (if found.running && found.stopAt == None then Some(t' + c.delay) else found.stopAt)
      ensures done && c == Inspect(InspectRunning, false) ==>
                printed == old(printed) + [Print(tag, Settle(old(disk), old(now) + 2 * w.busy).running)]
      ensures c != Inspect(InspectRunning, false) ==> printed == old(printed)
    {
      done := LockState(w.busy);
      if !done {
        return;
      }
      state := disk;
      SettleState();
      Push(FirstKind(c));
      match c {
        case Inspect(kind, fails) =>
          if !fails && kind == InspectRunning { printed := printed + [Print(tag, state.running)]; }
          Save();
        case Stop(waits, _, _, _) =>
          if waits { done := Unlocked(w); }
          if done { FinishStop(c); }
        case Start(fails, noop, slow) =>
          if !fails && !noop {
            if slow { done := Unlocked(w); }
            if done {
              Push(StartDone);
              state := state.(running := true);
            }
          }
          if done { Save(); }
        case Copy(pause, fails) =>
          state := state.(copiedWhileRunning := state.copiedWhileRunning + [state.running]);
          if pause {
            done := Unlocked(w);
            if done { state := state.(walCopyRunning := state.walCopyRunning + [state.running]); }
          }
          if done {
            if !fails { Push(CopyDone); }
            Save();
          }
        case Plain => Save();
      }
      UnlockState();
    }

    method FinishStop(c: Command)
      requires c.Stop?
      modifies this`state, this`disk, this`now
      ensures disk ==
                if !c.fails && c.delay > 0 then
                  if old(state).running && old(state).stopAt == None then old(state).(stopAt := Some(old(now) + c.delay)) else old(state)
                else if c.fails || c.noop then old(state)
                else old(state).(running := false)
      ensures disk == if IsSlow(c) then Arm(old(state), old(now), c.delay) else After(c, tag, old(state))
    {
      if c.fails {
        Save();
      } else if c.delay > 0 {
        if state.running && state.stopAt.None? { state := state.(stopAt := Some(now + c.delay)); }
        Save();
        if state.stopAt.Some? && state.stopAt.value + 5 > now { now := state.stopAt.value + 5; }
        state := disk;
        SettleState();
      } else {
        if !c.noop { state := state.(running := false); }
        Save();
      }
    }
  }

  // ------------------------------------------- the call in the transition system

  function Acts(p: nat, n: nat): (r: seq<Action>)
    ensures |r| == n
  {
    seq(n, _ => Act(p))
  }

  lemma RunMore(s: Sys, p: nat, n: nat)
    requires n > 0 && p < |s.procs|
    ensures Run(s, Acts(p, n)) == Run(Step(s, p), Acts(p, n - 1))
  {
    assert Acts(p, n)[1..] == Acts(p, n - 1);
  }

  /** Process p is about to start the call c and finds the mutex free. */
  ghost predicate Starts(s: Sys, p: nat, c: Command) {
    p < |s.procs| && !s.mutex && s.procs[p].pc.Idle? && s.procs[p].calls != [] && s.procs[p].calls[0] == Call(c, Never)
  }

  /** Steps of p alone: time stands still, the other processes do not move, and p has its calls
      left from the k-th on. */
  ghost predicate Alone(s: Sys, r: Sys, p: nat, k: nat) {
    && p < |s.procs| == |r.procs| && r.now == s.now && k <= |s.procs[p].calls| && r.procs[p].calls == s.procs[p].calls[k..]
    && forall q :: 0 <= q < |s.procs| && q != p ==> r.procs[q] == s.procs[q]
  }

  /** The call of p has ended, with this file. */
  ghost predicate Finished(s: Sys, r: Sys, p: nat, file: File) {
    Alone(s, r, p, 1) && r.procs[p].pc.Idle? && !r.mutex && r.file == file
  }

  /** The call of p has saved this file and sleeps until its deadline, with the mutex. */
  ghost predicate Asleep(s: Sys, r: Sys, p: nat, file: File) {
    && Alone(s, r, p, 0) && r.procs[p].pc.Sleeping? && r.procs[p].calls != [] && r.mutex
    && r.file == file && r.procs[p].local == file
  }

  /** Four steps of one process (mkdir, read, save, rmdir) have the effect Invoke states for a call
      that waits for nobody, and three of them that of a slow stop up to its sleep. */
  lemma StepsAreInvoke(s: Sys, p: nat, c: Command)
    requires Starts(s, p, c) && !Waits(c)
    ensures var second := After(c, p, Before(c, p, Settle(s.file, s.now)));
            if IsSlow(c) then Asleep(s, Run(s, Acts(p, 3)), p, Arm(second, s.now, c.delay))
            else Finished(s, Run(s, Acts(p, 4)), p, second)
  {
    var s1 := Step(s, p);
    var s2 := Step(s1, p);
    var s3 := Step(s2, p);
    RunMore(s, p, 3); RunMore(s1, p, 2); RunMore(s2, p, 1);
    RunMore(s, p, 4); RunMore(s1, p, 3); RunMore(s2, p, 2); RunMore(s3, p, 1);
  }

  /** A call that waits: four steps up to the release of the mutex, with the first entry saved. */
  lemma StepsBeforeWait(s: Sys, p: nat, c: Command)
    requires Starts(s, p, c) && Waits(c)
    ensures var r := Run(s, Acts(p, 4));
            r.file == Before(c, p, Settle(s.file, s.now)) && Waiting(r, p, c) && Alone(s, r, p, 0)
  {
    var s1 := Step(s, p);
    var s2 := Step(s1, p);
    var s3 := Step(s2, p);
    RunMore(s, p, 4); RunMore(s1, p, 3); RunMore(s2, p, 2); RunMore(s3, p, 1);
  }

  /** Process p is in the unlocked section of its call c, and nobody has the mutex. */
  ghost predicate Waiting(s: Sys, p: nat, c: Command) {
    p < |s.procs| && !s.mutex && s.procs[p].pc.Parked? && s.procs[p].calls != [] && s.procs[p].calls[0] == Call(c, Never)
  }

  /** After the wait, from whatever file the others left: the effect Invoke states. */
  lemma StepsAfterWait(s: Sys, p: nat, c: Command)
    requires Waiting(s, p, c)
    ensures var second := After(c, p, Settle(s.file, s.now));
            if IsSlow(c) then Asleep(s, Run(s, Acts(p, 3)), p, Arm(second, s.now, c.delay))
            else Finished(s, Run(s, Acts(p, 4)), p, second)
  {
    var s1 := Step(s, p);
    var s2 := Step(s1, p);
    var s3 := Step(s2, p);
    RunMore(s, p, 3); RunMore(s1, p, 2); RunMore(s2, p, 1);
    RunMore(s, p, 4); RunMore(s1, p, 3); RunMore(s2, p, 2); RunMore(s3, p, 1);
  }

  /** The rest of a slow stop: once the deadline it saved is 5 ms past, two more steps end the call and
      free the mutex, and the settled state it has read is not saved. Before that it does not move. */
  lemma SlowStopEnds(s: Sys, m: Sys, p: nat, file: File, ticks: seq<Action>)
    requires Asleep(s, m, p, file) && forall a :: a in ticks ==> a.Tick?
    ensures var t := Run(m, ticks);
            var r := Run(t, Acts(p, 2));
            && t == m.(now := m.now + |ticks|)
            && (if file.stopAt.Some? && t.now < file.stopAt.value + 5 then r == t
                else Finished(s, r.(now := s.now), p, file) && r.now == t.now)
  {
    TicksPass(m, ticks);
    var t := m.(now := m.now + |ticks|);
    var t1 := Step(t, p);
    RunMore(t, p, 2);
    RunMore(t1, p, 1);
    assert Run(t, Acts(p, 2)) == Step(t1, p);
  }

  lemma {:induction false} TicksPass(s: Sys, ticks: seq<Action>)
    requires forall a :: a in ticks ==> a.Tick?
    ensures Run(s, ticks) == s.(now := s.now + |ticks|)
    decreases |ticks|
  {
    if ticks != [] {
      assert ticks[0] in ticks;
      TicksPass(Next(s, ticks[0]), ticks[1..]);
    }
  }

  // ------------------------------------------------------ the overlap is reachable

  /** The sessions of the overlap driver: the first helper pauses before the WALs, the other one has
      a second session after its first. */
  const FIRST := Sessions.Session(true, true, 0, true, false)
  const SECOND := Sessions.Session(true, true, 0, false, false)

  /** Two helpers about to run these sessions on a running container. */
  ghost predicate Drives(s: Sys) {
    && Sessions.Calm(s) && |s.procs| == 2 && s.file.running && s.file.stopAt.None?
    && s.procs[0].calls == Sessions.Script(FIRST) && s.procs[1].calls == Sessions.Script(SECOND) + Sessions.Script(SECOND)
  }

  /** The k-th call of helper p. */
  function CallOf(p: nat, k: nat): Option<Command> {
    if p == 0 && k >= 4 then None
    else
      match k
      case 0 => Some(Inspect(InspectRunning, false))
      case 1 => Some(Stop(true, false, 0, false))
      case 2 => Some(Copy(p == 0, false))
      case 3 => Some(Start(false, false, false))
      case 4 => Some(Inspect(InspectRunning, false))
      case 5 => Some(Stop(true, false, 0, false))
      case _ => None
  }

  /** Process q has made k calls of helper p, and waits inside the next one or not. */
  ghost predicate At(q: Proc, p: nat, m: Moment) {
    && q.pc == (if m.waits then Parked else Idle)
    && forall j: nat :: m.k <= j && CallOf(p, j).Some? ==>
         j - m.k < |q.calls| && q.calls[j - m.k] == Call(CallOf(p, j).value, Never)
  }

  datatype Moment = Moment(k: nat, waits: bool)

  /** How far the two helpers are, and what the file says. */
  datatype View = View(a: Moment, b: Moment, running: bool, wal: seq<bool>)

  ghost predicate Shows(s: Sys, v: View) {
    && |s.procs| == 2 && !s.mutex && s.file.stopAt.None?
    && At(s.procs[0], 0, v.a) && At(s.procs[1], 1, v.b)
    && s.file.running == v.running && s.file.walCopyRunning == v.wal
  }

  predicate Pauses(c: Command, m: Moment) {
    Waits(c) && !m.waits
  }

  function MovedOn(c: Command, m: Moment): Moment {
    if Pauses(c, m) then Moment(m.k, true) else Moment(m.k + 1, false)
  }

  /** The helper moves on by one call, or by half a call that waits. */
  function Turn(v: View, p: nat): Option<View> {
    var m := if p == 0 then v.a else v.b;
    var c := CallOf(p, m.k);
    if p > 1 || c.None? || (m.waits && !Waits(c.value)) then None
    else
      var v' := if p == 0 then v.(a := MovedOn(c.value, m)) else v.(b := MovedOn(c.value, m));
      Some(if Pauses(c.value, m) then v'
           else if c.value.Stop? then v'.(running := false)
           else if c.value.Start? then v'.(running := true)
           else if c.value.Copy? && m.waits then v'.(wal := v.wal + [v.running])
           else v')
  }

  lemma TurnIsRun(s: Sys, v: View, p: nat)
    requires Shows(s, v) && Turn(v, p).Some?
    ensures Shows(Run(s, Acts(p, 4)), Turn(v, p).value)
  {
    var m := if p == 0 then v.a else v.b;
    var c := CallOf(p, m.k).value;
    var q := s.procs[p];
    assert At(q, p, m);
    if m.waits {
      StepsAfterWait(s, p, c);
    } else if Waits(c) {
      StepsBeforeWait(s, p, c);
    } else {
      StepsAreInvoke(s, p, c);
    }
    Shifted(q, Run(s, Acts(p, 4)).procs[p], p, m, c);
  }

  lemma Shifted(q: Proc, r: Proc, p: nat, m: Moment, c: Command)
    requires At(q, p, m) && CallOf(p, m.k) == Some(c) && q.calls != []
    requires r.pc == (if MovedOn(c, m).waits then Parked else Idle)
    requires r.calls == if Pauses(c, m) then q.calls else q.calls[1..]
    ensures At(r, p, MovedOn(c, m))
  {
  }

  /** Who moves: four steps for each turn. */
  function Rounds(turns: seq<nat>): seq<Action> {
    if turns == [] then [] else Acts(turns[0], 4) + Rounds(turns[1..])
  }

  function Turns(v: View, turns: seq<nat>): Option<View>
    decreases |turns|
  {
    if turns == [] then Some(v)
    else if Turn(v, turns[0]).None? then None
    else Turns(Turn(v, turns[0]).value, turns[1..])
  }

  lemma {:induction false} TurnsAreRun(s: Sys, v: View, turns: seq<nat>)
    requires Shows(s, v) && Turns(v, turns).Some?
    ensures Shows(Run(s, Rounds(turns)), Turns(v, turns).value)
    decreases |turns|
  {
    if turns != [] {
      TurnIsRun(s, v, turns[0]);
      TurnsAreRun(Run(s, Acts(turns[0], 4)), Turn(v, turns[0]).value, turns[1..]);
      RunSplits(s, Acts(turns[0], 4), Rounds(turns[1..]));
    }
  }

  lemma TwoTurns(v: View, p: nat, q: nat, turns: seq<nat>)
    requires Turn(v, p).Some? && Turn(Turn(v, p).value, q).Some?
    ensures Turns(v, [p, q] + turns) == Turns(Turn(Turn(v, p).value, q).value, turns)
  {
    assert ([p, q] + turns)[1..] == [q] + turns && ([q] + turns)[1..] == turns;
  }

  /** Both helpers inspect; the first stops and pauses in its copy; the other stops, copies and
      starts; the first goes on. */
  const OVERLAP: seq<nat> := [0, 1] + ([0, 0] + ([0, 1] + ([1, 1] + ([1, 0] + []))))

  /** In the transition system, helpers that do not serialise their sessions reach the copy of a WAL
      from a running container, from every state in which the driver starts them. */
  lemma OverlapIsReachable(s: Sys)
    requires Drives(s)
    ensures Run(s, Rounds(OVERLAP)).file.walCopyRunning == s.file.walCopyRunning + [true]
  {
    DriverStarts(s);
    OverlapTurns(s.file.walCopyRunning);
    TurnsAreRun(s, Begin(s.file.walCopyRunning), OVERLAP);
  }

  function Begin(wal: seq<bool>): View {
    View(Moment(0, false), Moment(0, false), true, wal)
  }

  lemma DriverStarts(s: Sys)
    requires Drives(s)
    ensures Shows(s, Begin(s.file.walCopyRunning))
  {
    assert s.procs[0].pc.Idle? && s.procs[1].pc.Idle?;
  }

  lemma FirstTurns(wal: seq<bool>, rest: seq<nat>)
    ensures Turns(Begin(wal), [0, 1] + ([0, 0] + rest)) == Turns(View(Moment(2, false), Moment(1, false), false, wal), rest)
  {
    TwoTurns(Begin(wal), 0, 1, [0, 0] + rest);
    TwoTurns(View(Moment(1, false), Moment(1, false), true, wal), 0, 0, rest);
  }

  lemma MiddleTurns(wal: seq<bool>, rest: seq<nat>)
    ensures Turns(View(Moment(2, false), Moment(1, false), false, wal), [0, 1] + ([1, 1] + rest))
         == Turns(View(Moment(2, true), Moment(3, false), false, wal), rest)
  {
    TwoTurns(View(Moment(2, false), Moment(1, false), false, wal), 0, 1, [1, 1] + rest);
    TwoTurns(View(Moment(2, true), Moment(1, true), false, wal), 1, 1, rest);
  }

  lemma OverlapTurns(wal: seq<bool>)
    ensures Turns(Begin(wal), OVERLAP) == Some(View(Moment(3, false), Moment(4, false), true, wal + [true]))
  {
    FirstTurns(wal, [0, 1] + ([1, 1] + ([1, 0] + [])));
    MiddleTurns(wal, [1, 0] + []);
    TwoTurns(View(Moment(2, true), Moment(3, false), false, wal), 1, 0, []);
  }

  /** As before, but the other helper stops the container once more before the first goes on. */
  const OVERLAP_STOPPED: seq<nat> := [0, 1] + ([0, 0] + ([0, 1] + ([1, 1] + ([1, 1] + ([1, 1] + ([0, 0] + []))))))

  /** A start between a helper's stop and its copy alone is not enough: a later stop hides it. */
  lemma LaterStopHidesStart(s: Sys)
    requires Drives(s)
    ensures Run(s, Rounds(OVERLAP_STOPPED)).file.walCopyRunning == s.file.walCopyRunning + [false]
  {
    DriverStarts(s);
    StoppedTurns(s.file.walCopyRunning);
    TurnsAreRun(s, Begin(s.file.walCopyRunning), OVERLAP_STOPPED);
  }

  lemma StoppedTurns(wal: seq<bool>)
    ensures Turns(Begin(wal), OVERLAP_STOPPED) == Some(View(Moment(4, false), Moment(6, false), true, wal + [false]))
  {
    FirstTurns(wal, [0, 1] + ([1, 1] + ([1, 1] + ([1, 1] + ([0, 0] + [])))));
    MiddleTurns(wal, [1, 1] + ([1, 1] + ([0, 0] + [])));
    TwoTurns(View(Moment(2, true), Moment(3, false), false, wal), 1, 1, [1, 1] + ([0, 0] + []));
    TwoTurns(View(Moment(2, true), Moment(5, false), true, wal), 1, 1, [0, 0] + []);
    TwoTurns(View(Moment(2, true), Moment(6, false), false, wal), 0, 0, []);
  }
}
