/**
 The fake clock of the analytics warm-up test: a discrete-event scheduler whose callbacks may set
 and clear timers while advance runs. A callback together with the promise work it starts (the
 flush after it) is one deterministic step, given by a Behaviour. A callback is named by the id of
 its timer: an id is handed out once.
 */
module FakeClock {
  import opened Prelude

  /** An entry of the timers map; the map is kept as the sequence of its entries in insertion order. */
  datatype Timer = Timer(id: nat, at: int)

  datatype Clock = Clock(now: int, nextId: nat, timers: seq<Timer>)

  /** What a callback asks of the clock. */
  datatype Command = Set(ms: int) | Clear(id: nat)

  datatype Firing = Firing(id: nat, at: int, when: int)

  /** A clock with the history of fired timers and the ids that were cleared while pending. */
  datatype State = State(clock: Clock, fired: seq<Firing>, cleared: set<nat>)

  type Behaviour = (Clock, seq<Firing>, nat) -> seq<Command>

  // ----------------------------------------------------- the clock's methods

  function SetTimeout(c: Clock, ms: int): Clock {
    c.(nextId := c.nextId + 1, timers := c.timers + [Timer(c.nextId, c.now + ms)])
  }

  /** timers.delete(id) */
  function Without(timers: seq<Timer>, id: nat): (r: seq<Timer>)
    ensures forall t :: t in r <==> t in timers && t.id != id
  {
    if timers == [] then []
    else if timers[0].id == id then Without(timers[1..], id)
    else [timers[0]] + Without(timers[1..], id)
  }

  /** No other entry has the id of entry k. */
  predicate OnlyAt(timers: seq<Timer>, k: nat)
    requires k < |timers|
  {
    forall i :: 0 <= i < |timers| && i != k ==> timers[i].id != timers[k].id
  }

  lemma {:induction false} WithoutNone(timers: seq<Timer>, id: nat)
    requires forall t :: t in timers ==> t.id != id
    ensures Without(timers, id) == timers
  {
    if timers != [] { WithoutNone(timers[1..], id); }
  }

  /** Deleting an entry leaves the others in their order. */
  lemma {:induction false} WithoutOne(timers: seq<Timer>, k: nat)
    requires k < |timers| && OnlyAt(timers, k)
    ensures Without(timers, timers[k].id) == timers[..k] + timers[k + 1..]
  {
    var rest := timers[1..];
    if k == 0 {
      WithoutNone(rest, timers[0].id);
      assert timers[..0] + rest == rest;
    } else {
      WithoutOne(rest, k - 1);
      assert [timers[0]] + (rest[..k - 1] + rest[k..]) == timers[..k] + timers[k + 1..];
    }
  }

  predicate Pending(timers: seq<Timer>, id: nat) {
    exists t :: t in timers && t.id == id
  }

  function Execute(s: State, command: Command): State {
    match command
    case Set(ms) => s.(clock := SetTimeout(s.clock, ms))
    case Clear(id) =>
      State(s.clock.(timers := Without(s.clock.timers, id)), s.fired,
            if Pending(s.clock.timers, id) then s.cleared + {id} else s.cleared)
  }

  function ExecuteAll(s: State, commands: seq<Command>): State
    decreases |commands|
  {
    if commands == [] then s else ExecuteAll(Execute(s, commands[0]), commands[1..])
  }

  predicate Due(c: Clock, end: int) {
    exists t :: t in c.timers && t.at <= end
  }

  /** The earliest due timer; of several with the same time, the one inserted first. */
  ghost predicate IsNext(timers: seq<Timer>, end: int, k: nat) {
    && k < |timers| && timers[k].at <= end
    && (forall i :: 0 <= i < |timers| ==> timers[k].at <= timers[i].at)
    && (forall i :: 0 <= i < k ==> timers[k].at < timers[i].at)
  }

  /** The scan over the map entries: best is the index chosen among the first k entries. */
  function Scan(timers: seq<Timer>, end: int, k: nat, best: int): int
    requires -1 <= best < k <= |timers|
    decreases |timers| - k
  {
    if k == |timers| then best
    else if timers[k].at <= end && (best < 0 || timers[k].at < timers[best].at) then Scan(timers, end, k + 1, k)
    else Scan(timers, end, k + 1, best)
  }

  /** What the scan has chosen after k entries. */
  ghost predicate BestOf(timers: seq<Timer>, end: int, k: nat, best: int)
    requires k <= |timers|
  {
    if best < 0 then best == -1 && forall i :: 0 <= i < k ==> timers[i].at > end
    else best < k && IsNext(timers[..k], end, best)
  }

  lemma {:induction false} ScanFindsNext(timers: seq<Timer>, end: int, k: nat, best: int)
    requires k <= |timers| && BestOf(timers, end, k, best)
    ensures BestOf(timers, end, |timers|, Scan(timers, end, k, best))
    decreases |timers| - k
  {
    if k < |timers| {
      var best' := if timers[k].at <= end && (best < 0 || timers[k].at < timers[best].at) then k else best;
      assert BestOf(timers, end, k + 1, best') by {
        assert forall i :: 0 <= i < k ==> timers[..k][i] == timers[..k + 1][i];
      }
      ScanFindsNext(timers, end, k + 1, best');
    }
  }

  /** The timer the loop picks is the earliest due one with ties in insertion order, and there is
      a pick exactly when a timer is due. */
  lemma PickIsEarliest(timers: seq<Timer>, end: int)
    ensures var k := Scan(timers, end, 0, -1);
            if k < 0 then k == -1 && forall t :: t in timers ==> t.at > end
            else IsNext(timers, end, k)
  {
    ScanFindsNext(timers, end, 0, -1);
    assert timers[..|timers|] == timers;
  }

  lemma NextIsUnique(timers: seq<Timer>, end: int, end': int, k: nat, k': nat)
    requires IsNext(timers, end, k) && IsNext(timers, end', k')
    ensures k == k'
  {
    assert timers[k].at <= timers[k'].at && timers[k'].at <= timers[k].at;
  }

  function Max(a: int, b: int): int {
    if a < b then b else a
  }

  function Picked(c: Clock, end: int): (t: Timer)
    requires Due(c, end)
    ensures t in c.timers && t.at <= end
  {
    PickIsEarliest(c.timers, end);
    c.timers[Scan(c.timers, end, 0, -1)]
  }

  /** One turn of the loop in advance. */
  function Fire(b: Behaviour, s: State, end: int): State
    requires Due(s.clock, end)
  {
    var t := Picked(s.clock, end);
    var clock := s.clock.(now := Max(s.clock.now, t.at), timers := Without(s.clock.timers, t.id));
    ExecuteAll(State(clock, s.fired + [Firing(t.id, t.at, clock.now)], s.cleared), b(clock, s.fired, t.id))
  }

  // -------------------------------------------------------------- advance

  /** A loop by its body: the next state, or None when the loop ends. */
  type Loop = State -> Option<State>

  /** The loop of advance up to the given time. */
  function Until(b: Behaviour, end: int): Loop {
    (s: State) => if Due(s.clock, end) then Some(Fire(b, s, end)) else None
  }

  /** The loop ends after exactly n turns. */
  predicate Halts(f: Loop, s: State, n: nat)
    decreases n
  {
    if n == 0 then f(s).None? else f(s).Some? && Halts(f, f(s).value, n - 1)
  }

  function Turns(f: Loop, s: State, n: nat): State
    requires Halts(f, s, n)
    decreases n
  {
    if n == 0 then s else Turns(f, f(s).value, n - 1)
  }

  function AtTime(s: State, now: int): State {
    s.(clock := s.clock.(now := now))
  }

  ghost predicate Ends(f: Loop, s: State) {
    exists n: nat :: Halts(f, s, n)
  }

  ghost function Last(f: Loop, s: State): State
    requires Ends(f, s)
  {
    var n: nat :| Halts(f, s, n);
    Turns(f, s, n)
  }

  /** advance up to the time end comes to an end. */
  ghost predicate Terminates(b: Behaviour, s: State, end: int) {
    Ends(Until(b, end), s)
  }

  /** The state that advance(end - now) leaves behind. */
  ghost function Advance(b: Behaviour, s: State, end: int): State
    requires Terminates(b, s, end)
  {
    AtTime(Last(Until(b, end), s), end)
  }

  lemma {:induction false} HaltsOnce(f: Loop, s: State, m: nat, n: nat)
    requires Halts(f, s, m) && Halts(f, s, n)
    ensures m == n
    decreases m
  {
    if m > 0 && n > 0 {
      HaltsOnce(f, f(s).value, m - 1, n - 1);
    }
  }

  lemma TurnsStep(f: Loop, s: State, n: nat)
    requires Halts(f, s, n)
    ensures f(s).None? ==> n == 0
    ensures f(s).Some? ==> n > 0 && Halts(f, f(s).value, n - 1) && Turns(f, f(s).value, n - 1) == Turns(f, s, n)
  {
  }

  lemma LastIs(f: Loop, s: State, n: nat)
    requires Halts(f, s, n)
    ensures Ends(f, s) && Last(f, s) == Turns(f, s, n)
  {
    var m: nat :| Halts(f, s, m) && Last(f, s) == Turns(f, s, m);
    HaltsOnce(f, s, m, n);
  }

  // --------------------------------------------- advancing twice is advancing once

  lemma {:induction false} ExecuteAllFrame(s: State, commands: seq<Command>)
    ensures var r := ExecuteAll(s, commands);
            && r.clock.now == s.clock.now && s.clock.nextId <= r.clock.nextId && r.fired == s.fired
            && (forall t :: t in r.clock.timers ==> t in s.clock.timers || t.id >= s.clock.nextId)
    decreases |commands|
  {
    if commands != [] {
      ExecuteAllFrame(Execute(s, commands[0]), commands[1..]);
    }
  }

  /** As long as a timer is due by mid, the loop up to a later end makes the same turn. */
  lemma SameTurn(b: Behaviour, s: State, mid: int, end: int)
    requires mid <= end && Due(s.clock, mid)
    ensures Due(s.clock, end) && Fire(b, s, mid) == Fire(b, s, end)
    ensures s.clock.now <= mid ==> Fire(b, s, mid).clock.now <= mid
  {
    var timers := s.clock.timers;
    PickIsEarliest(timers, mid);
    PickIsEarliest(timers, end);
    NextIsUnique(timers, mid, end, Scan(timers, mid, 0, -1), Scan(timers, end, 0, -1));
    var t := Picked(s.clock, mid);
    var clock := s.clock.(now := Max(s.clock.now, t.at), timers := Without(timers, t.id));
    ExecuteAllFrame(State(clock, s.fired + [Firing(t.id, t.at, clock.now)], s.cleared), b(clock, s.fired, t.id));
  }

  /** With nothing due by mid, it does not matter whether the clock already shows mid. */
  lemma SameLateTurn(b: Behaviour, s: State, mid: int, end: int)
    requires s.clock.now <= mid <= end && !Due(s.clock, mid)
    ensures Until(b, end)(AtTime(s, mid)) == Until(b, end)(s)
  {
    if Due(s.clock, end) {
      assert Picked(s.clock, end).at > mid;
    }
  }

  predicate Early(s: State, mid: int) {
    s.clock.now <= mid
  }

  /** What the loops f up to mid and g beyond mid have in common. */
  ghost predicate Compatible(f: Loop, g: Loop, mid: int) {
    forall s: State {:trigger Early(s, mid)} :: Early(s, mid) ==>
      if f(s).Some? then g(s) == f(s) && Early(f(s).value, mid) else g(AtTime(s, mid)) == g(s)
  }

  lemma UntilCompatible(b: Behaviour, mid: int, end: int)
    requires mid <= end
    ensures Compatible(Until(b, mid), Until(b, end), mid)
  {
    var f, g := Until(b, mid), Until(b, end);
    forall s: State | Early(s, mid)
      ensures if f(s).Some? then g(s) == f(s) && Early(f(s).value, mid) else g(AtTime(s, mid)) == g(s)
    {
      if Due(s.clock, mid) {
        SameTurn(b, s, mid, end);
      } else {
        SameLateTurn(b, s, mid, end);
      }
    }
  }

  lemma LateStart(f: Loop, g: Loop, mid: int, s: State, n: nat)
    requires Compatible(f, g, mid) && Early(s, mid) && f(s).None?
    ensures Halts(g, AtTime(s, mid), n) <==> Halts(g, s, n)
    ensures Halts(g, s, n) ==> forall end ::
              AtTime(Turns(g, AtTime(s, mid), n), end) == AtTime(Turns(g, s, n), end)
  {
  }

  lemma {:induction false} Join(f: Loop, g: Loop, mid: int, s: State, i: nat, j: nat)
    requires Compatible(f, g, mid) && Early(s, mid)
    requires Halts(f, s, i) && Halts(g, AtTime(Turns(f, s, i), mid), j)
    ensures Halts(g, s, i + j)
    ensures forall end :: AtTime(Turns(g, s, i + j), end) == AtTime(Turns(g, AtTime(Turns(f, s, i), mid), j), end)
    decreases i
  {
    if i == 0 {
      LateStart(f, g, mid, s, j);
    } else {
      Join(f, g, mid, f(s).value, i - 1, j);
    }
  }

  lemma {:induction false} Split(f: Loop, g: Loop, mid: int, s: State, n: nat) returns (i: nat)
    requires Compatible(f, g, mid) && Early(s, mid) && Halts(g, s, n)
    ensures i <= n && Halts(f, s, i) && Halts(g, AtTime(Turns(f, s, i), mid), n - i)
    decreases n
  {
    if f(s).Some? {
      i := Split(f, g, mid, f(s).value, n - 1);
      i := i + 1;
    } else {
      LateStart(f, g, mid, s, n);
      i := 0;
    }
  }

  lemma LoopIsAdditive(f: Loop, g: Loop, mid: int, end: int, s: State)
    requires Compatible(f, g, mid) && Early(s, mid)
    ensures Ends(g, s) <==> Ends(f, s) && Ends(g, AtTime(Last(f, s), mid))
    ensures Ends(g, s) ==> AtTime(Last(g, AtTime(Last(f, s), mid)), end) == AtTime(Last(g, s), end)
  {
    if Ends(g, s) {
      var n: nat :| Halts(g, s, n);
      var i := Split(f, g, mid, s, n);
      LastIs(f, s, i);
      LastIs(g, AtTime(Last(f, s), mid), n - i);
      LastIs(g, s, n);
      Join(f, g, mid, s, i, n - i);
    }
    if Ends(f, s) && Ends(g, AtTime(Last(f, s), mid)) {
      var i: nat :| Halts(f, s, i);
      LastIs(f, s, i);
      var j: nat :| Halts(g, AtTime(Last(f, s), mid), j);
      Join(f, g, mid, s, i, j);
    }
  }

  /** advance(mid - now); advance(end - mid) and advance(end - now) end together or not at all,
      and when they end they leave the same clock, pending timers and history. */
  lemma AdvanceIsAdditive(b: Behaviour, s: State, mid: int, end: int)
    requires s.clock.now <= mid <= end
    ensures Terminates(b, s, end) <==> Terminates(b, s, mid) && Terminates(b, Advance(b, s, mid), end)
    ensures Terminates(b, s, end) ==> Advance(b, Advance(b, s, mid), end) == Advance(b, s, end)
  {
    UntilCompatible(b, mid, end);
    LoopIsAdditive(Until(b, mid), Until(b, end), mid, end, s);
  }

  // ------------------------------------------------------ every id has one fate

  function CountTimers(timers: seq<Timer>, id: nat): nat {
    if timers == [] then 0 else (if timers[0].id == id then 1 else 0) + CountTimers(timers[1..], id)
  }

  function CountFired(fired: seq<Firing>, id: nat): nat {
    if fired == [] then 0
    else CountFired(fired[..|fired| - 1], id) + (if fired[|fired| - 1].id == id then 1 else 0)
  }

  function Tally(s: State, id: nat): nat {
    CountTimers(s.clock.timers, id) + CountFired(s.fired, id) + (if id in s.cleared then 1 else 0)
  }

  /** Each id handed out is pending, fired once or cleared, and only one of these. */
  ghost predicate Accounted(s: State) {
    forall id: nat :: Tally(s, id) == if 1 <= id < s.clock.nextId then 1 else 0
  }

  lemma {:induction false} CountAppend(timers: seq<Timer>, t: Timer, id: nat)
    ensures CountTimers(timers + [t], id) == CountTimers(timers, id) + (if t.id == id then 1 else 0)
  {
    if timers == [] {
      assert timers + [t] == [t];
    } else {
      assert (timers + [t])[1..] == timers[1..] + [t];
      CountAppend(timers[1..], t, id);
    }
  }

  lemma {:induction false} CountWithout(timers: seq<Timer>, gone: nat, id: nat)
    ensures CountTimers(Without(timers, gone), id) == if id == gone then 0 else CountTimers(timers, id)
  {
    if timers != [] {
      CountWithout(timers[1..], gone, id);
    }
  }

  lemma {:induction false} CountPending(timers: seq<Timer>, id: nat)
    ensures CountTimers(timers, id) > 0 <==> Pending(timers, id)
  {
    if timers != [] {
      CountPending(timers[1..], id);
      assert forall t :: t in timers <==> t == timers[0] || t in timers[1..];
    }
  }

  lemma ExecuteAccounted(s: State, command: Command)
    requires Accounted(s) && s.clock.nextId >= 1
    ensures Accounted(Execute(s, command)) && Execute(s, command).clock.nextId >= 1
  {
    var r, timers := Execute(s, command), s.clock.timers;
    forall id: nat ensures Tally(r, id) == if 1 <= id < r.clock.nextId then 1 else 0 {
      assert Tally(s, id) == if 1 <= id < s.clock.nextId then 1 else 0;
      match command
      case Set(ms) => CountAppend(timers, Timer(s.clock.nextId, s.clock.now + ms), id);
      case Clear(gone) =>
        CountWithout(timers, gone, id);
        CountPending(timers, id);
    }
  }

  lemma {:induction false} ExecuteAllAccounted(s: State, commands: seq<Command>)
    requires Accounted(s) && s.clock.nextId >= 1
    ensures Accounted(ExecuteAll(s, commands)) && ExecuteAll(s, commands).clock.nextId >= 1
    decreases |commands|
  {
    if commands != [] {
      ExecuteAccounted(s, commands[0]);
      ExecuteAllAccounted(Execute(s, commands[0]), commands[1..]);
    }
  }

  /** Facts about one turn: the id picked moves from pending to fired, the time does not go back,
      and a timer that is still pending is an old one, unchanged, or a new one. */
  lemma FireAccounted(b: Behaviour, s: State, end: int)
    requires Accounted(s) && s.clock.nextId >= 1 && Due(s.clock, end)
    ensures var r := Fire(b, s, end);
            && Accounted(r) && 1 <= s.clock.nextId <= r.clock.nextId
            && r.clock.now == Max(s.clock.now, Picked(s.clock, end).at)
            && r.fired == s.fired + [Firing(Picked(s.clock, end).id, Picked(s.clock, end).at, r.clock.now)]
            && (forall t :: t in r.clock.timers ==> t in s.clock.timers || t.id >= s.clock.nextId)
  {
    var t := Picked(s.clock, end);
    var clock := s.clock.(now := Max(s.clock.now, t.at), timers := Without(s.clock.timers, t.id));
    var m := State(clock, s.fired + [Firing(t.id, t.at, clock.now)], s.cleared);
    forall id: nat ensures Tally(m, id) == if 1 <= id < clock.nextId then 1 else 0 {
      assert Tally(s, id) == if 1 <= id < s.clock.nextId then 1 else 0;
      CountWithout(s.clock.timers, t.id, id);
      CountPending(s.clock.timers, id);
      assert m.fired[..|m.fired| - 1] == s.fired;
    }
    ExecuteAllAccounted(m, b(clock, s.fired, t.id));
    ExecuteAllFrame(m, b(clock, s.fired, t.id));
  }

  /** The firings appended between two states happen in time order, within [from, end]. */
  ghost predicate TimeOrdered(fired: seq<Firing>, from: int, end: int) {
    && (forall i :: 0 <= i < |fired| ==> from <= fired[i].when <= end && fired[i].at <= end)
    && (forall i, j :: 0 <= i < j < |fired| ==> fired[i].when <= fired[j].when)
    && (forall i :: 0 <= i < |fired| ==> fired[i].at <= fired[i].when)
  }

  /** What one turn up to end keeps, see FireAccounted. */
  ghost predicate TurnLaw(s: State, r: State, end: int) {
    && Accounted(r) && 1 <= s.clock.nextId <= r.clock.nextId
    && s.clock.now <= r.clock.now <= end
    && (forall t :: t in r.clock.timers ==> t in s.clock.timers || t.id >= s.clock.nextId)
    && |r.fired| == |s.fired| + 1 && s.fired == r.fired[..|s.fired|]
    && r.fired[|s.fired|].at <= r.fired[|s.fired|].when == r.clock.now
  }

  /** The states advance starts from. */
  ghost predicate Ready(s: State, end: int) {
    Accounted(s) && s.clock.nextId >= 1 && s.clock.now <= end
  }

  ghost predicate Lawful(f: Loop, end: int) {
    forall s: State {:trigger Ready(s, end)} :: Ready(s, end) ==>
      if f(s).Some? then TurnLaw(s, f(s).value, end) else !Due(s.clock, end)
  }

  lemma UntilLawful(b: Behaviour, end: int)
    ensures Lawful(Until(b, end), end)
  {
    var f := Until(b, end);
    forall s: State | Ready(s, end)
      ensures if f(s).Some? then TurnLaw(s, f(s).value, end) else !Due(s.clock, end)
    {
      if Due(s.clock, end) {
        FireAccounted(b, s, end);
      }
    }
  }

  /** What a whole run keeps. */
  ghost predicate RunLaw(s: State, r: State, end: int) {
    && Accounted(r) && 1 <= s.clock.nextId <= r.clock.nextId
    && s.clock.now <= r.clock.now <= end
    && (forall t :: t in r.clock.timers ==> t in s.clock.timers || t.id >= s.clock.nextId)
    && s.fired <= r.fired && TimeOrdered(r.fired[|s.fired|..], s.clock.now, r.clock.now)
  }

  lemma RunLawStep(s: State, m: State, r: State, end: int)
    requires TurnLaw(s, m, end) && RunLaw(m, r, end)
    ensures RunLaw(s, r, end)
  {
    assert r.fired[|s.fired|..] == [m.fired[|s.fired|]] + r.fired[|m.fired|..];
  }

  lemma {:induction false} TurnsKeepAccount(f: Loop, s: State, end: int, n: nat)
    requires Lawful(f, end) && Ready(s, end) && Halts(f, s, n)
    ensures RunLaw(s, Turns(f, s, n), end) && !Due(Turns(f, s, n).clock, end)
    decreases n
  {
    if n > 0 {
      var m := f(s).value;
      assert Ready(m, end);
      TurnsKeepAccount(f, m, end, n - 1);
      RunLawStep(s, m, Turns(f, m, n - 1), end);
    }
  }

  /** advance leaves no timer due; a timer that was due has fired exactly once, in this call,
      or was cleared before its turn, and never both; the firings are in time order. */
  lemma AdvanceFiresDueTimers(b: Behaviour, s: State, end: int)
    requires Ready(s, end) && Terminates(b, s, end)
    ensures Handled(s, Advance(b, s, end), end)
  {
    UntilLawful(b, end);
    LoopFiresDueTimers(Until(b, end), s, end);
  }

  ghost predicate Handled(s: State, r: State, end: int) {
    && Accounted(r) && r.clock.now == end && !Due(r.clock, end)
    && s.fired <= r.fired && TimeOrdered(r.fired[|s.fired|..], s.clock.now, end)
    && (forall t :: t in s.clock.timers && t.at <= end ==> FiredOrCleared(s, r, t.id))
  }

  lemma LoopFiresDueTimers(f: Loop, s: State, end: int)
    requires Lawful(f, end) && Ends(f, s) && Ready(s, end)
    ensures Handled(s, AtTime(Last(f, s), end), end)
  {
    var n: nat :| Halts(f, s, n);
    LastIs(f, s, n);
    TurnsKeepAccount(f, s, end, n);
    var u := Last(f, s);
    assert forall id: nat :: Tally(AtTime(u, end), id) == Tally(u, id);
    forall t | t in s.clock.timers && t.at <= end ensures FiredOrCleared(s, u, t.id) {
      DueTimerFate(s, u, end, t);
    }
  }

  /** Exactly one of the two has happened to the id by the time of r, and not before s. */
  ghost predicate FiredOrCleared(s: State, r: State, id: nat) {
    && CountFired(s.fired, id) == 0
    && CountFired(r.fired, id) + (if id in r.cleared then 1 else 0) == 1
  }

  lemma DueTimerFate(s: State, u: State, end: int, t: Timer)
    requires Accounted(s) && RunLaw(s, u, end) && !Due(u.clock, end)
    requires t in s.clock.timers && t.at <= end
    ensures FiredOrCleared(s, u, t.id)
  {
    var timers := s.clock.timers;
    CountPending(timers, t.id);
    CountPending(u.clock.timers, t.id);
    assert Tally(s, t.id) == 1;
    assert Tally(u, t.id) == 1;
    if Pending(u.clock.timers, t.id) {
      var t' :| t' in u.clock.timers && t'.id == t.id;
      var i :| 0 <= i < |timers| && timers[i] == t;
      var j :| 0 <= j < |timers| && timers[j] == t';
      OneEntryPerId(timers, i, j);
      assert false;
    }
  }

  lemma {:induction false} OneEntryPerId(timers: seq<Timer>, i: nat, j: nat)
    requires i < |timers| && j < |timers| && timers[i].id == timers[j].id
    requires CountTimers(timers, timers[i].id) == 1
    ensures i == j
  {
    if i > 0 && j > 0 {
      CountPending(timers[1..], timers[i].id);
      assert timers[1..][i - 1] == timers[i] && timers[1..][j - 1] == timers[j];
      OneEntryPerId(timers[1..], i - 1, j - 1);
    } else if i != j {
      var k := if i > 0 then i else j;
      assert timers[1..][k - 1] in timers[1..];
      CountPending(timers[1..], timers[k].id);
    }
  }

  // ------------------------------------------------------ timers fire on time

  /** One command, field by field. */
  lemma ExecuteByFields(s: State, ms: int, id: nat)
    ensures var c, r := s.clock, Execute(s, Set(ms));
            && r.clock.timers == c.timers + [Timer(c.nextId, c.now + ms)] && r.clock.nextId == c.nextId + 1
            && r.clock.now == c.now && r.fired == s.fired && r.cleared == s.cleared
    ensures var c, r := s.clock, Execute(s, Clear(id));
            && r.clock.now == c.now && r.clock.nextId == c.nextId && r.fired == s.fired
            && (forall t :: t in r.clock.timers <==> t in c.timers && t.id != id)
            && r.cleared == s.cleared + (if exists t :: t in c.timers && t.id == id then {id} else {})
  {
  }

  /** One turn, field by field: the next timer k is taken out of the map, the clock moves on to its time but
      never back, and then its callback runs, which sees that clock and the firings before its own. */
  lemma FireByFields(b: Behaviour, s: State, end: int, k: nat)
    requires IsNext(s.clock.timers, end, k) && OnlyAt(s.clock.timers, k)
    ensures var timers := s.clock.timers;
            var t, now := timers[k], if timers[k].at > s.clock.now then timers[k].at else s.clock.now;
            var clock := Clock(now, s.clock.nextId, timers[..k] + timers[k + 1..]);
            && Due(s.clock, end)
            && Fire(b, s, end) == ExecuteAll(State(clock, s.fired + [Firing(t.id, t.at, now)], s.cleared), b(clock, s.fired, t.id))
  {
    var timers := s.clock.timers;
    assert timers[k] in timers;
    PickIsEarliest(timers, end);
    NextIsUnique(timers, end, end, k, Scan(timers, end, 0, -1));
    WithoutOne(timers, k);
  }

  /** Commands take effect one after the other. */
  lemma {:induction false} ExecuteInOrder(s: State, a: seq<Command>, b: seq<Command>)
    ensures ExecuteAll(s, a + b) == ExecuteAll(ExecuteAll(s, a), b)
    decreases |a|
  {
    if a == [] {
      assert a + b == b;
    } else {
      assert (a + b)[1..] == a[1..] + b;
      ExecuteInOrder(Execute(s, a[0]), a[1..], b);
    }
  }

  /** The timer id is for the time at: it is pending for that time, which has not passed, or has fired at
      that time. */
  ghost predicate OnTime(s: State, id: nat, at: int) {
    && id < s.clock.nextId
    && (forall t :: t in s.clock.timers && t.id == id ==> t.at == at && s.clock.now <= at)
    && (forall k :: 0 <= k < |s.fired| && s.fired[k].id == id ==> s.fired[k] == Firing(id, at, at))
  }

  lemma {:induction false} ExecuteAllOnTime(s: State, commands: seq<Command>, id: nat, at: int)
    requires OnTime(s, id, at)
    ensures OnTime(ExecuteAll(s, commands), id, at)
    decreases |commands|
  {
    if commands != [] { ExecuteAllOnTime(Execute(s, commands[0]), commands[1..], id, at); }
  }

  lemma FireOnTime(b: Behaviour, s: State, end: int, id: nat, at: int)
    requires OnTime(s, id, at) && Due(s.clock, end)
    ensures OnTime(Fire(b, s, end), id, at)
  {
    PickIsEarliest(s.clock.timers, end);
    var t := Picked(s.clock, end);
    var clock := s.clock.(now := Max(s.clock.now, t.at), timers := Without(s.clock.timers, t.id));
    var m := State(clock, s.fired + [Firing(t.id, t.at, clock.now)], s.cleared);
    assert OnTime(m, id, at);
    ExecuteAllOnTime(m, b(clock, s.fired, t.id), id, at);
  }

  ghost predicate KeepsTime(f: Loop, id: nat, at: int) {
    forall s: State {:trigger OnTime(s, id, at)} :: OnTime(s, id, at) && f(s).Some? ==> OnTime(f(s).value, id, at)
  }

  lemma UntilKeepsTime(b: Behaviour, end: int, id: nat, at: int)
    ensures KeepsTime(Until(b, end), id, at)
  {
    forall s: State | OnTime(s, id, at) && Due(s.clock, end) ensures OnTime(Fire(b, s, end), id, at) {
      FireOnTime(b, s, end, id, at);
    }
  }

  lemma {:induction false} TurnsKeepTime(f: Loop, s: State, id: nat, at: int, n: nat)
    requires KeepsTime(f, id, at) && OnTime(s, id, at) && Halts(f, s, n)
    ensures OnTime(Turns(f, s, n), id, at)
    decreases n
  {
    if n > 0 { TurnsKeepTime(f, f(s).value, id, at, n - 1); }
  }

  /** A timer that is set with a delay ms >= 0 fires exactly then: an advance that ends before leaves it
      pending, if it is not cleared, for that very time, and an advance that ends then or later has fired it
      once, at that very time, unless it was cleared. */
  lemma TimerFiresOnTime(b: Behaviour, s: State, ms: int, end: int)
    requires Ready(s, end) && ms >= 0 && Terminates(b, Execute(s, Set(ms)), end)
    ensures FiresOnTime(Advance(b, Execute(s, Set(ms)), end), s.clock.nextId, s.clock.now + ms, end)
  {
    var s1 := Execute(s, Set(ms));
    ExecuteAccounted(s, Set(ms));
    NewIsOnTime(s, ms);
    assert s1.clock.timers[|s.clock.timers|] == Timer(s.clock.nextId, s.clock.now + ms);
    PendingFiresOnTime(b, s1, s.clock.nextId, s.clock.now + ms, end);
  }

  /** What an advance up to end has made of the timer id that was set for the time at. */
  ghost predicate FiresOnTime(r: State, id: nat, at: int, end: int) {
    && (forall k :: 0 <= k < |r.fired| && r.fired[k].id == id ==> r.fired[k] == Firing(id, at, at))
    && (end < at ==> CountFired(r.fired, id) == 0 && (id in r.cleared || Timer(id, at) in r.clock.timers))
    && (end >= at ==> CountFired(r.fired, id) == if id in r.cleared then 0 else 1)
  }

  lemma PendingFiresOnTime(b: Behaviour, s: State, id: nat, at: int, end: int)
    requires Ready(s, end) && Terminates(b, s, end) && id >= 1
    requires OnTime(s, id, at) && CountFired(s.fired, id) == 0 && Timer(id, at) in s.clock.timers
    ensures FiresOnTime(Advance(b, s, end), id, at, end)
  {
    AdvanceFiresDueTimers(b, s, end);
    AdvanceOnTime(b, s, end, id, at);
    var r := Advance(b, s, end);
    if end < at {
      FiredByEnd(s, r, id, at, end);
      StillPending(r, id, at);
    } else {
      assert FiredOrCleared(s, r, id);
    }
  }

  lemma StillPending(r: State, id: nat, at: int)
    requires Accounted(r) && 1 <= id < r.clock.nextId && CountFired(r.fired, id) == 0
    requires forall t :: t in r.clock.timers && t.id == id ==> t.at == at
    ensures id in r.cleared || Timer(id, at) in r.clock.timers
  {
    assert Tally(r, id) == 1;
    CountPending(r.clock.timers, id);
  }

  lemma AdvanceOnTime(b: Behaviour, s: State, end: int, id: nat, at: int)
    requires OnTime(s, id, at) && Terminates(b, s, end)
    ensures id < Advance(b, s, end).clock.nextId
    ensures forall t :: t in Advance(b, s, end).clock.timers && t.id == id ==> t.at == at
    ensures forall k :: 0 <= k < |Advance(b, s, end).fired| && Advance(b, s, end).fired[k].id == id ==>
              Advance(b, s, end).fired[k] == Firing(id, at, at)
  {
    var f := Until(b, end);
    var n: nat :| Halts(f, s, n);
    LastIs(f, s, n);
    UntilKeepsTime(b, end, id, at);
    TurnsKeepTime(f, s, id, at, n);
  }

  lemma NewIsOnTime(s: State, ms: int)
    requires Accounted(s) && ms >= 0
    ensures OnTime(Execute(s, Set(ms)), s.clock.nextId, s.clock.now + ms) && CountFired(s.fired, s.clock.nextId) == 0
  {
    var id := s.clock.nextId;
    assert Tally(s, id) == 0;
    CountPending(s.clock.timers, id);
    NeverFired(s.fired, id);
  }

  lemma {:induction false} NeverFired(fired: seq<Firing>, id: nat)
    ensures CountFired(fired, id) == 0 <==> forall k :: 0 <= k < |fired| ==> fired[k].id != id
    decreases |fired|
  {
    if fired != [] {
      var rest := fired[..|fired| - 1];
      NeverFired(rest, id);
      assert forall k :: 0 <= k < |rest| ==> rest[k] == fired[k];
    }
  }

  /** What fires in an advance fires by its end. */
  lemma FiredByEnd(s: State, r: State, id: nat, at: int, end: int)
    requires Handled(s, r, end) && CountFired(s.fired, id) == 0 && end < at
    requires forall k :: 0 <= k < |r.fired| && r.fired[k].id == id ==> r.fired[k] == Firing(id, at, at)
    ensures CountFired(r.fired, id) == 0
  {
    NeverFired(s.fired, id);
    NeverFired(r.fired, id);
    forall k | 0 <= k < |r.fired| ensures r.fired[k].id != id {
      if k >= |s.fired| {
        assert r.fired[|s.fired|..][k - |s.fired|] == r.fired[k];
      } else {
        assert r.fired[k] == s.fired[k];
      }
    }
  }

  /** A callback that sets the next timer d later. */
  function Every(d: int): Behaviour {
    (clock, fired, id) => [Set(d)]
  }

  /** One timer, for d after now. */
  function Interval(now: int, id: nat, d: int, fired: seq<Firing>): State {
    State(Clock(now, id + 1, [Timer(id, now + d)]), fired, {})
  }

  lemma IntervalTurn(now: int, id: nat, d: int, fired: seq<Firing>, end: int)
    requires d >= 1
    ensures Until(Every(d), end)(Interval(now, id, d, fired)) ==
            if now + d <= end then Some(Interval(now + d, id + 1, d, fired + [Firing(id, now + d, now + d)])) else None
  {
    var s, t := Interval(now, id, d, fired), Timer(id, now + d);
    assert t in s.clock.timers;
    if now + d <= end {
      assert Picked(s.clock, end) == t;
      assert Without([t], id) == [];
      var m := State(Clock(now + d, id + 1, []), fired + [Firing(id, now + d, now + d)], {});
      assert Every(d)(m.clock, fired, id) == [Set(d)];
      assert ExecuteAll(m, [Set(d)]) == ExecuteAll(Execute(m, Set(d)), []);
      assert [] + [Timer(id + 1, now + d + d)] == [Timer(id + 1, now + d + d)];
    }
  }

  /** The first n firings of an interval timer. */
  function Beats(now: int, id: nat, d: int, n: nat): seq<Firing>
    decreases n
  {
    if n == 0 then [] else [Firing(id, now + d, now + d)] + Beats(now + d, id + 1, d, n - 1)
  }

  lemma {:induction false} IntervalTurns(f: Loop, now: int, id: nat, d: int, fired: seq<Firing>, end: int, n: nat)
    requires d >= 1 && BeatsUntil(f, d, end) && now + n * d <= end < now + (n + 1) * d
    ensures Halts(f, Interval(now, id, d, fired), n)
    ensures Turns(f, Interval(now, id, d, fired), n) == Interval(now + n * d, id + n, d, fired + Beats(now, id, d, n))
    decreases n
  {
    var s := Interval(now, id, d, fired);
    assert Beat(f, now, id, d, fired, end);
    if n == 0 {
      assert fired + [] == fired;
    } else {
      assert n * d == (n - 1) * d + d && (n + 1) * d == n * d + d && (n - 1) * d >= 0;
      IntervalTurns(f, now + d, id + 1, d, fired + [Firing(id, now + d, now + d)], end, n - 1);
      Regroup(fired, [Firing(id, now + d, now + d)], Beats(now + d, id + 1, d, n - 1));
    }
  }

  predicate Beat(f: Loop, now: int, id: nat, d: int, fired: seq<Firing>, end: int) {
    f(Interval(now, id, d, fired)) ==
      if now + d <= end then Some(Interval(now + d, id + 1, d, fired + [Firing(id, now + d, now + d)])) else None
  }

  ghost predicate BeatsUntil(f: Loop, d: int, end: int) {
    forall now: int, id: nat, fired: seq<Firing> :: Beat(f, now, id, d, fired, end)
  }

  /** A callback that re-arms itself d ms later fires at every multiple of d up to the end of the advance,
      each time at that very time (see BeatAt), and is left set for the next multiple. */
  lemma IntervalFires(now: int, id: nat, d: int, end: int, n: nat)
    requires d >= 1 && now + n * d <= end < now + (n + 1) * d
    ensures var s := Interval(now, id, d, []);
            && Terminates(Every(d), s, end)
            && Advance(Every(d), s, end) == AtTime(Interval(now + n * d, id + n, d, Beats(now, id, d, n)), end)
  {
    var f := Until(Every(d), end);
    forall m: int, i: nat, fired: seq<Firing> ensures Beat(f, m, i, d, fired, end) {
      IntervalTurn(m, i, d, fired, end);
    }
    IntervalTurns(f, now, id, d, [], end, n);
    LastIs(f, Interval(now, id, d, []), n);
    assert [] + Beats(now, id, d, n) == Beats(now, id, d, n);
  }

  /** The k-th firing of an interval timer that was set at now. */
  lemma {:induction false} BeatAt(now: int, id: nat, d: int, n: nat, k: nat)
    requires k < n
    ensures |Beats(now, id, d, n)| == n && Beats(now, id, d, n)[k] == Firing(id + k, now + (k + 1) * d, now + (k + 1) * d)
    decreases n
  {
    if n > 1 {
      BeatAt(now + d, id + 1, d, n - 1, if k > 0 then k - 1 else 0);
      assert (k + 1) * d == k * d + d;
    }
  }

  // ------------------------------------------------------------ termination

  /** At most budget timers are set, each at least 1 ms ahead. */
  predicate SetsLate(commands: seq<Command>, budget: nat) {
    if commands == [] then true
    else match commands[0]
      case Set(ms) => budget > 0 && ms >= 1 && SetsLate(commands[1..], budget - 1)
      case Clear(_) => SetsLate(commands[1..], budget)
  }

  /** Each callback sets at most one timer, at least 1 ms ahead. */
  ghost predicate Frugal(b: Behaviour) {
    forall clock, fired, id :: SetsLate(b(clock, fired, id), 1)
  }

  function SlackOf(at: int, end: int): nat {
    if at <= end then end - at + 1 else 0
  }

  function Slack(timers: seq<Timer>, end: int): nat {
    if timers == [] then 0 else SlackOf(timers[0].at, end) + Slack(timers[1..], end)
  }

  lemma {:induction false} SlackAppend(timers: seq<Timer>, t: Timer, end: int)
    ensures Slack(timers + [t], end) == Slack(timers, end) + SlackOf(t.at, end)
  {
    if timers == [] {
      assert timers + [t] == [t];
    } else {
      assert (timers + [t])[1..] == timers[1..] + [t];
      SlackAppend(timers[1..], t, end);
    }
  }

  lemma {:induction false} SlackWithout(timers: seq<Timer>, id: nat, end: int)
    ensures Slack(Without(timers, id), end) <= Slack(timers, end)
    ensures forall t :: t in timers && t.id == id ==>
              Slack(Without(timers, id), end) + SlackOf(t.at, end) <= Slack(timers, end)
  {
    if timers != [] {
      SlackWithout(timers[1..], id, end);
      assert forall t :: t in timers <==> t == timers[0] || t in timers[1..];
    }
  }

  lemma {:induction false} ExecuteSlack(s: State, commands: seq<Command>, budget: nat, end: int)
    requires budget <= 1 && SetsLate(commands, budget) && s.clock.now <= end
    ensures Slack(ExecuteAll(s, commands).clock.timers, end)
         <= Slack(s.clock.timers, end) + (if budget == 1 then end - s.clock.now else 0)
    decreases |commands|
  {
    if commands != [] {
      match commands[0]
      case Set(ms) =>
        SlackAppend(s.clock.timers, Timer(s.clock.nextId, s.clock.now + ms), end);
        ExecuteSlack(Execute(s, commands[0]), commands[1..], budget - 1, end);
      case Clear(id) =>
        SlackWithout(s.clock.timers, id, end);
        ExecuteSlack(Execute(s, commands[0]), commands[1..], budget, end);
    }
  }

  lemma FireLosesSlack(b: Behaviour, s: State, end: int)
    requires Frugal(b) && Due(s.clock, end) && s.clock.now <= end
    ensures Slack(Fire(b, s, end).clock.timers, end) < Slack(s.clock.timers, end)
    ensures Fire(b, s, end).clock.now <= end
  {
    var t := Picked(s.clock, end);
    var clock := s.clock.(now := Max(s.clock.now, t.at), timers := Without(s.clock.timers, t.id));
    var m := State(clock, s.fired + [Firing(t.id, t.at, clock.now)], s.cleared);
    SlackWithout(s.clock.timers, t.id, end);
    ExecuteSlack(m, b(clock, s.fired, t.id), 1, end);
    ExecuteAllFrame(m, b(clock, s.fired, t.id));
  }

  lemma {:induction false} SlackBoundsTurns(b: Behaviour, s: State, end: int) returns (n: nat)
    requires Frugal(b) && s.clock.now <= end
    ensures n <= Slack(s.clock.timers, end) && Halts(Until(b, end), s, n)
    decreases Slack(s.clock.timers, end)
  {
    if Due(s.clock, end) {
      FireLosesSlack(b, s, end);
      n := SlackBoundsTurns(b, Fire(b, s, end), end);
      n := n + 1;
    } else {
      n := 0;
    }
  }

  /** Whatever timers callbacks set, they are at least 1 ms ahead. */
  ghost predicate Patient(b: Behaviour) {
    forall clock, fired, id :: AllLate(b(clock, fired, id))
  }

  predicate AllLate(commands: seq<Command>) {
    forall i :: 0 <= i < |commands| && commands[i].Set? ==> commands[i].ms >= 1
  }

  /** How many timers are due at the given time. */
  function DueBy(timers: seq<Timer>, now: int): nat {
    if timers == [] then 0 else (if timers[0].at <= now then 1 else 0) + DueBy(timers[1..], now)
  }

  lemma {:induction false} DueByAppend(timers: seq<Timer>, t: Timer, now: int)
    ensures DueBy(timers + [t], now) == DueBy(timers, now) + (if t.at <= now then 1 else 0)
  {
    if timers == [] {
      assert timers + [t] == [t];
    } else {
      assert (timers + [t])[1..] == timers[1..] + [t];
      DueByAppend(timers[1..], t, now);
    }
  }

  lemma {:induction false} DueByWithout(timers: seq<Timer>, id: nat, now: int)
    ensures DueBy(Without(timers, id), now) <= DueBy(timers, now)
    ensures forall t :: t in timers && t.id == id && t.at <= now ==> DueBy(Without(timers, id), now) < DueBy(timers, now)
  {
    if timers != [] {
      DueByWithout(timers[1..], id, now);
      assert forall t :: t in timers <==> t == timers[0] || t in timers[1..];
    }
  }

  lemma {:induction false} ExecuteDueBy(s: State, commands: seq<Command>, time: int)
    requires AllLate(commands) && time <= s.clock.now
    ensures DueBy(ExecuteAll(s, commands).clock.timers, time) <= DueBy(s.clock.timers, time)
    decreases |commands|
  {
    if commands != [] {
      match commands[0] {
        case Set(ms) => DueByAppend(s.clock.timers, Timer(s.clock.nextId, s.clock.now + ms), time);
        case Clear(id) => DueByWithout(s.clock.timers, id, time);
      }
      ExecuteDueBy(Execute(s, commands[0]), commands[1..], time);
    }
  }

  function Min(a: int, b: int): int {
    if a < b then a else b
  }

  /** A turn moves the clock forward, though not beyond end, or leaves fewer timers due by now. */
  lemma FireProgresses(b: Behaviour, s: State, end: int)
    requires Patient(b) && Due(s.clock, end)
    ensures var r, time := Fire(b, s, end), Min(s.clock.now, end);
            || s.clock.now < r.clock.now <= end
            || (r.clock.now == s.clock.now && DueBy(r.clock.timers, time) < DueBy(s.clock.timers, time))
  {
    var t := Picked(s.clock, end);
    var clock := s.clock.(now := Max(s.clock.now, t.at), timers := Without(s.clock.timers, t.id));
    var m := State(clock, s.fired + [Firing(t.id, t.at, clock.now)], s.cleared);
    DueByWithout(s.clock.timers, t.id, Min(s.clock.now, end));
    ExecuteDueBy(m, b(clock, s.fired, t.id), Min(s.clock.now, end));
    ExecuteAllFrame(m, b(clock, s.fired, t.id));
  }

  lemma {:induction false} ProgressEnds(b: Behaviour, s: State, end: int) returns (n: nat)
    requires Patient(b)
    ensures Halts(Until(b, end), s, n)
    decreases Max(end - s.clock.now, 0), DueBy(s.clock.timers, Min(s.clock.now, end))
  {
    if Due(s.clock, end) {
      FireProgresses(b, s, end);
      n := ProgressEnds(b, Fire(b, s, end), end);
      n := n + 1;
    } else {
      n := 0;
    }
  }

  /** When all timers that callbacks set are at least 1 ms ahead, however many they are, every advance
      terminates, also a negative one. */
  lemma PatientTerminates(b: Behaviour, s: State, end: int)
    requires Patient(b)
    ensures Terminates(b, s, end)
  {
    var n := ProgressEnds(b, s, end);
  }

  function Rearm(): Behaviour {
    (clock, fired, id) => [Set(0)]
  }

  function Lone(id: nat, fired: seq<Firing>): State {
    State(Clock(0, id + 1, [Timer(id, 0)]), fired, {})
  }

  lemma RearmTurn(id: nat, fired: seq<Firing>, end: nat)
    ensures Until(Rearm(), end)(Lone(id, fired)) == Some(Lone(id + 1, fired + [Firing(id, 0, 0)]))
  {
    var s, t := Lone(id, fired), Timer(id, 0);
    assert t in s.clock.timers;
    assert Picked(s.clock, end) == t;
    assert Without([t], id) == [];
    var m := State(Clock(0, id + 1, []), fired + [Firing(id, 0, 0)], {});
    assert Rearm()(m.clock, fired, id) == [Set(0)];
    assert ExecuteAll(m, [Set(0)]) == ExecuteAll(Execute(m, Set(0)), []);
    assert Fire(Rearm(), s, end) == Lone(id + 1, m.fired);
  }

  /** Each turn of the loop leaves another timer that is due. */
  ghost predicate Rearms(f: Loop) {
    forall id: nat, fired :: f(Lone(id, fired)) == Some(Lone(id + 1, fired + [Firing(id, 0, 0)]))
  }

  lemma {:induction false} RearmsForever(f: Loop, id: nat, fired: seq<Firing>, n: nat)
    requires Rearms(f)
    ensures !Halts(f, Lone(id, fired), n)
    decreases n
  {
    assert f(Lone(id, fired)) == Some(Lone(id + 1, fired + [Firing(id, 0, 0)]));
    if n > 0 {
      RearmsForever(f, id + 1, fired + [Firing(id, 0, 0)], n - 1);
    }
  }

  /** The 1 ms is needed: a callback that re-arms itself without delay makes every advance run
      forever, also advance(0). */
  lemma ZeroDelayNeverTerminates(id: nat, end: nat)
    ensures !Terminates(Rearm(), Lone(id, []), end)
  {
    var f := Until(Rearm(), end);
    forall id: nat, fired ensures f(Lone(id, fired)) == Some(Lone(id + 1, fired + [Firing(id, 0, 0)])) {
      RearmTurn(id, fired, end);
    }
    forall n: nat ensures !Halts(f, Lone(id, []), n) {
      RearmsForever(f, id, [], n);
    }
  }

  // --------------------------------------------------------- the clock object

  class Scheduler {
    var now: int
    var nextId: nat
    var timers: seq<Timer>
    var fired: seq<Firing>
    var cleared: set<nat>

    ghost function Model(): State
      reads this
    {
      State(Clock(now, nextId, timers), fired, cleared)
    }

    constructor ()
      ensures Model() == State(Clock(0, 1, []), [], {})
    {
      now, nextId, timers, fired, cleared := 0, 1, [], [], {};
    }

    method SetTimer(ms: int) returns (id: nat)
      modifies this
      ensures timers == old(timers) + [Timer(old(nextId), old(now) + ms)] && nextId == old(nextId) + 1
      ensures now == old(now) && fired == old(fired) && cleared == old(cleared)
      ensures id == old(nextId) && Model() == Execute(old(Model()), Set(ms))
    {
      id := nextId;
      nextId := nextId + 1;
      timers := timers + [Timer(id, now + ms)];
    }

    method ClearTimer(id: nat)
      modifies this
      ensures forall k :: 0 <= k < |old(timers)| && OnlyAt(old(timers), k) && old(timers)[k].id == id ==>
                timers == old(timers)[..k] + old(timers)[k + 1..] && cleared == old(cleared) + {id}
      ensures (forall t :: t in old(timers) ==> t.id != id) ==> timers == old(timers) && cleared == old(cleared)
      ensures now == old(now) && nextId == old(nextId) && fired == old(fired)
      ensures Model() == Execute(old(Model()), Clear(id))
    {
      forall k | 0 <= k < |timers| && OnlyAt(timers, k) && timers[k].id == id ensures Without(timers, id) == timers[..k] + timers[k + 1..] {
        WithoutOne(timers, k);
        assert timers[k] in timers;
      }
      if forall t :: t in timers ==> t.id != id { WithoutNone(timers, id); }
      if exists t :: t in timers && t.id == id {
        cleared := cleared + {id};
      }
      timers := Without(timers, id);
    }

    method Callback(commands: seq<Command>)
      modifies this
      ensures Model() == ExecuteAll(old(Model()), commands)
    {
      for i := 0 to |commands|
        invariant ExecuteAll(Model(), commands[i..]) == ExecuteAll(old(Model()), commands)
      {
        assert commands[i..][1..] == commands[i + 1..];
        match commands[i] {
          case Set(ms) => var _ := SetTimer(ms);
          case Clear(id) => ClearTimer(id);
        }
      }
    }

    method AdvanceBy(b: Behaviour, ms: int)
      requires Terminates(b, Model(), now + ms)
      modifies this
      ensures Model() == Advance(b, old(Model()), old(now) + ms)
    {
      var end := now + ms;
      ghost var n: nat :| Halts(Until(b, end), Model(), n);
      LastIs(Until(b, end), Model(), n);
      FireDue(b, end, n);
      now := end;
    }

    method FireDue(b: Behaviour, end: int, ghost turns: nat)
      requires Halts(Until(b, end), Model(), turns)
      modifies this
      ensures Model() == Turns(Until(b, end), old(Model()), turns)
    {
      ghost var f, n := Until(b, end), turns;
      var more := true;
      while more
        invariant Halts(f, Model(), n) && Turns(f, Model(), n) == Turns(f, old(Model()), turns)
        invariant !more ==> n == 0
        decreases n, more
      {
        TurnsStep(f, Model(), n);
        more := Turn(b, end);
        n := if more then n - 1 else n;
      }
    }

    /** The body of the loop: pick the next due timer and run its callback. */
    method Turn(b: Behaviour, end: int) returns (more: bool)
      modifies this
      ensures Until(b, end)(old(Model())) == if more then Some(Model()) else None
      ensures !more ==> Model() == old(Model())
    {
      var next := -1;
      for i := 0 to |timers|
        invariant -1 <= next < i
        invariant Scan(timers, end, i, next) == Scan(timers, end, 0, -1)
      {
        if timers[i].at <= end && (next < 0 || timers[i].at < timers[next].at) {
          next := i;
        }
      }
      PickIsEarliest(timers, end);
      if next < 0 {
        return false;
      }
      var t, history := timers[next], fired;
      assert t in timers;
      timers := Without(timers, t.id);
      now := Max(now, t.at);
      fired := fired + [Firing(t.id, t.at, now)];
      Callback(b(Clock(now, nextId, timers), history, t.id));
      return true;
    }
  }
}
