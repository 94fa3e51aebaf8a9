/** A disk's request slots: single requests share them, an exclusive one takes them all. Each critical section,
    each atomic counter and each wake is a step of its own, and any number of threads interleave. */
module Slots {

  datatype Pc = Out | Trying | Blocking | Parked | Claimed | Counted | Holding | Left | Waking

  /** `bits`: the slots held. `now`: in flight as this thread's increment saw it. `list`: the waiters a release
      has taken and not yet woken. */
  datatype Thread = Thread(
    pc: Pc, exclusive: bool, queued: bool, bits: set<nat>, now: int, list: seq<nat>, blocked: bool, wakePending: bool)

  datatype State = State(
    count: nat, busy: set<nat>, exclusiveWaiting: int, waiters: seq<nat>, inFlight: int, peak: int, ts: seq<Thread>)

  const IDLE := Thread(Out, false, false, {}, 0, [], false, false)

  function All(count: nat): (all: set<nat>)
    ensures |all| == count && forall b :: b in all <==> 0 <= b < count
  {
    if count == 0 then {} else All(count - 1) + {count - 1}
  }

  function Free(s: State): set<nat> {
    All(s.count) - s.busy
  }

  ghost predicate IsLowest(b: nat, free: set<nat>) {
    b in free && forall c :: c in free ==> b <= c
  }

  function Unblock(t: Thread): Thread {
    if t.blocked then t.(blocked := false) else t.(wakePending := true)
  }

  datatype Act = Step(me: nat, choice: bool) | StrayWake(t: nat)

  /** The critical section of `acquire`. */
  ghost predicate Acquires(s: State, me: nat, canSleep: bool, s': State)
    requires me < |s.ts|
  {
    var t := s.ts[me];
    if t.exclusive && s.busy == {} then Takes(s, me, All(s.count), s')
    else if !t.exclusive && Free(s) != {} && s.exclusiveWaiting == 0 then
      exists b :: IsLowest(b, Free(s)) && Takes(s, me, {b}, s')
    else if canSleep then
      var more := t.exclusive && !t.queued;
      s' == s.(exclusiveWaiting := s.exclusiveWaiting + (if more then 1 else 0), waiters := s.waiters + [me],
               ts := s.ts[me := t.(queued := t.queued || more, pc := Blocking)])
    else s' == s
  }

  ghost predicate Takes(s: State, me: nat, bits: set<nat>, s': State)
    requires me < |s.ts|
  {
    var t := s.ts[me];
    s' == s.(busy := s.busy + bits, exclusiveWaiting := s.exclusiveWaiting - (if t.queued then 1 else 0),
             ts := s.ts[me := t.(queued := false, bits := bits, pc := Claimed)])
  }

  /** One step of one thread. `choice` is whether a new request is exclusive, and whether a refused one can sleep. */
  ghost predicate Moves(s: State, a: Act, s': State) {
    match a
    case StrayWake(t) => t < |s.ts| && s' == s.(ts := s.ts[t := Unblock(s.ts[t])])
    case Step(me, choice) =>
      && me < |s.ts|
      && var t := s.ts[me];
      match t.pc
      case Out => s' == s.(ts := s.ts[me := t.(exclusive := choice, queued := false, pc := Trying)])
      case Trying => Acquires(s, me, choice, s')
      case Blocking =>
        if t.wakePending then s' == s.(ts := s.ts[me := t.(wakePending := false, pc := Trying)])
        else s' == s.(ts := s.ts[me := t.(blocked := true, pc := Parked)])
      case Parked => !t.blocked && s' == s.(ts := s.ts[me := t.(pc := Trying)])
      case Claimed =>
        s' == s.(inFlight := s.inFlight + 1, ts := s.ts[me := t.(now := s.inFlight + 1, pc := Counted)])
      case Counted =>
        s' == s.(peak := if s.peak < t.now then t.now else s.peak, ts := s.ts[me := t.(pc := Holding)])
      case Holding => s' == s.(inFlight := s.inFlight - 1, ts := s.ts[me := t.(pc := Left)])
      case Left =>
        s' == s.(busy := s.busy - t.bits, waiters := [],
                 ts := s.ts[me := t.(bits := {}, list := s.waiters, pc := Waking)])
      case Waking =>
        if t.list == [] then s' == s.(ts := s.ts[me := t.(pc := Out)])
        else Wakes(s, me, t.list[0], s')
  }

  ghost predicate Wakes(s: State, me: nat, target: nat, s': State)
    requires me < |s.ts| && |s.ts[me].list| > 0
  {
    && target < |s.ts|
    && var woken := s.ts[target := Unblock(s.ts[target])];
    s' == s.(ts := woken[me := woken[me].(list := s.ts[me].list[1..])])
  }

  ghost predicate Init(s: State) {
    && 1 <= s.count <= 32 && s.busy == {} && s.exclusiveWaiting == 0 && s.waiters == [] && s.inFlight == 0 && s.peak == 0
    && forall t :: 0 <= t < |s.ts| ==> s.ts[t] == IDLE
  }

  // ---- counting ----

  predicate Flying(t: Thread) {
    t.pc == Counted || t.pc == Holding
  }

  function Queued(ts: seq<Thread>): nat {
    if ts == [] then 0 else (if ts[0].queued then 1 else 0) + Queued(ts[1..])
  }

  function InTheAir(ts: seq<Thread>): nat {
    if ts == [] then 0 else (if Flying(ts[0]) then 1 else 0) + InTheAir(ts[1..])
  }

  lemma {:induction false} QueuedUpdate(ts: seq<Thread>, i: nat, t: Thread)
    requires i < |ts|
    ensures Queued(ts[i := t]) == Queued(ts) - (if ts[i].queued then 1 else 0) + (if t.queued then 1 else 0)
    ensures ts[i].queued ==> Queued(ts) > 0
  {
    if i > 0 {
      QueuedUpdate(ts[1..], i - 1, t);
      assert ts[i := t][1..] == ts[1..][i - 1 := t];
    } else {
      assert ts[i := t][1..] == ts[1..];
    }
  }

  lemma {:induction false} AirUpdate(ts: seq<Thread>, i: nat, t: Thread)
    requires i < |ts|
    ensures InTheAir(ts[i := t]) == InTheAir(ts) - (if Flying(ts[i]) then 1 else 0) + (if Flying(t) then 1 else 0)
    ensures Flying(ts[i]) ==> InTheAir(ts) > 0
  {
    if i > 0 {
      AirUpdate(ts[1..], i - 1, t);
      assert ts[i := t][1..] == ts[1..][i - 1 := t];
    } else {
      assert ts[i := t][1..] == ts[1..];
    }
  }

  lemma {:induction false} SomeQueued(ts: seq<Thread>)
    requires Queued(ts) > 0
    ensures exists i :: 0 <= i < |ts| && ts[i].queued
  {
    if !ts[0].queued {
      SomeQueued(ts[1..]);
      var i :| 0 <= i < |ts[1..]| && ts[1..][i].queued;
      assert ts[i + 1].queued;
    }
  }

  // ---- the invariant ----

  predicate Holds(t: Thread) {
    t.pc == Claimed || t.pc == Counted || t.pc == Holding || t.pc == Left
  }

  predicate Asking(t: Thread) {
    t.pc == Trying || t.pc == Blocking || t.pc == Parked
  }

  /** Parked for good unless someone wakes it, or about to be. */
  predicate Committed(t: Thread) {
    (t.pc == Blocking && !t.wakePending) || (t.pc == Parked && t.blocked)
  }

  predicate ThreadOk(t: Thread, count: nat) {
    && (Holds(t) <==> t.bits != {})
    && t.bits <= All(count)
    && (Holds(t) ==> if t.exclusive then t.bits == All(count) else |t.bits| == 1)
    && (t.queued ==> t.exclusive && Asking(t))
    && (t.blocked ==> t.pc == Parked)
    && (t.pc != Waking ==> t.list == [])
    && (t.pc == Counted ==> t.now <= count)
  }

  ghost predicate Threads(s: State) {
    forall t :: 0 <= t < |s.ts| ==> ThreadOk(s.ts[t], s.count)
  }

  /** The slots taken are the threads' own, no two sharing one. */
  ghost predicate Owned(s: State) {
    && (forall b :: b in s.busy <==> exists t :: 0 <= t < |s.ts| && b in s.ts[t].bits)
    && (forall t, u :: 0 <= t < u < |s.ts| ==> s.ts[t].bits !! s.ts[u].bits)
  }

  ghost predicate Tallies(s: State) {
    s.exclusiveWaiting == Queued(s.ts) && s.inFlight == InTheAir(s.ts) && s.peak <= s.count
  }

  /** A release has taken this waiter and not yet woken it. */
  ghost predicate Owed(s: State, t: nat) {
    exists u :: 0 <= u < |s.ts| && t in s.ts[u].list
  }

  ghost predicate WaiterOk(s: State, t: nat)
    requires t < |s.ts|
  {
    && (Committed(s.ts[t]) ==> t in s.waiters || Owed(s, t))
    && (Committed(s.ts[t]) && s.ts[t].exclusive && s.busy == {} ==> Owed(s, t))
  }

  ghost predicate Waiters(s: State) {
    && (s.waiters != [] ==> s.busy == All(s.count) || s.exclusiveWaiting > 0)
    && (forall i :: 0 <= i < |s.waiters| ==> s.waiters[i] < |s.ts|)
    && (forall u, i :: 0 <= u < |s.ts| && 0 <= i < |s.ts[u].list| ==> s.ts[u].list[i] < |s.ts|)
    && (forall t :: 0 <= t < |s.ts| ==> WaiterOk(s, t))
  }

  ghost predicate Inv(s: State) {
    1 <= s.count <= 32 && Threads(s) && Owned(s) && Tallies(s) && Waiters(s)
  }

  lemma {:induction false} NoneCounted(ts: seq<Thread>)
    requires forall t :: 0 <= t < |ts| ==> ts[t] == IDLE
    ensures Queued(ts) == 0 && InTheAir(ts) == 0
  {
    if ts != [] {
      NoneCounted(ts[1..]);
    }
  }

  lemma InitInv(s: State)
    requires Init(s)
    ensures Inv(s)
  {
    NoneCounted(s.ts);
  }

  // ---- every step keeps it ----

  /** What a change to one thread does to the threads and the tallies. */
  lemma OneThread(s: State, me: nat, t': Thread, s': State)
    requires Threads(s) && Tallies(s) && me < |s.ts| && ThreadOk(t', s.count)
    requires s'.count == s.count && s'.ts == s.ts[me := t'] && s'.peak <= s.count
    requires s'.inFlight == s.inFlight - (if Flying(s.ts[me]) then 1 else 0) + (if Flying(t') then 1 else 0)
    requires s'.exclusiveWaiting ==
      s.exclusiveWaiting - (if s.ts[me].queued then 1 else 0) + (if t'.queued then 1 else 0)
    ensures Threads(s') && Tallies(s') && (t'.queued ==> s'.exclusiveWaiting > 0)
  {
    hide ThreadOk, Flying;
    QueuedUpdate(s.ts, me, t');
    QueuedUpdate(s'.ts, me, t');
    AirUpdate(s.ts, me, t');
  }

  /** A step that changes one thread's progress, and the tallies with it, but nobody's slots or wakes. */
  lemma LocalInv(s: State, me: nat, t': Thread, s': State)
    requires Inv(s) && me < |s.ts| && ThreadOk(t', s.count)
    requires s' == s.(inFlight := s'.inFlight, peak := s'.peak, ts := s.ts[me := t'])
    requires var t := s.ts[me];
      && t'.bits == t.bits && t'.list == t.list && t'.queued == t.queued
      && (Committed(t') ==> Committed(t) && t'.exclusive == t.exclusive)
      && s'.inFlight == s.inFlight - (if Flying(t) then 1 else 0) + (if Flying(t') then 1 else 0)
      && s'.peak <= s.count
    ensures Inv(s')
  {
    hide Threads, Tallies, Owned, Waiters, ThreadOk, Flying, Committed;
    OneThread(s, me, t', s');
    OwnedSame(s, s');
    WaitersSame(s, s');
  }

  lemma OwnedSame(s: State, s': State)
    requires Owned(s) && s'.busy == s.busy && |s'.ts| == |s.ts|
    requires forall u :: 0 <= u < |s.ts| ==> s'.ts[u].bits == s.ts[u].bits
    ensures Owned(s')
  {
  }

  lemma WaitersSame(s: State, s': State)
    requires Waiters(s) && |s'.ts| == |s.ts| && s'.count == s.count
    requires s'.busy == s.busy && s'.waiters == s.waiters && s'.exclusiveWaiting == s.exclusiveWaiting
    requires forall u :: 0 <= u < |s.ts| ==> s'.ts[u].list == s.ts[u].list
    requires forall u :: 0 <= u < |s.ts| ==>
      (Committed(s'.ts[u]) ==> Committed(s.ts[u]) && s'.ts[u].exclusive == s.ts[u].exclusive)
    ensures Waiters(s')
  {
    hide Committed;
    forall t | 0 <= t < |s'.ts| ensures WaiterOk(s', t) {
      assert WaiterOk(s, t);
      assert Owed(s, t) <==> Owed(s', t);
    }
  }

  /** Claiming: the bits were nobody's, and no single slot goes to anyone while an exclusive request waits. */
  lemma TakeInv(s: State, me: nat, bits: set<nat>, s': State)
    requires Inv(s) && me < |s.ts| && s.ts[me].pc == Trying && Takes(s, me, bits, s')
    requires bits != {} && bits <= Free(s)
    requires if s.ts[me].exclusive then bits == All(s.count) else s.exclusiveWaiting == 0 && |bits| == 1
    ensures Inv(s')
  {
    hide Tallies, Owned, Waiters;
    TallyBounds(s);
    OneThread(s, me, s'.ts[me], s');
    TakeOwned(s, me, bits, s');
    TakeWaiters(s, me, bits, s');
  }

  lemma TakeOwned(s: State, me: nat, bits: set<nat>, s': State)
    requires Inv(s) && me < |s.ts| && s.ts[me].pc == Trying && Takes(s, me, bits, s') && bits <= Free(s)
    ensures Owned(s')
  {
    hide Waiters, Tallies;
    assert s.ts[me].bits == {};
    forall b ensures b in s'.busy <==> exists t :: 0 <= t < |s'.ts| && b in s'.ts[t].bits {
      if b in s.busy {
        var t :| 0 <= t < |s.ts| && b in s.ts[t].bits;
        assert b in s'.ts[t].bits;
      }
      assert b in bits ==> b in s'.ts[me].bits;
    }
    assert forall t, b :: 0 <= t < |s.ts| && b in s.ts[t].bits ==> b in s.busy;
  }

  lemma TakeWaiters(s: State, me: nat, bits: set<nat>, s': State)
    requires Inv(s) && me < |s.ts| && s.ts[me].pc == Trying && Takes(s, me, bits, s') && bits != {} && bits <= Free(s)
    requires if s.ts[me].exclusive then bits == All(s.count) else s.exclusiveWaiting == 0
    ensures Waiters(s')
  {
    hide Tallies, Queued;
    BusyInside(s);
    var b :| b in bits;
    assert b !in s.busy && b in All(s.count) && b in s'.busy;
    assert s.ts[me].exclusive ==> s'.busy == All(s.count);
    forall t | 0 <= t < |s'.ts| ensures WaiterOk(s', t) {
      assert WaiterOk(s, t);
      assert forall u :: 0 <= u < |s.ts| ==> s'.ts[u].list == s.ts[u].list;
      assert Owed(s, t) <==> Owed(s', t);
    }
  }

  lemma BusyInside(s: State)
    requires Threads(s) && Owned(s)
    ensures s.busy <= All(s.count) && (Free(s) == {} ==> s.busy == All(s.count))
  {
    forall b | b in s.busy ensures b in All(s.count) {
      var t :| 0 <= t < |s.ts| && b in s.ts[t].bits;
      assert ThreadOk(s.ts[t], s.count);
    }
  }

  /** Refused: an exclusive request found slots taken, and a single one found them all taken or an exclusive one
      waiting. */
  lemma PushInv(s: State, me: nat, s': State)
    requires Inv(s) && me < |s.ts| && s.ts[me].pc == Trying
    requires s.ts[me].exclusive ==> s.busy != {}
    requires !s.ts[me].exclusive ==> Free(s) == {} || s.exclusiveWaiting != 0
    requires var t := s.ts[me]; var more := t.exclusive && !t.queued;
      s' == s.(exclusiveWaiting := s.exclusiveWaiting + (if more then 1 else 0), waiters := s.waiters + [me],
               ts := s.ts[me := t.(queued := t.queued || more, pc := Blocking)])
    ensures Inv(s')
  {
    hide Threads, Tallies, Owned, Waiters, Free, All;
    PushTallies(s, me, s');
    OwnedSame(s, s');
    BusyInside(s);
    TallyBounds(s);
    PushWaiters(s, me, s'.ts[me], s');
  }

  lemma PushWaiters(s: State, me: nat, t': Thread, s': State)
    requires Waiters(s) && me < |s.ts| && t'.list == s.ts[me].list
    requires s'.count == s.count && s'.busy == s.busy && s'.waiters == s.waiters + [me] && s'.ts == s.ts[me := t']
    requires s'.busy == All(s.count) || s'.exclusiveWaiting > 0
    requires t'.exclusive ==> s.busy != {}
    ensures Waiters(s')
  {
    hide Committed;
    forall t | 0 <= t < |s'.ts| ensures WaiterOk(s', t) {
      assert WaiterOk(s, t);
      assert forall u :: 0 <= u < |s.ts| ==> s'.ts[u].list == s.ts[u].list;
      assert Owed(s, t) <==> Owed(s', t);
      assert me == s'.waiters[|s.waiters|];
    }
  }

  lemma PushTallies(s: State, me: nat, s': State)
    requires Threads(s) && Tallies(s) && me < |s.ts| && s.ts[me].pc == Trying
    requires var t := s.ts[me]; var more := t.exclusive && !t.queued;
      s' == s.(exclusiveWaiting := s.exclusiveWaiting + (if more then 1 else 0), waiters := s.waiters + [me],
               ts := s.ts[me := t.(queued := t.queued || more, pc := Blocking)])
    ensures Threads(s') && Tallies(s') && (s.ts[me].exclusive ==> s'.exclusiveWaiting > 0) && s'.exclusiveWaiting >= 0
  {
    hide Tallies;
    TallyBounds(s);
    assert ThreadOk(s.ts[me], s.count);
    OneThread(s, me, s'.ts[me], s');
    TallyBounds(s');
  }

  lemma TallyBounds(s: State)
    requires Tallies(s)
    ensures s.exclusiveWaiting >= 0 && s.peak <= s.count
  {
  }

  /** Releasing: the slots go back, and everyone who was waiting is now owed a wake. */
  lemma LeaveInv(s: State, me: nat, s': State)
    requires Inv(s) && me < |s.ts| && s.ts[me].pc == Left
    requires s' == s.(busy := s.busy - s.ts[me].bits, waiters := [],
                      ts := s.ts[me := s.ts[me].(bits := {}, list := s.waiters, pc := Waking)])
    ensures Inv(s')
  {
    hide Tallies, Owned, Waiters;
    TallyBounds(s);
    assert ThreadOk(s.ts[me], s.count);
    OneThread(s, me, s'.ts[me], s');
    LeaveOwned(s, me, s');
    LeaveWaiters(s, me, s'.ts[me], s');
  }

  lemma LeaveOwned(s: State, me: nat, s': State)
    requires Owned(s) && me < |s.ts| && |s'.ts| == |s.ts| && s'.busy == s.busy - s.ts[me].bits && s'.ts[me].bits == {}
    requires forall u :: 0 <= u < |s.ts| && u != me ==> s'.ts[u].bits == s.ts[u].bits
    ensures Owned(s')
  {
    forall b ensures b in s'.busy <==> exists t :: 0 <= t < |s'.ts| && b in s'.ts[t].bits {
      if b in s'.busy {
        var t :| 0 <= t < |s.ts| && b in s.ts[t].bits;
        assert b in s'.ts[t].bits;
      }
    }
  }

  lemma LeaveWaiters(s: State, me: nat, t': Thread, s': State)
    requires Waiters(s) && me < |s.ts| && s.ts[me].list == [] && t'.list == s.waiters && t'.pc == Waking
    requires s'.waiters == [] && s'.ts == s.ts[me := t']
    ensures Waiters(s')
  {
    forall t | 0 <= t < |s'.ts| ensures WaiterOk(s', t) {
      assert WaiterOk(s, t);
      if t in s.waiters {
        assert t in s'.ts[me].list;
      }
      if Owed(s, t) {
        var u :| 0 <= u < |s.ts| && t in s.ts[u].list;
        assert t in s'.ts[u].list;
      }
    }
  }

  /** Waking one: it is no longer owed, and no longer parked. */
  lemma WakeInv(s: State, me: nat, s': State)
    requires Inv(s) && me < |s.ts| && s.ts[me].pc == Waking && |s.ts[me].list| > 0 && Wakes(s, me, s.ts[me].list[0], s')
    ensures Inv(s')
  {
    var target := s.ts[me].list[0];
    var mid := s.(ts := s.ts[target := Unblock(s.ts[target])]);
    UnblockInv(s, target, mid);
    hide Tallies, Owned, Waiters;
    TallyBounds(mid);
    assert ThreadOk(mid.ts[me], s.count);
    OneThread(mid, me, s'.ts[me], s');
    OwnedSame(mid, s');
    WokenWaiters(mid, me, target, s'.ts[me], s');
  }

  lemma UnblockInv(s: State, t: nat, s': State)
    requires Inv(s) && t < |s.ts| && s' == s.(ts := s.ts[t := Unblock(s.ts[t])])
    ensures Inv(s') && !Committed(s'.ts[t]) && s'.ts[t].list == s.ts[t].list && s'.ts[t].pc == s.ts[t].pc
  {
    hide Tallies, Owned, Waiters;
    TallyBounds(s);
    assert ThreadOk(s.ts[t], s.count);
    LocalInv(s, t, s'.ts[t], s');
  }

  lemma WokenWaiters(s: State, me: nat, target: nat, t': Thread, s': State)
    requires Waiters(s) && me < |s.ts| && target < |s.ts| && !Committed(s.ts[target])
    requires |s.ts[me].list| > 0 && s.ts[me].list[0] == target
    requires t' == s.ts[me].(list := s.ts[me].list[1..]) && s' == s.(ts := s.ts[me := t'])
    ensures Waiters(s')
  {
    var list := s.ts[me].list;
    assert list == [target] + list[1..];
    forall t | 0 <= t < |s'.ts| ensures WaiterOk(s', t) {
      assert WaiterOk(s, t);
      if t != target && Owed(s, t) {
        var u :| 0 <= u < |s.ts| && t in s.ts[u].list;
        assert t in s'.ts[u].list;
      }
    }
  }

  lemma StepInv(s: State, a: Act, s': State)
    requires Inv(s) && Moves(s, a, s')
    ensures Inv(s')
  {
    hide Threads, Tallies, Owned, Waiters, Acquires, Wakes, All;
    TallyBounds(s);
    match a
    case StrayWake(t) => UnblockInv(s, t, s');
    case Step(me, choice) =>
      var t := s.ts[me];
      if t.pc == Trying {
        AcquireInv(s, me, choice, s');
      } else if t.pc == Left {
        LeaveInv(s, me, s');
      } else if t.pc == Waking && t.list != [] {
        WakeInv(s, me, s');
      } else {
        AloneInv(s, me, choice, s');
      }
  }

  lemma AloneInv(s: State, me: nat, choice: bool, s': State)
    requires Inv(s) && Moves(s, Step(me, choice), s')
    requires var t := s.ts[me]; t.pc != Trying && t.pc != Left && !(t.pc == Waking && t.list != [])
    ensures Inv(s')
  {
    hide Threads, Tallies, Owned, Waiters, Acquires, Wakes, All;
    if Holds(s.ts[me]) {
      CountInv(s, me, choice, s');
    } else {
      RestInv(s, me, choice, s');
    }
  }

  lemma CountInv(s: State, me: nat, choice: bool, s': State)
    requires Inv(s) && Moves(s, Step(me, choice), s') && Holds(s.ts[me]) && s.ts[me].pc != Left
    ensures Inv(s')
  {
    assert ThreadOk(s.ts[me], s.count);
    TallyBounds(s);
    if s.ts[me].pc == Claimed {
      AtMostCount(s, me);
    }
    hide Threads, Tallies, Owned, Waiters, Acquires, Wakes, All;
    match s.ts[me].pc
    case Claimed => LocalInv(s, me, s'.ts[me], s');
    case Counted => LocalInv(s, me, s'.ts[me], s');
    case Holding => LocalInv(s, me, s'.ts[me], s');
  }

  lemma RestInv(s: State, me: nat, choice: bool, s': State)
    requires Inv(s) && Moves(s, Step(me, choice), s')
    requires var t := s.ts[me]; t.pc != Trying && !Holds(t) && !(t.pc == Waking && t.list != [])
    ensures Inv(s')
  {
    assert ThreadOk(s.ts[me], s.count);
    TallyBounds(s);
    hide Threads, Tallies, Owned, Waiters, Acquires, Wakes, All;
    match s.ts[me].pc
    case Out => LocalInv(s, me, s'.ts[me], s');
    case Blocking => LocalInv(s, me, s'.ts[me], s');
    case Parked => LocalInv(s, me, s'.ts[me], s');
    case Waking => LocalInv(s, me, s'.ts[me], s');
  }

  lemma AcquireInv(s: State, me: nat, canSleep: bool, s': State)
    requires Inv(s) && me < |s.ts| && s.ts[me].pc == Trying && Acquires(s, me, canSleep, s')
    ensures Inv(s')
  {
    hide Threads, Tallies, Owned, Waiters, Takes;
    var t := s.ts[me];
    if t.exclusive && s.busy == {} {
      assert 0 in All(s.count);
      TakeInv(s, me, All(s.count), s');
    } else if !t.exclusive && Free(s) != {} && s.exclusiveWaiting == 0 {
      var b :| IsLowest(b, Free(s)) && Takes(s, me, {b}, s');
      TakeInv(s, me, {b}, s');
    } else if canSleep {
      PushInv(s, me, s');
    }
  }

  // ---- never more in flight than there are slots ----

  /** Every thread in flight has a slot of its own. */
  lemma {:induction false} FliersFit(ts: seq<Thread>, bits: set<nat>)
    requires forall t :: 0 <= t < |ts| ==> ts[t].bits <= bits && (Flying(ts[t]) ==> ts[t].bits != {})
    requires forall t, u :: 0 <= t < u < |ts| ==> ts[t].bits !! ts[u].bits
    ensures InTheAir(ts) <= |bits|
  {
    if ts != [] {
      var rest := bits - ts[0].bits;
      assert forall t :: 0 <= t < |ts[1..]| ==> ts[1..][t] == ts[t + 1];
      FliersFit(ts[1..], rest);
      if Flying(ts[0]) {
        var b :| b in ts[0].bits;
        Smaller(rest, bits, b);
      } else {
        Smaller(rest, bits, 0);
      }
    }
  }

  lemma Smaller(x: set<nat>, y: set<nat>, b: nat)
    requires x <= y
    ensures |x| <= |y| && (b in y && b !in x ==> |x| < |y|)
  {
    assert y == x + (y - x) && x !! (y - x);
    assert |y| == |x| + |y - x|;
  }

  /** A thread about to count itself is one of at most `count`. */
  lemma AtMostCount(s: State, me: nat)
    requires Inv(s) && me < |s.ts| && s.ts[me].pc == Claimed
    ensures s.inFlight + 1 <= s.count
  {
    var ts := s.ts[me := s.ts[me].(pc := Holding)];
    AirUpdate(s.ts, me, ts[me]);
    hide InTheAir, Waiters;
    assert forall t :: 0 <= t < |ts| ==> ts[t].bits == s.ts[t].bits;
    assert forall t :: 0 <= t < |ts| ==> ThreadOk(s.ts[t], s.count);
    FliersFit(ts, All(s.count));
  }

  // ---- over whole runs ----

  ghost predicate CanMove(s: State, s': State) {
    exists a :: Moves(s, a, s')
  }

  ghost predicate IsRun(run: seq<State>) {
    |run| > 0 && Init(run[0]) && forall i :: 0 <= i < |run| - 1 ==> CanMove(run[i], run[i + 1])
  }

  lemma {:induction false} RunInv(run: seq<State>, i: nat)
    requires IsRun(run) && i < |run|
    ensures Inv(run[i])
  {
    if i == 0 {
      InitInv(run[0]);
    } else {
      RunInv(run, i - 1);
      assert CanMove(run[i - 1], run[i - 1 + 1]);
      var a :| Moves(run[i - 1], a, run[i]);
      StepInv(run[i - 1], a, run[i]);
    }
  }

  /** Two requests never share a slot, a single one holds exactly one, and an exclusive one holds them all alone. */
  lemma OwnSlots(run: seq<State>, i: nat, t: nat, u: nat)
    requires IsRun(run) && i < |run| && t < |run[i].ts| && u < |run[i].ts| && t != u && Holds(run[i].ts[t])
    ensures run[i].ts[t].bits !! run[i].ts[u].bits
    ensures if run[i].ts[t].exclusive then run[i].ts[t].bits == All(run[i].count) && !Holds(run[i].ts[u])
            else |run[i].ts[t].bits| == 1 && run[i].ts[t].bits <= All(run[i].count)
  {
    RunInv(run, i);
    var s := run[i];
    hide Tallies, Waiters;
    assert ThreadOk(s.ts[t], s.count) && ThreadOk(s.ts[u], s.count);
    assert t < u ==> s.ts[t].bits !! s.ts[u].bits;
    assert u < t ==> s.ts[u].bits !! s.ts[t].bits;
    if s.ts[u].bits != {} {
      var b :| b in s.ts[u].bits;
      assert b in All(s.count) && b !in s.ts[t].bits;
    }
  }

  /** At every point of every interleaving, no more requests are counted than there are slots, nor ever were. */
  lemma NeverOverCount(run: seq<State>, i: nat)
    requires IsRun(run) && i < |run|
    ensures 0 <= run[i].inFlight <= run[i].count && run[i].peak <= run[i].count
  {
    RunInv(run, i);
    var s := run[i];
    hide Waiters, InTheAir;
    assert forall t :: 0 <= t < |s.ts| ==> ThreadOk(s.ts[t], s.count);
    FliersFit(s.ts, All(s.count));
  }

  /** Up and about, or about to be. */
  ghost predicate Stirring(s: State, x: nat)
    requires x < |s.ts|
  {
    !Committed(s.ts[x]) || Owed(s, x)
  }

  /** No lost wake. A request parked in the list is owed a wake, or every slot is taken, or an exclusive request
      waits; and if every slot is free, it is a single one behind an exclusive one that is retrying or owed a
      wake. */
  lemma NoLostWake(run: seq<State>, i: nat, t: nat)
    requires IsRun(run) && i < |run| && t < |run[i].ts| && Committed(run[i].ts[t])
    ensures var s := run[i];
      Owed(s, t) || (t in s.waiters && (s.busy == All(s.count) || s.exclusiveWaiting > 0))
    ensures var s := run[i];
      s.busy == {} && !Owed(s, t) ==>
        && !s.ts[t].exclusive
        && exists x :: 0 <= x < |s.ts| && s.ts[x].exclusive && s.ts[x].queued && Stirring(s, x)
  {
    RunInv(run, i);
    var s := run[i];
    hide Owned;
    assert WaiterOk(s, t);
    if s.busy == {} && !Owed(s, t) {
      assert 0 in All(s.count);
      SomeQueued(s.ts);
      var x :| 0 <= x < |s.ts| && s.ts[x].queued;
      assert ThreadOk(s.ts[x], s.count) && WaiterOk(s, x);
      assert Stirring(s, x);
    }
  }
}
