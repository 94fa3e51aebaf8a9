/** What the scheduler's `block_current` and `unblock` are to the protocols built on them: two flags of a thread, and
    a wake that is never lost between them. */
module Parking {
  import opened Sched
  import Ring
  import Slots
  import Ipc

  /** What a protocol sees of a thread. */
  datatype Flags = Flags(blocked: bool, wakePending: bool)

  function Woken(f: Flags): Flags {
    if f.blocked then f.(blocked := false) else f.(wakePending := true)
  }

  function Parked(f: Flags): Flags {
    if f.wakePending then f.(wakePending := false) else f.(blocked := true)
  }

  function FlagsOf(th: Thread): Flags {
    Flags(th.state == Blocked, th.wakePending)
  }

  /** A step of the scheduler, to the flags of one thread. */
  ghost function After(s: State, step: Step, x: nat): Flags
    requires WellFormed(s) && Enabled(s, step) && x < |s.threads|
  {
    var f := FlagsOf(s.threads[x]);
    match step
    case Unblock(_, t) => if t == x && s.threads[x].state != Finished then Woken(f) else f
    case BlockCurrent(c) => if s.cpus[c].current == x then Parked(f) else f
    case Park(c) => if s.cpus[c].current == x then Flags(true, false) else f
    case Exit(c) => if s.cpus[c].current == x then f.(blocked := false) else f
    case _ => f
  }

  /** Only a wake of the thread, and the thread itself, move its flags: no switch, theft, release, burial, spawn or
      change of priority, on any processor, does. */
  lemma FlagsMove(s: State, step: Step, s': State, x: nat)
    requires Inv(s) && Moves(s, step, s') && x < |s.threads|
    ensures x < |s'.threads| && WellFormed(s) && FlagsOf(s'.threads[x]) == After(s, step, x)
  {
    hide Inv, PopRunnable, PopFrom, DoSchedule, DoSteal, DoBury, DoSwap, DoRelease;
    InvFacts(s);
    match step
    case Schedule(c) => ScheduleFlags(s, c, x);
    case Steal(c, v) => StealFlags(s, c, v, x);
    case Bury(c) => BuryFlags(s, c, x);
    case Swap(c) => SwapFlags(s, c, x);
    case Release(c) => ReleaseFlags(s, c, x);
    case Unblock(_, _) => case BlockCurrent(_) => case Park(_) => case Exit(_) =>
    case SpawnCreate(_, _) => case SpawnEnqueue(_) => case SetPriority(_, _) => case AdoptCpu(_) =>
  }

  lemma ScheduleFlags(s: State, c: nat, x: nat)
    requires Inv(s) && c < |s.cpus| && s.cpus[c].up && s.cpus[c].phase == Outside && s.cpus[c].burying == []
    requires x < |s.threads|
    ensures var s' := DoSchedule(s, c); x < |s'.threads| && FlagsOf(s'.threads[x]) == FlagsOf(s.threads[x])
  {
    hide QueuesOk, GraveyardsOk, Queued, PopRunnable, DoSchedule;
    OutsideFacts(s, c);
    ScheduleShape(s, c);
    PopRunnablePopped(s, c);
    assert CpuOk(s, c) && ThreadOk(s, s.cpus[c].idle);
  }

  lemma StealFlags(s: State, c: nat, v: nat, x: nat)
    requires WellFormed(s) && c < |s.cpus| && v < |s.cpus| && c != v && x < |s.threads|
    ensures var s' := DoSteal(s, c, v); x < |s'.threads| && FlagsOf(s'.threads[x]) == FlagsOf(s.threads[x])
  {
    hide PopFrom;
  }

  lemma {:induction false} FreeFlags(threads: seq<Thread>, ts: seq<nat>, x: nat)
    requires x < |threads|
    ensures FlagsOf(FreeStacks(threads, ts)[x]) == FlagsOf(threads[x])
    decreases ts
  {
    if ts != [] {
      FreeFlags(threads, ts[1..], x);
    }
  }

  lemma BuryFlags(s: State, c: nat, x: nat)
    requires c < |s.cpus| && x < |s.threads|
    ensures var s' := DoBury(s, c); x < |s'.threads| && FlagsOf(s'.threads[x]) == FlagsOf(s.threads[x])
  {
    FreeFlags(s.threads, s.cpus[c].burying, x);
  }

  lemma SwapFlags(s: State, c: nat, x: nat)
    requires WellFormed(s) && c < |s.cpus| && s.cpus[c].up && s.cpus[c].phase.Prepared? && x < |s.threads|
    ensures var s' := DoSwap(s, c); x < |s'.threads| && FlagsOf(s'.threads[x]) == FlagsOf(s.threads[x])
  {
  }

  lemma ReleaseFlags(s: State, c: nat, x: nat)
    requires WellFormed(s) && c < |s.cpus| && s.cpus[c].up && x < |s.threads|
    ensures var s' := DoRelease(s, c); x < |s'.threads| && FlagsOf(s'.threads[x]) == FlagsOf(s.threads[x])
  {
    hide WellFormed;
  }

  /** A wake is never dropped: an unfinished thread is not blocked after it, and is still on its processor, or once
      on the waker's queue, or will find the wake when it comes to block. */
  lemma WakeIsKept(s: State, c: nat, t: nat)
    requires Inv(s) && Enabled(s, Unblock(c, t)) && s.threads[t].state != Finished
    ensures var s' := DoUnblock(s, c, t);
            && WellFormed(s') && s'.threads[t].state != Blocked
            && (|| s'.threads[t].onCpu || s'.threads[t].wakePending
                || (s'.threads[t].owner == c && Queued(s'.cpus[c])[t] == 1))
  {
    hide GraveyardsOk, Queued;
    var s' := DoUnblock(s, c, t);
    UnblockInv(s, c, t);
    assert ThreadOk(s, t) && CpuOk(s, c) && ThreadOk(s, s.cpus[c].idle) && QueueCount(s', c, t);
  }

  // ---- the protocols ----

  /** An endpoint's receiver wakes and parks by the same two moves, and goes on from a park only when not blocked. */
  lemma EndpointParks(s: Ipc.State, me: nat)
    requires me < |s.rs|
    ensures var r, u := s.rs[me], Ipc.Unblock(s.rs[me]);
            Flags(u.blocked, u.wakePending) == Woken(Flags(r.blocked, r.wakePending))
    ensures Ipc.Enabled(s, Ipc.Block(me)) ==>
              var r, u := s.rs[me], Ipc.Next(s, Ipc.Block(me)).rs[me];
              && Flags(u.blocked, u.wakePending) == Parked(Flags(r.blocked, r.wakePending))
              && (u.pc == Ipc.Parked <==> !r.wakePending)
    ensures Ipc.Enabled(s, Ipc.Resume(me)) <==> s.rs[me].pc == Ipc.Parked && !s.rs[me].blocked
  {
  }

  /** So does a side of a ring. */
  lemma RingParks(s: Ring.State, side: Ring.Side)
    requires Ring.Shaped(s)
    ensures var l, u := Ring.Of(s, side), Ring.Unblock(Ring.Of(s, side));
            Flags(u.blocked, u.wakePending) == Woken(Flags(l.blocked, l.wakePending))
    ensures var l := Ring.Of(s, side); l.pc == Ring.Sleeping(Ring.Blocking) ==>
              var u := Ring.Of(Ring.SleepStep(s, side), side);
              && Flags(u.blocked, u.wakePending) == Parked(Flags(l.blocked, l.wakePending))
              && (u.pc == Ring.Sleeping(Ring.Parked) <==> !l.wakePending)
    ensures var l := Ring.Of(s, side); l.pc == Ring.Sleeping(Ring.Parked) ==>
              (Ring.Enabled(s, Ring.Act(side, false, 0)) <==> !l.blocked)
  {
  }

  /** And a request waiting for a slot. */
  lemma RequestParks(s: Slots.State, me: nat, choice: bool, s': Slots.State)
    requires me < |s.ts|
    ensures var t, u := s.ts[me], Slots.Unblock(s.ts[me]);
            Flags(u.blocked, u.wakePending) == Woken(Flags(t.blocked, t.wakePending))
    ensures Slots.Moves(s, Slots.Step(me, choice), s') && s.ts[me].pc == Slots.Blocking ==>
              var t, u := s.ts[me], s'.ts[me];
              && Flags(u.blocked, u.wakePending) == Parked(Flags(t.blocked, t.wakePending))
              && (u.pc == Slots.Parked <==> !t.wakePending)
    ensures Slots.Moves(s, Slots.Step(me, choice), s') && s.ts[me].pc == Slots.Parked ==> !s.ts[me].blocked
  {
  }
}
