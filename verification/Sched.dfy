/** The scheduler as a step system over any number of processors and threads.

    A step is what one processor does under its locks, or one hardware action between them. A
    context switch is three steps -- decide under the lock, swap stacks, release the outgoing
    thread -- and the other processors' wakes, steals, spawns and exits may fall between any two. */
module Sched {

  datatype Option<+T> = None | Some(value: T)

  const LEVELS: nat := 3
  const STARVATION_GUARD: nat := 8

  datatype RunState = Ready | Running | Blocked | Finished

  /** Who has a thread's kernel stack: nobody (it was adopted, not created), the thread, a
      graveyard, or no longer anyone. */
  datatype Stack = Absent | Owned | Buried | Freed

  /** `suspensions` counts the times the thread's registers have been parked, the fabricated first
      frame of a new thread being one. `saved` is what its control block holds: the parking it
      belongs to, or nothing that may be loaded. */
  datatype Thread = Thread(
    state: RunState, priority: nat, owner: nat, onCpu: bool, wakePending: bool,
    saved: Option<nat>, suspensions: nat, stack: Stack, frees: nat, spawning: bool)

  datatype Switch = Switch(from: nat, to: nat, loadFrom: Option<nat>)

  /** Where a processor is in `schedule`: outside, decided but still on the old stack, or on the
      new stack with the old thread not yet released. */
  datatype Phase = Outside | Prepared(switch: Switch) | Arrived

  /** `stands` is the thread whose stack the processor is physically on. */
  datatype Cpu = Cpu(
    up: bool, ready: seq<seq<nat>>, current: nat, idle: nat, pending: Option<nat>,
    streak: nat, boost: nat, graveyard: seq<nat>, burying: seq<nat>, phase: Phase, stands: nat)

  datatype State = State(cpus: seq<Cpu>, threads: seq<Thread>)

  // ---- queues ----

  predicate Runnable(th: Thread) {
    th.state == Ready && !th.onCpu
  }

  /** Pop until a runnable thread comes off; the rest of the queue stays. */
  function PopLevel(q: seq<nat>, threads: seq<Thread>): (r: (Option<nat>, seq<nat>))
    ensures r.0.Some? ==> r.0.value < |threads| && Runnable(threads[r.0.value])
  {
    if q == [] then (None, [])
    else if q[0] < |threads| && Runnable(threads[q[0]]) then (Some(q[0]), q[1..])
    else PopLevel(q[1..], threads)
  }

  function PopFrom(ready: seq<seq<nat>>, threads: seq<Thread>, order: seq<nat>): (r: (Option<nat>, seq<seq<nat>>))
    requires |ready| == LEVELS && forall i :: 0 <= i < |order| ==> order[i] < LEVELS
    ensures |r.1| == LEVELS
    ensures r.0.Some? ==> r.0.value < |threads| && Runnable(threads[r.0.value])
    decreases order
  {
    if order == [] then (None, ready)
    else
      var (found, rest) := PopLevel(ready[order[0]], threads);
      var ready' := ready[order[0] := rest];
      if found.Some? then (found, ready') else PopFrom(ready', threads, order[1..])
  }

  function Order(streak: nat, boost: nat): (o: seq<nat>)
    ensures |o| == LEVELS && forall i :: 0 <= i < |o| ==> o[i] < LEVELS
  {
    if streak < STARVATION_GUARD then [2, 1, 0]
    else if boost == 0 then [0, 1, 2]
    else [1, 0, 2]
  }

  /** The next thread for a processor, honouring the starvation guard. */
  function PopRunnable(me: Cpu, threads: seq<Thread>): (r: (Option<nat>, Cpu))
    requires |me.ready| == LEVELS
    ensures |r.1.ready| == LEVELS
    ensures r.0.Some? ==> r.0.value < |threads| && Runnable(threads[r.0.value])
  {
    var boosting := me.streak >= STARVATION_GUARD;
    var (found, ready) := PopFrom(me.ready, threads, Order(me.streak, me.boost));
    if found.None? then (None, me.(ready := ready))
    else if boosting then (found, me.(ready := ready, streak := 0, boost := if me.boost == 0 then 1 else 0))
    else (found, me.(ready := ready, streak := if me.streak < 0xFFFF_FFFF then me.streak + 1 else me.streak))
  }

  function Enqueue(me: Cpu, threads: seq<Thread>, t: nat): (r: Cpu)
    requires |me.ready| == LEVELS && t < |threads| && threads[t].priority < LEVELS
    ensures |r.ready| == LEVELS
  {
    me.(ready := me.ready[threads[t].priority := me.ready[threads[t].priority] + [t]])
  }

  // ---- the critical sections ----

  predicate WellFormed(s: State) {
    && (forall c :: 0 <= c < |s.cpus| ==> |s.cpus[c].ready| == LEVELS)
    && (forall t :: 0 <= t < |s.threads| ==> s.threads[t].priority < LEVELS && s.threads[t].owner < |s.cpus|)
    && (forall c :: 0 <= c < |s.cpus| && s.cpus[c].up ==>
          && s.cpus[c].current < |s.threads| && s.cpus[c].idle < |s.threads|
          && (s.cpus[c].pending.Some? ==> s.cpus[c].pending.value < |s.threads|)
          && (s.cpus[c].phase.Prepared? ==>
                s.cpus[c].phase.switch.from < |s.threads| && s.cpus[c].phase.switch.to < |s.threads|))
  }

  function With(s: State, c: nat, me: Cpu, t: nat, th: Thread): State
    requires c < |s.cpus| && t < |s.threads|
  {
    State(s.cpus[c := me], s.threads[t := th])
  }

  /** Release the thread a processor switched away from. */
  function FlushPending(s: State, c: nat): (r: State)
    requires WellFormed(s) && c < |s.cpus| && s.cpus[c].up
    ensures WellFormed(r) && |r.cpus| == |s.cpus| && |r.threads| == |s.threads| && r.cpus[c].up
  {
    var me := s.cpus[c];
    if me.pending.None? then s
    else
      var t := me.pending.value;
      var th := s.threads[t].(onCpu := false);
      var me := me.(pending := None);
      if th.state == Ready && t != me.idle then With(s, c, Enqueue(me, s.threads, t), t, th)
      else if th.state == Finished && th.stack == Owned then
        With(s, c, me.(graveyard := me.graveyard + [t]), t, th.(stack := Buried))
      else With(s, c, me, t, th)
  }

  /** Decide the next switch, if there is one to make. */
  function PrepareSwitch(s: State, c: nat): (r: (State, Option<Switch>))
    requires WellFormed(s) && c < |s.cpus| && s.cpus[c].up
    ensures WellFormed(r.0) && |r.0.cpus| == |s.cpus| && |r.0.threads| == |s.threads|
    ensures r.1.Some? ==> r.1.value.from < |s.threads| && r.1.value.to < |s.threads|
  {
    var me0 := s.cpus[c];
    var (found, me) := PopRunnable(me0, s.threads);
    var current := me0.current;
    if found.None? && current != me0.idle && s.threads[current].state == Running then (s.(cpus := s.cpus[c := me]), None)
    else
      var next := if found.Some? then found.value else me0.idle;
      if next == current then (s.(cpus := s.cpus[c := me]), None)
      else
        var outgoing := s.threads[current];
        var outgoing := if outgoing.state == Running then outgoing.(state := Ready) else outgoing;
        var incoming := s.threads[next].(state := Running, onCpu := true);
        var switch := Switch(current, next, incoming.saved);
        var me := me.(pending := Some(current), current := next);
        (State(s.cpus[c := me], s.threads[current := outgoing][next := incoming]), Some(switch))
  }

  // ---- steps ----

  datatype Step =
    | Schedule(c: nat)                 // flush, decide, and take the graveyard, in one critical section
    | Steal(c: nat, victim: nat)
    | Bury(c: nat)                     // free the stacks taken, with no lock held
    | Swap(c: nat)                     // context_switch
    | Release(c: nat)                  // flush_pending on the incoming stack
    | Unblock(c: nat, t: nat)
    | BlockCurrent(c: nat)
    | Park(c: nat)                     // sleep_ticks and join
    | Exit(c: nat)
    | SpawnCreate(c: nat, priority: nat)
    | SpawnEnqueue(t: nat)
    | SetPriority(t: nat, priority: nat)
    | AdoptCpu(c: nat)

  ghost predicate Enabled(s: State, step: Step)
    requires WellFormed(s)
  {
    match step
    case Schedule(c) => c < |s.cpus| && s.cpus[c].up && s.cpus[c].phase == Outside && s.cpus[c].burying == []
    case Steal(c, v) => c < |s.cpus| && v < |s.cpus| && c != v && s.cpus[c].up && s.cpus[c].phase == Outside
    case Bury(c) => c < |s.cpus| && s.cpus[c].up && !s.cpus[c].phase.Arrived?
    case Swap(c) => c < |s.cpus| && s.cpus[c].up && s.cpus[c].phase.Prepared? && s.cpus[c].burying == []
    case Release(c) => c < |s.cpus| && s.cpus[c].up && s.cpus[c].phase == Arrived
    case Unblock(c, t) => c < |s.cpus| && s.cpus[c].up && s.cpus[c].phase == Outside && t < |s.threads|
    case BlockCurrent(c) => Parkable(s, c)
    case Park(c) => Parkable(s, c)
    case Exit(c) => Parkable(s, c)
    case SpawnCreate(c, p) => c < |s.cpus| && s.cpus[c].up && s.cpus[c].phase == Outside && p < LEVELS
    case SpawnEnqueue(t) => t < |s.threads| && s.threads[t].spawning
    case SetPriority(t, p) => t < |s.threads| && p < LEVELS
    case AdoptCpu(c) => c < |s.cpus| && !s.cpus[c].up
  }

  /** The idle thread never blocks or exits, and a finished thread does nothing more. */
  ghost predicate Parkable(s: State, c: nat)
    requires WellFormed(s)
  {
    && c < |s.cpus| && s.cpus[c].up && s.cpus[c].phase == Outside
    && s.cpus[c].current != s.cpus[c].idle && s.threads[s.cpus[c].current].state != Finished
  }

  function NewThread(c: nat, priority: nat): Thread {
    Thread(Ready, priority, c, false, false, Some(1), 1, Owned, 0, true)
  }

  function AdoptedThread(c: nat): Thread {
    Thread(Running, 1, c, true, false, None, 0, Absent, 0, false)
  }

  function FreeStacks(threads: seq<Thread>, ts: seq<nat>): (r: seq<Thread>)
    ensures |r| == |threads|
  {
    if ts == [] then threads
    else
      var rest := FreeStacks(threads, ts[1..]);
      if ts[0] >= |rest| then rest
      else rest[ts[0] := rest[ts[0]].(stack := Freed, frees := rest[ts[0]].frees + 1)]
  }

  function DoSchedule(s: State, c: nat): State
    requires WellFormed(s) && c < |s.cpus| && s.cpus[c].up
  {
    var (p, switch) := PrepareSwitch(FlushPending(s, c), c);
    var me := p.cpus[c];
    var me := me.(burying := me.graveyard, graveyard := [],
                  phase := if switch.Some? then Prepared(switch.value) else Outside);
    p.(cpus := p.cpus[c := me])
  }

  function DoSteal(s: State, c: nat, v: nat): State
    requires WellFormed(s) && c < |s.cpus| && v < |s.cpus| && c != v
  {
    if s.cpus[c].ready != [[], [], []] then s
    else
      var (found, ready) := PopFrom(s.cpus[v].ready, s.threads, [2, 1, 0]);
      var s1 := s.(cpus := s.cpus[v := s.cpus[v].(ready := ready)]);
      if found.None? then s1
      else With(s1, c, Enqueue(s1.cpus[c], s.threads, found.value), found.value, s.threads[found.value].(owner := c))
  }

  function DoBury(s: State, c: nat): State
    requires c < |s.cpus|
  {
    State(s.cpus[c := s.cpus[c].(burying := [])], FreeStacks(s.threads, s.cpus[c].burying))
  }

  function DoSwap(s: State, c: nat): (r: State)
    requires WellFormed(s) && c < |s.cpus| && s.cpus[c].up && s.cpus[c].phase.Prepared?
    ensures |r.cpus| == |s.cpus| && |r.threads| == |s.threads|
  {
    var switch := s.cpus[c].phase.switch;
    var out := s.threads[switch.from];
    var out := out.(suspensions := out.suspensions + 1, saved := Some(out.suspensions + 1));
    State(s.cpus[c := s.cpus[c].(stands := switch.to, phase := Arrived)],
          s.threads[switch.from := out][switch.to := s.threads[switch.to].(saved := None)])
  }

  function DoRelease(s: State, c: nat): State
    requires WellFormed(s) && c < |s.cpus| && s.cpus[c].up
  {
    var f := FlushPending(s, c);
    f.(cpus := f.cpus[c := f.cpus[c].(phase := Outside)])
  }

  function DoUnblock(s: State, c: nat, t: nat): State
    requires WellFormed(s) && c < |s.cpus| && t < |s.threads|
  {
    var th := s.threads[t];
    if th.state != Blocked then
      if th.state != Finished then s.(threads := s.threads[t := th.(wakePending := true)]) else s
    else if th.onCpu then s.(threads := s.threads[t := th.(state := Ready)])
    else With(s, c, Enqueue(s.cpus[c], s.threads, t), t, th.(state := Ready, owner := c))
  }

  function DoBlockCurrent(s: State, c: nat): State
    requires WellFormed(s) && c < |s.cpus| && s.cpus[c].up
  {
    var t := s.cpus[c].current;
    var th := s.threads[t];
    s.(threads := s.threads[t := if th.wakePending then th.(wakePending := false) else th.(state := Blocked)])
  }

  function DoPark(s: State, c: nat): State
    requires WellFormed(s) && c < |s.cpus| && s.cpus[c].up
  {
    var t := s.cpus[c].current;
    s.(threads := s.threads[t := s.threads[t].(wakePending := false, state := Blocked)])
  }

  function DoExit(s: State, c: nat): State
    requires WellFormed(s) && c < |s.cpus| && s.cpus[c].up
  {
    var t := s.cpus[c].current;
    s.(threads := s.threads[t := s.threads[t].(state := Finished)])
  }

  function DoSpawnEnqueue(s: State, t: nat): State
    requires WellFormed(s) && t < |s.threads|
  {
    var c := s.threads[t].owner;
    With(s, c, Enqueue(s.cpus[c], s.threads, t), t, s.threads[t].(spawning := false))
  }

  function DoAdopt(s: State, c: nat): State
    requires c < |s.cpus|
  {
    var t := |s.threads|;
    var me := s.cpus[c].(up := true, current := t, idle := t, pending := None, phase := Outside, stands := t,
                         graveyard := [], burying := []);
    State(s.cpus[c := me], s.threads + [AdoptedThread(c)])
  }

  ghost function Next(s: State, step: Step): (r: State)
    requires WellFormed(s) && Enabled(s, step)
  {
    match step
    case Schedule(c) => DoSchedule(s, c)
    case Steal(c, v) => DoSteal(s, c, v)
    case Bury(c) => DoBury(s, c)
    case Swap(c) => DoSwap(s, c)
    case Release(c) => DoRelease(s, c)
    case Unblock(c, t) => DoUnblock(s, c, t)
    case BlockCurrent(c) => DoBlockCurrent(s, c)
    case Park(c) => DoPark(s, c)
    case Exit(c) => DoExit(s, c)
    case SpawnCreate(c, p) => s.(threads := s.threads + [NewThread(c, p)])
    case SpawnEnqueue(t) => DoSpawnEnqueue(s, t)
    case SetPriority(t, p) => s.(threads := s.threads[t := s.threads[t].(priority := p)])
    case AdoptCpu(c) => DoAdopt(s, c)
  }

  // ---- the invariant ----

  ghost function Queued(me: Cpu): multiset<nat>
    requires |me.ready| == LEVELS
  {
    Members(me.ready)
  }

  /** Whether a thread belongs on its owner's queue. */
  ghost predicate Waiting(s: State, t: nat)
    requires WellFormed(s) && t < |s.threads|
  {
    Runnable(s.threads[t]) && !s.threads[t].spawning && s.cpus[s.threads[t].owner].idle != t
  }

  ghost predicate BelongsOn(s: State, c: nat, t: nat)
    requires WellFormed(s)
  {
    t < |s.threads| && Waiting(s, t) && s.threads[t].owner == c
  }

  /** On exactly one queue, once, its owner's -- or on none, when it is not waiting. */
  ghost predicate QueueCount(s: State, c: nat, t: nat)
    requires WellFormed(s) && c < |s.cpus|
  {
    Queued(s.cpus[c])[t] == if BelongsOn(s, c, t) then 1 else 0
  }

  ghost predicate QueuesOk(s: State)
    requires WellFormed(s)
  {
    forall c: nat, t: nat :: c < |s.cpus| ==> QueueCount(s, c, t)
  }

  ghost predicate CpuOk(s: State, c: nat)
    requires WellFormed(s) && c < |s.cpus| && s.cpus[c].up
  {
    var me := s.cpus[c];
    && s.threads[me.current].owner == c && s.threads[me.current].onCpu
    && s.threads[me.idle].owner == c
    && (me.pending.Some? ==>
          me.pending.value != me.current && s.threads[me.pending.value].owner == c && s.threads[me.pending.value].onCpu)
    && (match me.phase
        case Outside => me.stands == me.current && me.pending == None
        case Prepared(sw) =>
          && me.stands == sw.from && me.pending == Some(sw.from) && me.current == sw.to
          && sw.loadFrom == s.threads[sw.to].saved == Some(s.threads[sw.to].suspensions)
          && s.threads[sw.to].state == Running
        case Arrived =>
          && me.stands == me.current && me.pending.Some?
          && s.threads[me.pending.value].saved == Some(s.threads[me.pending.value].suspensions))
  }

  ghost predicate ThreadOk(s: State, t: nat)
    requires WellFormed(s) && t < |s.threads|
  {
    var th := s.threads[t];
    var me := s.cpus[th.owner];
    && me.up
    && (th.onCpu <==> me.current == t || me.pending == Some(t))
    && (th.state == Running ==> me.current == t)
    && (me.idle == t ==> th.state == Ready || th.state == Running)
    && (th.spawning ==> th.state == Ready && !th.onCpu && me.idle != t)
    && (!th.onCpu ==> th.saved == Some(th.suspensions))
    && (if th.state == Finished && !th.onCpu then th.stack != Owned else th.stack == Absent || th.stack == Owned)
    && th.frees == (if th.stack == Freed then 1 else 0)
  }

  /** Each buried stack is on one list, once. */
  ghost predicate GraveCount(s: State, c: nat, t: nat)
    requires c < |s.cpus|
  {
    (multiset(s.cpus[c].graveyard) + multiset(s.cpus[c].burying))[t] ==
      if t < |s.threads| && s.threads[t].stack == Buried && s.threads[t].owner == c then 1 else 0
  }

  ghost predicate GraveyardsOk(s: State) {
    forall c: nat, t: nat :: c < |s.cpus| ==> GraveCount(s, c, t)
  }

  ghost predicate Inv(s: State) {
    && WellFormed(s)
    && (forall c :: 0 <= c < |s.cpus| && s.cpus[c].up ==> CpuOk(s, c))
    && (forall t :: 0 <= t < |s.threads| ==> ThreadOk(s, t))
    && QueuesOk(s)
    && GraveyardsOk(s)
  }

  /** One processor up, running an adopted boot thread, with a created idle thread beside it. */
  ghost predicate Init(s: State) {
    && |s.cpus| > 0
    && s.threads == [AdoptedThread(0), NewThread(0, 0).(spawning := false)]
    && (forall c :: 0 <= c < |s.cpus| ==>
          s.cpus[c] == Cpu(c == 0, [[], [], []], 0, 1, None, 0, 0, [], [], Outside, 0))
  }

  lemma InitInv(s: State)
    requires Init(s)
    ensures Inv(s)
  {
  }

  // ---- queue facts ----

  lemma EnqueueQueued(me: Cpu, threads: seq<Thread>, t: nat)
    requires |me.ready| == LEVELS && t < |threads| && threads[t].priority < LEVELS
    ensures Queued(Enqueue(me, threads, t)) == Queued(me) + multiset{t}
  {
  }

  ghost predicate AllRunnable(ready: seq<seq<nat>>, threads: seq<Thread>) {
    forall l, i :: 0 <= l < |ready| && 0 <= i < |ready[l]| ==>
      ready[l][i] < |threads| && Runnable(threads[ready[l][i]])
  }

  lemma QueuesRunnable(s: State, c: nat)
    requires WellFormed(s) && QueuesOk(s) && c < |s.cpus|
    ensures AllRunnable(s.cpus[c].ready, s.threads)
  {
    forall l, i | 0 <= l < LEVELS && 0 <= i < |s.cpus[c].ready[l]|
      ensures s.cpus[c].ready[l][i] < |s.threads| && Runnable(s.threads[s.cpus[c].ready[l][i]])
    {
      var t := s.cpus[c].ready[l][i];
      assert t in multiset(s.cpus[c].ready[l]);
      assert l == 0 || l == 1 || l == 2;
      assert QueueCount(s, c, t);
    }
  }

  /** The first occupied level in an order. */
  function FirstOccupied(ready: seq<seq<nat>>, order: seq<nat>): (r: Option<nat>)
    requires |ready| == LEVELS && forall i :: 0 <= i < |order| ==> order[i] < LEVELS
    ensures r.Some? ==> r.value < LEVELS && ready[r.value] != []
    ensures r.None? ==> forall i :: 0 <= i < |order| ==> ready[order[i]] == []
  {
    if order == [] then None
    else if ready[order[0]] != [] then Some(order[0])
    else FirstOccupied(ready, order[1..])
  }

  /** No queued thread is ever discarded: popping takes the head of the first occupied level. */
  lemma {:induction false} PopTakesHead(ready: seq<seq<nat>>, threads: seq<Thread>, order: seq<nat>)
    requires |ready| == LEVELS && forall i :: 0 <= i < |order| ==> order[i] < LEVELS
    requires AllRunnable(ready, threads)
    ensures PopFrom(ready, threads, order) ==
            match FirstOccupied(ready, order)
            case None => (None, ready)
            case Some(l) => (Some(ready[l][0]), ready[l := ready[l][1..]])
    decreases order
  {
    if order != [] {
      var l := order[0];
      if ready[l] == [] {
        assert ready[l := []] == ready;
        PopTakesHead(ready, threads, order[1..]);
      } else {
        assert Runnable(threads[ready[l][0]]);
      }
    }
  }

  ghost function Members(ready: seq<seq<nat>>): multiset<nat>
    requires |ready| == LEVELS
  {
    multiset(ready[0]) + multiset(ready[1]) + multiset(ready[2])
  }

  lemma PopMembers(ready: seq<seq<nat>>, threads: seq<Thread>, order: seq<nat>)
    requires |ready| == LEVELS && forall i :: 0 <= i < |order| ==> order[i] < LEVELS
    requires AllRunnable(ready, threads)
    ensures var (found, ready') := PopFrom(ready, threads, order);
            if found.Some? then found.value in Members(ready) && Members(ready') == Members(ready) - multiset{found.value}
            else ready' == ready
  {
    PopTakesHead(ready, threads, order);
    match FirstOccupied(ready, order) {
      case None =>
      case Some(l) =>
        var q := ready[l];
        assert q == [q[0]] + q[1..];
        assert multiset(q) == multiset{q[0]} + multiset(q[1..]);
        assert q[0] in multiset(q);
    }
  }

  // ---- every step keeps the invariant ----

  /** The parts of a processor that say which threads it stands on and holds. */
  predicate SameRoles(a: Cpu, b: Cpu) {
    && a.up == b.up && a.current == b.current && a.idle == b.idle && a.pending == b.pending
    && a.phase == b.phase && a.stands == b.stands && a.graveyard == b.graveyard && a.burying == b.burying
  }

  /** A thread that stays where it is: on its processor with its registers where they were, or off
      every processor, in which case it may change owner. */
  ghost predicate Kept(s: State, s': State, x: nat)
    requires WellFormed(s) && WellFormed(s') && |s.threads| == |s'.threads| && x < |s.threads|
  {
    var a, b := s.threads[x], s'.threads[x];
    && a.onCpu == b.onCpu && a.saved == b.saved && a.suspensions == b.suspensions
    && a.stack == b.stack && a.frees == b.frees
    && (a.owner == b.owner ||
        (!a.onCpu && a.state != Finished && s.cpus[a.owner].idle != x && s'.cpus[b.owner].up && s'.cpus[b.owner].idle != x))
    && (b.state == Running ==> a.state == Running)
    && (b.state == Finished && !a.onCpu ==> a.state == Finished)
    && (a.state == Finished ==> b.state == Finished)
    && (s.cpus[a.owner].idle == x ==> b.state == Ready || b.state == Running)
    && (b.spawning ==> a.spawning && b.state == Ready)
    && (a.state == Running && s.cpus[a.owner].phase != Outside ==> b.state == Running)
  }

  ghost predicate RolesKept(s: State, s': State) {
    && WellFormed(s) && WellFormed(s') && |s.threads| == |s'.threads| && |s.cpus| == |s'.cpus|
    && (forall d :: 0 <= d < |s.cpus| ==> SameRoles(s.cpus[d], s'.cpus[d]))
    && (forall x :: 0 <= x < |s.threads| ==> Kept(s, s', x))
  }

  lemma KeptCpus(s: State, s': State, d: nat)
    requires Inv(s) && RolesKept(s, s') && d < |s.cpus| && s.cpus[d].up
    ensures CpuOk(s', d)
  {
    hide QueuesOk, GraveyardsOk;
    var me := s.cpus[d];
    assert SameRoles(me, s'.cpus[d]) && CpuOk(s, d);
    assert Kept(s, s', me.current) && Kept(s, s', me.idle);
    if me.pending.Some? { assert Kept(s, s', me.pending.value); }
  }

  lemma KeptThreads(s: State, s': State, x: nat)
    requires Inv(s) && RolesKept(s, s') && x < |s.threads|
    ensures ThreadOk(s', x)
  {
    hide QueuesOk, GraveyardsOk;
    assert ThreadOk(s, x) && Kept(s, s', x);
    var o, o' := s.threads[x].owner, s'.threads[x].owner;
    assert SameRoles(s.cpus[o], s'.cpus[o]) && SameRoles(s.cpus[o'], s'.cpus[o']);
    if o != o' { assert CpuOk(s, o'); }
  }

  lemma KeptGraves(s: State, s': State, d: nat, x: nat)
    requires Inv(s) && RolesKept(s, s') && d < |s.cpus|
    ensures GraveCount(s', d, x)
  {
    hide QueuesOk, CpuOk;
    assert GraveCount(s, d, x) && SameRoles(s.cpus[d], s'.cpus[d]);
    if x < |s.threads| { assert Kept(s, s', x) && ThreadOk(s, x); }
  }

  lemma KeptInv(s: State, s': State)
    requires Inv(s) && RolesKept(s, s') && QueuesOk(s')
    ensures Inv(s')
  {
    hide QueuesOk, RolesKept, CpuOk, ThreadOk, GraveCount;
    RolesUp(s, s', 0);
    forall d: nat | d < |s'.cpus| && s'.cpus[d].up ensures CpuOk(s', d) { RolesUp(s, s', d); KeptCpus(s, s', d); }
    forall x: nat | x < |s'.threads| ensures ThreadOk(s', x) { KeptThreads(s, s', x); }
    forall d: nat, x: nat | d < |s'.cpus| ensures GraveCount(s', d, x) { KeptGraves(s, s', d, x); }
  }

  lemma RolesUp(s: State, s': State, d: nat)
    requires RolesKept(s, s')
    ensures WellFormed(s') && |s.cpus| == |s'.cpus| && |s.threads| == |s'.threads|
    ensures d < |s.cpus| ==> s.cpus[d].up == s'.cpus[d].up
  {
    if d < |s.cpus| { assert SameRoles(s.cpus[d], s'.cpus[d]); }
  }

  lemma UnblockRoles(s: State, c: nat, t: nat)
    requires Inv(s) && c < |s.cpus| && s.cpus[c].up && t < |s.threads|
    ensures RolesKept(s, DoUnblock(s, c, t))
  {
    hide QueuesOk, GraveyardsOk, Queued, CpuOk, ThreadOk, Kept;
    var s' := DoUnblock(s, c, t);
    assert WellFormed(s');
    UnblockedKept(s, c, t);
    forall x: nat | x < |s.threads| && x != t ensures Kept(s, s', x) { UntouchedKept(s, s', x); }
  }

  lemma UnblockedKept(s: State, c: nat, t: nat)
    requires Inv(s) && c < |s.cpus| && s.cpus[c].up && t < |s.threads| && WellFormed(DoUnblock(s, c, t))
    ensures Kept(s, DoUnblock(s, c, t), t)
  {
    hide QueuesOk, GraveyardsOk, Queued;
    assert ThreadOk(s, t) && CpuOk(s, c) && ThreadOk(s, s.cpus[c].idle);
  }

  /** A thread no step has touched, on processors that keep their roles. */
  lemma UntouchedKept(s: State, s': State, x: nat)
    requires Inv(s) && WellFormed(s') && |s.threads| == |s'.threads| && x < |s.threads| && s'.threads[x] == s.threads[x]
    ensures Kept(s, s', x)
  {
    hide QueuesOk, GraveyardsOk, Queued;
    assert ThreadOk(s, x);
  }

  lemma UnblockQueues(s: State, c: nat, t: nat)
    requires Inv(s) && c < |s.cpus| && s.cpus[c].up && t < |s.threads| && WellFormed(DoUnblock(s, c, t))
    ensures QueuesOk(DoUnblock(s, c, t))
  {
    hide GraveyardsOk, Queued;
    var s' := DoUnblock(s, c, t);
    EnqueueQueued(s.cpus[c], s.threads, t);
    SameQueue(s, s');
    assert ThreadOk(s, t) && CpuOk(s, c) && ThreadOk(s, s.cpus[c].idle);
    forall d: nat, x: nat | d < |s'.cpus| ensures QueueCount(s', d, x) { assert QueueCount(s, d, x); }
  }

  lemma SameQueue(s: State, s': State)
    requires WellFormed(s) && WellFormed(s') && |s.cpus| == |s'.cpus|
    ensures forall d :: 0 <= d < |s.cpus| && s.cpus[d].ready == s'.cpus[d].ready ==> Queued(s.cpus[d]) == Queued(s'.cpus[d])
  {
  }

  lemma UnblockInv(s: State, c: nat, t: nat)
    requires Inv(s) && c < |s.cpus| && s.cpus[c].up && t < |s.threads|
    ensures Inv(DoUnblock(s, c, t))
  {
    hide Inv, QueuesOk, DoUnblock;
    UnblockRoles(s, c, t);
    UnblockQueues(s, c, t);
    KeptInv(s, DoUnblock(s, c, t));
  }

  /** Changing only a thread's wake flag or priority, or the state of a thread on a processor that
      is not an idle thread. */
  ghost predicate InPlace(s: State, t: nat, th: Thread)
    requires WellFormed(s) && t < |s.threads|
  {
    var a := s.threads[t];
    && th == a.(state := th.state, wakePending := th.wakePending, priority := th.priority)
    && th.priority < LEVELS
    && (th.state == a.state ||
        (a.onCpu && s.cpus[a.owner].idle != t && s.cpus[a.owner].phase == Outside && a.state != Finished && (th.state == Blocked || th.state == Finished)))
  }

  lemma InPlaceInv(s: State, t: nat, th: Thread)
    requires Inv(s) && t < |s.threads| && InPlace(s, t, th)
    ensures Inv(s.(threads := s.threads[t := th]))
  {
    InPlaceRoles(s, t, th);
    InPlaceQueues(s, t, th);
    KeptInv(s, s.(threads := s.threads[t := th]));
  }

  lemma InPlaceRoles(s: State, t: nat, th: Thread)
    requires Inv(s) && t < |s.threads| && InPlace(s, t, th)
    ensures RolesKept(s, s.(threads := s.threads[t := th]))
  {
    hide QueuesOk, GraveyardsOk, Queued, CpuOk;
    var s' := s.(threads := s.threads[t := th]);
    assert WellFormed(s');
    forall x: nat | x < |s.threads| ensures Kept(s, s', x) { assert ThreadOk(s, x); }
  }

  lemma InPlaceQueues(s: State, t: nat, th: Thread)
    requires Inv(s) && t < |s.threads| && InPlace(s, t, th) && WellFormed(s.(threads := s.threads[t := th]))
    ensures QueuesOk(s.(threads := s.threads[t := th]))
  {
    hide GraveyardsOk, Queued, CpuOk;
    var s' := s.(threads := s.threads[t := th]);
    forall d: nat, x: nat | d < |s'.cpus| ensures QueueCount(s', d, x) { assert QueueCount(s, d, x); }
  }

  lemma CurrentFacts(s: State, c: nat)
    requires Inv(s) && c < |s.cpus| && s.cpus[c].up
    ensures s.threads[s.cpus[c].current].owner == c && s.threads[s.cpus[c].current].onCpu
  {
    assert CpuOk(s, c);
  }

  lemma SpawnEnqueueInv(s: State, t: nat)
    requires Inv(s) && t < |s.threads| && s.threads[t].spawning
    ensures Inv(DoSpawnEnqueue(s, t))
  {
    SpawnEnqueueRoles(s, t);
    SpawnEnqueueQueues(s, t);
    KeptInv(s, DoSpawnEnqueue(s, t));
  }

  lemma SpawnEnqueueRoles(s: State, t: nat)
    requires Inv(s) && t < |s.threads| && s.threads[t].spawning
    ensures RolesKept(s, DoSpawnEnqueue(s, t))
  {
    hide QueuesOk, GraveyardsOk, Queued, CpuOk;
    var s' := DoSpawnEnqueue(s, t);
    assert WellFormed(s');
    forall x: nat | x < |s.threads| ensures Kept(s, s', x) { assert ThreadOk(s, x); }
  }

  lemma SpawnEnqueueQueues(s: State, t: nat)
    requires Inv(s) && t < |s.threads| && s.threads[t].spawning && WellFormed(DoSpawnEnqueue(s, t))
    ensures QueuesOk(DoSpawnEnqueue(s, t))
  {
    hide GraveyardsOk, Queued, CpuOk;
    var s' := DoSpawnEnqueue(s, t);
    EnqueueQueued(s.cpus[s.threads[t].owner], s.threads, t);
    SameQueue(s, s');
    assert ThreadOk(s, t);
    forall d: nat, x: nat | d < |s'.cpus| ensures QueueCount(s', d, x) { assert QueueCount(s, d, x); }
  }

  // ---- stealing ----

  /** What a steal takes is a waiting thread of the victim's. */
  lemma PopWaiting(s: State, v: nat, order: seq<nat>)
    requires Inv(s) && v < |s.cpus| && forall i :: 0 <= i < |order| ==> order[i] < LEVELS
    ensures var (found, ready) := PopFrom(s.cpus[v].ready, s.threads, order);
            if found.Some? then
              BelongsOn(s, v, found.value) && Members(ready) == Queued(s.cpus[v]) - multiset{found.value}
            else ready == s.cpus[v].ready
  {
    hide PopFrom, AllRunnable;
    QueuesRunnable(s, v);
    PopMembers(s.cpus[v].ready, s.threads, order);
    var found := PopFrom(s.cpus[v].ready, s.threads, order).0;
    if found.Some? { assert QueueCount(s, v, found.value); }
  }

  /** Thread `t` moved from the victim's queue, which is left as `ready`, to the thief's. */
  function Stolen(s: State, c: nat, v: nat, t: nat, ready: seq<seq<nat>>): State
    requires WellFormed(s) && c < |s.cpus| && v < |s.cpus| && c != v && t < |s.threads|
  {
    var s1 := s.(cpus := s.cpus[v := s.cpus[v].(ready := ready)]);
    With(s1, c, Enqueue(s.cpus[c], s.threads, t), t, s.threads[t].(owner := c))
  }

  ghost predicate Stealable(s: State, c: nat, v: nat, t: nat, ready: seq<seq<nat>>) {
    && Inv(s) && c < |s.cpus| && v < |s.cpus| && c != v && s.cpus[c].up
    && BelongsOn(s, v, t)
    && |ready| == LEVELS && Members(ready) == Queued(s.cpus[v]) - multiset{t}
  }

  lemma StolenRoles(s: State, c: nat, v: nat, t: nat, ready: seq<seq<nat>>)
    requires Stealable(s, c, v, t, ready)
    ensures RolesKept(s, Stolen(s, c, v, t, ready))
  {
    hide QueuesOk, GraveyardsOk, Queued, Members, CpuOk, ThreadOk, Kept;
    var s' := Stolen(s, c, v, t, ready);
    assert WellFormed(s');
    StolenKept(s, c, v, t, ready);
    forall x: nat | x < |s.threads| && x != t ensures Kept(s, s', x) { UntouchedKept(s, s', x); }
  }

  lemma StolenKept(s: State, c: nat, v: nat, t: nat, ready: seq<seq<nat>>)
    requires Stealable(s, c, v, t, ready) && WellFormed(Stolen(s, c, v, t, ready))
    ensures Kept(s, Stolen(s, c, v, t, ready), t)
  {
    hide QueuesOk, GraveyardsOk, Queued, Members;
    assert CpuOk(s, c) && ThreadOk(s, s.cpus[c].idle) && ThreadOk(s, t);
  }

  lemma StolenQueues(s: State, c: nat, v: nat, t: nat, ready: seq<seq<nat>>)
    requires Stealable(s, c, v, t, ready) && WellFormed(Stolen(s, c, v, t, ready))
    ensures QueuesOk(Stolen(s, c, v, t, ready))
  {
    hide GraveyardsOk, Members;
    var s' := Stolen(s, c, v, t, ready);
    assert CpuOk(s, c) && ThreadOk(s, t);
    EnqueueQueued(s.cpus[c], s.threads, t);
    assert Queued(s'.cpus[v]) == Queued(s.cpus[v]) - multiset{t};
    forall d: nat, x: nat | d < |s'.cpus| ensures QueueCount(s', d, x) { assert QueueCount(s, d, x); }
  }

  lemma StealInv(s: State, c: nat, v: nat)
    requires Inv(s) && c < |s.cpus| && v < |s.cpus| && c != v && s.cpus[c].up
    ensures Inv(DoSteal(s, c, v))
  {
    PopWaiting(s, v, [2, 1, 0]);
    hide Inv, PopFrom, Members, RolesKept, QueuesOk;
    var (found, ready) := PopFrom(s.cpus[v].ready, s.threads, [2, 1, 0]);
    if found.Some? {
      StolenRoles(s, c, v, found.value, ready);
      RolesUp(s, Stolen(s, c, v, found.value, ready), c);
      StolenQueues(s, c, v, found.value, ready);
      KeptInv(s, Stolen(s, c, v, found.value, ready));
    } else {
      assert s.cpus[v := s.cpus[v].(ready := ready)] == s.cpus;
    }
  }

  // ---- new threads and processors ----

  lemma SpawnCreateInv(s: State, c: nat, p: nat)
    requires Inv(s) && c < |s.cpus| && s.cpus[c].up && p < LEVELS
    ensures Inv(s.(threads := s.threads + [NewThread(c, p)]))
  {
    hide Queued;
    var s' := s.(threads := s.threads + [NewThread(c, p)]);
    assert CpuOk(s, c);
    forall d: nat | d < |s'.cpus| && s'.cpus[d].up ensures CpuOk(s', d) { assert CpuOk(s, d); }
    forall x: nat | x < |s'.threads| ensures ThreadOk(s', x) { if x < |s.threads| { assert ThreadOk(s, x); } }
    forall d: nat, x: nat | d < |s'.cpus| ensures QueueCount(s', d, x) { assert QueueCount(s, d, x); }
    forall d: nat, x: nat | d < |s'.cpus| ensures GraveCount(s', d, x) { assert GraveCount(s, d, x); }
  }

  lemma AdoptInv(s: State, c: nat)
    requires Inv(s) && c < |s.cpus| && !s.cpus[c].up
    ensures Inv(DoAdopt(s, c))
  {
    AdoptOk(s, c);
    AdoptCounts(s, c);
  }

  lemma AdoptOk(s: State, c: nat)
    requires Inv(s) && c < |s.cpus| && !s.cpus[c].up
    ensures var s' := DoAdopt(s, c);
            && WellFormed(s')
            && (forall d :: 0 <= d < |s'.cpus| && s'.cpus[d].up ==> CpuOk(s', d))
            && (forall x :: 0 <= x < |s'.threads| ==> ThreadOk(s', x))
  {
    hide QueuesOk, GraveyardsOk, Queued;
    var s' := DoAdopt(s, c);
    assert WellFormed(s');
    forall d: nat | d < |s'.cpus| && s'.cpus[d].up ensures CpuOk(s', d) { if d != c { assert CpuOk(s, d); } }
    forall x: nat | x < |s'.threads| ensures ThreadOk(s', x) { if x < |s.threads| { assert ThreadOk(s, x); } }
  }

  lemma AdoptCounts(s: State, c: nat)
    requires Inv(s) && c < |s.cpus| && !s.cpus[c].up && WellFormed(DoAdopt(s, c))
    ensures QueuesOk(DoAdopt(s, c)) && GraveyardsOk(DoAdopt(s, c))
  {
    hide Queued, CpuOk;
    var s' := DoAdopt(s, c);
    SameQueue(s, s');
    forall d: nat, x: nat | d < |s'.cpus| ensures QueueCount(s', d, x) {
      assert QueueCount(s, d, x);
      if x < |s.threads| { assert ThreadOk(s, x); }
    }
    forall d: nat, x: nat | d < |s'.cpus| ensures GraveCount(s', d, x) {
      assert GraveCount(s, d, x);
      if x < |s.threads| { assert ThreadOk(s, x); }
    }
  }

  // ---- the switch ----

  /** The pending thread of a processor, and what is known about it. */
  lemma PendingFacts(s: State, c: nat)
    requires Inv(s) && c < |s.cpus| && s.cpus[c].up && s.cpus[c].pending.Some?
    ensures var t := s.cpus[c].pending.value;
            && t != s.cpus[c].current && s.threads[t].owner == c && s.threads[t].onCpu
            && s.threads[t].state != Running && !s.threads[t].spawning
            && (s.threads[t].stack == Absent || s.threads[t].stack == Owned)
  {
    assert CpuOk(s, c) && ThreadOk(s, s.cpus[c].pending.value);
  }

  lemma SwapInv(s: State, c: nat)
    requires Inv(s) && c < |s.cpus| && s.cpus[c].up && s.cpus[c].phase.Prepared?
    ensures Inv(DoSwap(s, c))
  {
    SwapOk(s, c);
    SwapCounts(s, c);
  }

  lemma SwapCpus(s: State, c: nat, d: nat)
    requires Inv(s) && c < |s.cpus| && s.cpus[c].up && s.cpus[c].phase.Prepared?
    requires d < |s.cpus| && s.cpus[d].up
    ensures WellFormed(DoSwap(s, c)) && DoSwap(s, c).cpus[d].up && CpuOk(DoSwap(s, c), d)
  {
    hide QueuesOk, GraveyardsOk, ThreadOk;
    PendingFacts(s, c);
    CurrentFacts(s, c);
    assert CpuOk(s, c) && CpuOk(s, d);
  }

  lemma SwapThreads(s: State, c: nat, x: nat)
    requires Inv(s) && c < |s.cpus| && s.cpus[c].up && s.cpus[c].phase.Prepared? && x < |s.threads|
    ensures WellFormed(DoSwap(s, c)) && ThreadOk(DoSwap(s, c), x)
  {
    hide QueuesOk, GraveyardsOk;
    PendingFacts(s, c);
    CurrentFacts(s, c);
    assert CpuOk(s, c) && ThreadOk(s, x);
  }

  lemma SwapOk(s: State, c: nat)
    requires Inv(s) && c < |s.cpus| && s.cpus[c].up && s.cpus[c].phase.Prepared?
    ensures var s' := DoSwap(s, c);
            && WellFormed(s')
            && (forall d :: 0 <= d < |s'.cpus| && s'.cpus[d].up ==> CpuOk(s', d))
            && (forall x :: 0 <= x < |s'.threads| ==> ThreadOk(s', x))
  {
    hide QueuesOk, GraveyardsOk, CpuOk, ThreadOk, WellFormed;
    var s' := DoSwap(s, c);
    SwapCpus(s, c, c);
    forall d: nat | d < |s'.cpus| && s'.cpus[d].up ensures CpuOk(s', d) { SwapCpus(s, c, d); }
    forall x: nat | x < |s'.threads| ensures ThreadOk(s', x) { SwapThreads(s, c, x); }
  }

  lemma SwapCounts(s: State, c: nat)
    requires Inv(s) && c < |s.cpus| && s.cpus[c].up && s.cpus[c].phase.Prepared? && WellFormed(DoSwap(s, c))
    ensures QueuesOk(DoSwap(s, c)) && GraveyardsOk(DoSwap(s, c))
  {
    hide Queued;
    var s' := DoSwap(s, c);
    SameQueue(s, s');
    forall d: nat, x: nat | d < |s'.cpus| ensures QueueCount(s', d, x) { assert QueueCount(s, d, x); }
    forall d: nat, x: nat | d < |s'.cpus| ensures GraveCount(s', d, x) { assert GraveCount(s, d, x); }
  }

  lemma ReleaseInv(s: State, c: nat)
    requires Inv(s) && c < |s.cpus| && s.cpus[c].up && s.cpus[c].phase == Arrived
    ensures Inv(DoRelease(s, c))
  {
    ReleaseOk(s, c);
    ReleaseQueues(s, c);
    ReleaseGraves(s, c);
  }

  /** What a release changes: the pending thread is off the processor, with its stack buried if it has finished, and
      nothing about any other thread or processor. */
  lemma ReleaseShape(s: State, c: nat, s': State)
    requires Inv(s) && c < |s.cpus| && s.cpus[c].up && s.cpus[c].pending.Some? && s' == DoRelease(s, c)
    ensures WellFormed(s') && |s'.cpus| == |s.cpus| && |s'.threads| == |s.threads|
    ensures forall d :: 0 <= d < |s.cpus| && d != c ==> s'.cpus[d] == s.cpus[d]
    ensures var me := s'.cpus[c];
      && me.up && me.current == s.cpus[c].current && me.idle == s.cpus[c].idle && me.pending == None
      && me.phase == Outside && me.stands == s.cpus[c].stands && me.burying == s.cpus[c].burying
    ensures var t := s.cpus[c].pending.value; var th := s.threads[t];
      && s'.cpus[c].graveyard ==
           (if th.state == Finished && th.stack == Owned then s.cpus[c].graveyard + [t] else s.cpus[c].graveyard)
      && (forall x :: 0 <= x < |s.threads| && x != t ==> s'.threads[x] == s.threads[x])
      && s'.threads[t] ==
           th.(onCpu := false, stack := if th.state == Finished && th.stack == Owned then Buried else th.stack)
  {
    hide QueuesOk, GraveyardsOk, ThreadOk, CpuOk;
  }

  lemma ReleaseCpus(s: State, c: nat, d: nat)
    requires Inv(s) && c < |s.cpus| && s.cpus[c].up && s.cpus[c].phase == Arrived
    requires d < |s.cpus| && s.cpus[d].up
    ensures WellFormed(DoRelease(s, c)) && DoRelease(s, c).cpus[d].up && CpuOk(DoRelease(s, c), d)
  {
    hide QueuesOk, GraveyardsOk, ThreadOk, DoRelease;
    assert CpuOk(s, c) && CpuOk(s, d);
    ReleaseShape(s, c, DoRelease(s, c));
    PendingFacts(s, c);
    CurrentFacts(s, c);
    assert d != c ==> s.threads[s.cpus[d].current].owner != c && s.threads[s.cpus[d].idle].owner != c;
  }

  lemma ReleaseThreads(s: State, c: nat, x: nat)
    requires Inv(s) && c < |s.cpus| && s.cpus[c].up && s.cpus[c].phase == Arrived && x < |s.threads|
    ensures WellFormed(DoRelease(s, c)) && ThreadOk(DoRelease(s, c), x)
  {
    hide QueuesOk, GraveyardsOk, DoRelease;
    assert CpuOk(s, c) && ThreadOk(s, x);
    ReleaseShape(s, c, DoRelease(s, c));
    PendingFacts(s, c);
    CurrentFacts(s, c);
  }

  lemma ReleaseOk(s: State, c: nat)
    requires Inv(s) && c < |s.cpus| && s.cpus[c].up && s.cpus[c].phase == Arrived
    ensures var s' := DoRelease(s, c);
            && WellFormed(s')
            && (forall d :: 0 <= d < |s'.cpus| && s'.cpus[d].up ==> CpuOk(s', d))
            && (forall x :: 0 <= x < |s'.threads| ==> ThreadOk(s', x))
  {
    hide QueuesOk, GraveyardsOk, CpuOk, ThreadOk, WellFormed;
    var s' := DoRelease(s, c);
    ReleaseCpus(s, c, c);
    forall d: nat | d < |s'.cpus| && s'.cpus[d].up ensures CpuOk(s', d) { ReleaseCpus(s, c, d); }
    forall x: nat | x < |s'.threads| ensures ThreadOk(s', x) { ReleaseThreads(s, c, x); }
  }

  lemma ReleaseQueues(s: State, c: nat)
    requires Inv(s) && c < |s.cpus| && s.cpus[c].up && s.cpus[c].phase == Arrived && WellFormed(DoRelease(s, c))
    ensures QueuesOk(DoRelease(s, c))
  {
    hide GraveyardsOk, Queued;
    var s' := DoRelease(s, c);
    assert CpuOk(s, c);
    PendingFacts(s, c);
    var t := s.cpus[c].pending.value;
    EnqueueQueued(s.cpus[c], s.threads, t);
    SameQueue(s, s');
    SameReady(s'.cpus[c], Enqueue(s.cpus[c], s.threads, t));
    forall d: nat, x: nat | d < |s'.cpus| ensures QueueCount(s', d, x) { assert QueueCount(s, d, x); }
  }

  lemma SameReady(a: Cpu, b: Cpu)
    requires |a.ready| == |b.ready| == LEVELS
    ensures a.ready == b.ready ==> Queued(a) == Queued(b)
  {
  }

  lemma ReleaseGraves(s: State, c: nat)
    requires Inv(s) && c < |s.cpus| && s.cpus[c].up && s.cpus[c].phase == Arrived && WellFormed(DoRelease(s, c))
    ensures GraveyardsOk(DoRelease(s, c))
  {
    hide QueuesOk, Queued, DoRelease;
    var s' := DoRelease(s, c);
    assert CpuOk(s, c);
    ReleaseShape(s, c, s');
    PendingFacts(s, c);
    forall d: nat, x: nat | d < |s'.cpus| ensures GraveCount(s', d, x) { assert GraveCount(s, d, x); }
  }

  // ---- freeing stacks ----

  lemma {:induction false} FreeStacksAt(threads: seq<Thread>, ts: seq<nat>, x: nat)
    requires x < |threads| && multiset(ts)[x] <= 1
    ensures FreeStacks(threads, ts)[x] ==
            if x in multiset(ts) then threads[x].(stack := Freed, frees := threads[x].frees + 1) else threads[x]
    decreases ts
  {
    if ts != [] {
      assert ts == [ts[0]] + ts[1..];
      assert multiset(ts) == multiset{ts[0]} + multiset(ts[1..]);
      FreeStacksAt(threads, ts[1..], x);
    }
  }

  /** The stacks a processor frees are buried ones of its own finished threads, each listed once, and
      no processor stands on any of them. */
  lemma BuryingFacts(s: State, c: nat, x: nat)
    requires Inv(s) && c < |s.cpus|
    ensures multiset(s.cpus[c].burying)[x] <= 1
    ensures x in multiset(s.cpus[c].burying) ==>
              && x < |s.threads| && s.threads[x].owner == c && s.threads[x].stack == Buried
              && s.threads[x].state == Finished && !s.threads[x].onCpu && x !in multiset(s.cpus[c].graveyard)
  {
    hide QueuesOk;
    assert GraveCount(s, c, x);
    if x < |s.threads| { assert ThreadOk(s, x); }
  }

  lemma BuryThread(s: State, c: nat, x: nat)
    requires Inv(s) && c < |s.cpus| && x < |s.threads|
    ensures DoBury(s, c).threads[x] ==
            if x in multiset(s.cpus[c].burying) then s.threads[x].(stack := Freed, frees := 1) else s.threads[x]
  {
    hide QueuesOk, GraveyardsOk;
    BuryingFacts(s, c, x);
    FreeStacksAt(s.threads, s.cpus[c].burying, x);
    assert ThreadOk(s, x);
  }

  lemma BuryInv(s: State, c: nat)
    requires Inv(s) && c < |s.cpus|
    ensures Inv(DoBury(s, c))
  {
    hide QueueCount, GraveCount, CpuOk, ThreadOk;
    BuryOk(s, c);
    BuryCounts(s, c);
  }

  lemma BuryThreads(s: State, c: nat)
    requires Inv(s) && c < |s.cpus|
    ensures |DoBury(s, c).threads| == |s.threads|
    ensures forall x :: 0 <= x < |s.threads| ==>
              DoBury(s, c).threads[x] ==
              if x in multiset(s.cpus[c].burying) then s.threads[x].(stack := Freed, frees := 1) else s.threads[x]
    ensures forall x :: 0 <= x < |s.threads| && x in multiset(s.cpus[c].burying) ==>
              s.threads[x].stack == Buried && s.threads[x].state == Finished && !s.threads[x].onCpu && s.threads[x].owner == c
  {
    hide Inv, FreeStacks;
    forall x: nat | x < |s.threads|
      ensures DoBury(s, c).threads[x] ==
              if x in multiset(s.cpus[c].burying) then s.threads[x].(stack := Freed, frees := 1) else s.threads[x]
      ensures x in multiset(s.cpus[c].burying) ==>
              s.threads[x].stack == Buried && s.threads[x].state == Finished && !s.threads[x].onCpu && s.threads[x].owner == c
    {
      BuryThread(s, c, x);
      BuryingFacts(s, c, x);
    }
  }

  lemma BuryOk(s: State, c: nat)
    requires Inv(s) && c < |s.cpus|
    ensures var s' := DoBury(s, c);
            && WellFormed(s')
            && (forall d :: 0 <= d < |s'.cpus| && s'.cpus[d].up ==> CpuOk(s', d))
            && (forall x :: 0 <= x < |s'.threads| ==> ThreadOk(s', x))
  {
    hide QueuesOk, GraveyardsOk, FreeStacks;
    var s' := DoBury(s, c);
    BuryThreads(s, c);
    assert WellFormed(s');
    forall d: nat | d < |s'.cpus| && s'.cpus[d].up ensures CpuOk(s', d) { assert CpuOk(s, d); }
    forall x: nat | x < |s'.threads| ensures ThreadOk(s', x) { assert ThreadOk(s, x); }
  }

  lemma BuryCounts(s: State, c: nat)
    requires Inv(s) && c < |s.cpus| && WellFormed(DoBury(s, c))
    ensures QueuesOk(DoBury(s, c)) && GraveyardsOk(DoBury(s, c))
  {
    hide CpuOk, ThreadOk, FreeStacks, Queued;
    var s' := DoBury(s, c);
    BuryThreads(s, c);
    SameQueue(s, s');
    forall d: nat, x: nat | d < |s'.cpus| ensures QueueCount(s', d, x) { assert QueueCount(s, d, x); }
    forall d: nat, x: nat | d < |s'.cpus| ensures GraveCount(s', d, x) {
      assert GraveCount(s, d, x);
      BuryingFacts(s, c, x);
    }
  }

  // ---- deciding the switch ----

  /** `me` is the processor with perhaps one thread taken off its queues. */
  ghost predicate Popped(s: State, c: nat, me: Cpu, taken: multiset<nat>)
    requires WellFormed(s) && c < |s.cpus|
  {
    && me == s.cpus[c].(ready := me.ready, streak := me.streak, boost := me.boost)
    && |me.ready| == LEVELS && Queued(me) == Queued(s.cpus[c]) - taken && taken <= Queued(s.cpus[c])
  }

  /** The state once processor `c` has committed to `next`. */
  function Committed(s: State, c: nat, me: Cpu, next: nat): (r: State)
    requires WellFormed(s) && c < |s.cpus| && s.cpus[c].up && me.current < |s.threads| && next < |s.threads|
    ensures |r.cpus| == |s.cpus| && |r.threads| == |s.threads|
  {
    var current := me.current;
    var outgoing := s.threads[current];
    var outgoing := if outgoing.state == Running then outgoing.(state := Ready) else outgoing;
    var incoming := s.threads[next].(state := Running, onCpu := true);
    State(s.cpus[c := me.(pending := Some(current), current := next, burying := me.graveyard, graveyard := [],
                          phase := Prepared(Switch(current, next, incoming.saved)))],
          s.threads[current := outgoing][next := incoming])
  }

  /** What a processor may commit to: the waiting thread it popped, or its own idle thread. */
  ghost predicate Choice(s: State, c: nat, me: Cpu, next: nat) {
    && Inv(s) && c < |s.cpus| && s.cpus[c].up && s.cpus[c].phase == Outside && s.cpus[c].burying == []
    && next < |s.threads| && next != s.cpus[c].current
    && (|| (BelongsOn(s, c, next) && Popped(s, c, me, multiset{next}))
        || (next == s.cpus[c].idle && Popped(s, c, me, multiset{})))
  }

  lemma ChoiceFacts(s: State, c: nat, me: Cpu, next: nat)
    requires Choice(s, c, me, next)
    ensures s.threads[next].owner == c && !s.threads[next].onCpu && s.threads[next].state == Ready
    ensures s.threads[next].saved == Some(s.threads[next].suspensions) && !s.threads[next].spawning
    ensures s.threads[next].stack == Absent || s.threads[next].stack == Owned
    ensures s.threads[me.current].owner == c && s.threads[me.current].onCpu && !s.threads[me.current].spawning
    ensures me.current == s.cpus[c].current && me.pending == None && me.stands == me.current
    ensures me.up && me.idle == s.cpus[c].idle
    ensures s.threads[me.current].state == Running || s.cpus[c].idle != me.current || s.threads[me.current].state == Ready
  {
    hide QueuesOk, GraveyardsOk, Queued;
    assert CpuOk(s, c) && ThreadOk(s, next) && ThreadOk(s, s.cpus[c].current);
  }

  lemma CommittedCpus(s: State, c: nat, me: Cpu, next: nat, d: nat)
    requires Choice(s, c, me, next) && d < |s.cpus| && s.cpus[d].up
    ensures var s' := Committed(s, c, me, next); WellFormed(s') && s'.cpus[d].up && CpuOk(s', d)
  {
    hide QueuesOk, GraveyardsOk, Queued, ThreadOk;
    ChoiceFacts(s, c, me, next);
    assert CpuOk(s, c) && CpuOk(s, d);
  }

  lemma CommittedThreads(s: State, c: nat, me: Cpu, next: nat, x: nat)
    requires Choice(s, c, me, next) && x < |s.threads| && WellFormed(Committed(s, c, me, next))
    ensures ThreadOk(Committed(s, c, me, next), x)
  {
    hide QueuesOk, GraveyardsOk, Queued, Popped, BelongsOn;
    ChoiceFacts(s, c, me, next);
    assert ThreadOk(s, x) && CpuOk(s, c);
    if x == next {
    } else if x == me.current {
    } else {
    }
  }

  lemma CommittedQueues(s: State, c: nat, me: Cpu, next: nat, d: nat, x: nat)
    requires Choice(s, c, me, next) && d < |s.cpus| && WellFormed(Committed(s, c, me, next))
    ensures QueueCount(Committed(s, c, me, next), d, x)
  {
    hide GraveyardsOk, Queued;
    var s' := Committed(s, c, me, next);
    ChoiceFacts(s, c, me, next);
    SameQueue(s, s');
    SameReady(s'.cpus[c], me);
    assert QueueCount(s, d, x) && QueueCount(s, c, next);
  }

  lemma CommittedGraves(s: State, c: nat, me: Cpu, next: nat, d: nat, x: nat)
    requires Choice(s, c, me, next) && d < |s.cpus|
    ensures GraveCount(Committed(s, c, me, next), d, x)
  {
    hide QueuesOk, Queued;
    ChoiceFacts(s, c, me, next);
    assert GraveCount(s, d, x);
    assert multiset(s.cpus[c].graveyard) + multiset([]) == multiset(s.cpus[c].graveyard);
  }

  lemma CommittedInv(s: State, c: nat, me: Cpu, next: nat)
    requires Choice(s, c, me, next)
    ensures Inv(Committed(s, c, me, next))
  {
    hide CpuOk, ThreadOk, QueueCount, GraveCount, WellFormed, Choice, Committed;
    ChoiceUp(s, c, me, next);
    var s' := Committed(s, c, me, next);
    CommittedCpus(s, c, me, next, c);
    forall d: nat | d < |s'.cpus| && s'.cpus[d].up ensures CpuOk(s', d) {
      OthersUp(s, c, me, next, d);
      CommittedCpus(s, c, me, next, d);
    }
    forall x: nat | x < |s'.threads| ensures ThreadOk(s', x) { CommittedThreads(s, c, me, next, x); }
    forall d: nat, x: nat | d < |s'.cpus| ensures QueueCount(s', d, x) { CommittedQueues(s, c, me, next, d, x); }
    forall d: nat, x: nat | d < |s'.cpus| ensures GraveCount(s', d, x) { CommittedGraves(s, c, me, next, d, x); }
  }

  lemma ChoiceUp(s: State, c: nat, me: Cpu, next: nat)
    requires Choice(s, c, me, next)
    ensures WellFormed(s) && c < |s.cpus| && s.cpus[c].up && me.current < |s.threads| && next < |s.threads|
  {
    ChoiceFacts(s, c, me, next);
  }

  lemma OthersUp(s: State, c: nat, me: Cpu, next: nat, d: nat)
    requires Choice(s, c, me, next) && d < |s.cpus| && Committed(s, c, me, next).cpus[d].up
    ensures s.cpus[d].up
  {
  }

  /** A pass through `schedule` that switches to nobody. */
  lemma StayInv(s: State, c: nat, me: Cpu)
    requires Inv(s) && c < |s.cpus| && s.cpus[c].up && s.cpus[c].phase == Outside && s.cpus[c].burying == []
    requires Popped(s, c, me, multiset{})
    ensures Inv(s.(cpus := s.cpus[c := me.(burying := me.graveyard, graveyard := [], phase := Outside)]))
  {
    hide Queued;
    var s' := s.(cpus := s.cpus[c := me.(burying := me.graveyard, graveyard := [], phase := Outside)]);
    assert CpuOk(s, c);
    assert WellFormed(s');
    SameQueue(s, s');
    SameReady(s'.cpus[c], me);
    assert multiset(s.cpus[c].graveyard) + multiset([]) == multiset(s.cpus[c].graveyard);
    forall d: nat | d < |s'.cpus| && s'.cpus[d].up ensures CpuOk(s', d) { assert CpuOk(s, d); }
    forall x: nat | x < |s'.threads| ensures ThreadOk(s', x) { assert ThreadOk(s, x); }
    forall d: nat, x: nat | d < |s'.cpus| ensures QueueCount(s', d, x) { assert QueueCount(s, d, x); }
    forall d: nat, x: nat | d < |s'.cpus| ensures GraveCount(s', d, x) { assert GraveCount(s, d, x); }
  }

  lemma PopRunnablePopped(s: State, c: nat)
    requires Inv(s) && c < |s.cpus|
    ensures var (found, me) := PopRunnable(s.cpus[c], s.threads);
            if found.Some? then BelongsOn(s, c, found.value) && Popped(s, c, me, multiset{found.value})
            else Popped(s, c, me, multiset{})
  {
    hide Inv, PopFrom, Members;
    PopWaiting(s, c, Order(s.cpus[c].streak, s.cpus[c].boost));
    assert WellFormed(s) by { InvFacts(s); }
    var found := PopRunnable(s.cpus[c], s.threads).0;
    if found.Some? { InvFacts(s); assert QueueCount(s, c, found.value); }
  }

  lemma InvFacts(s: State)
    requires Inv(s)
    ensures WellFormed(s) && QueuesOk(s)
  {
  }

  /** The next thread a processor chooses, if it is to leave its current one. */
  function Chosen(s: State, c: nat): (r: Option<nat>)
    requires WellFormed(s) && c < |s.cpus| && s.cpus[c].up
    ensures r.Some? ==> r.value < |s.threads| && r.value != s.cpus[c].current
  {
    var me := s.cpus[c];
    var found := PopRunnable(me, s.threads).0;
    if found.None? && me.current != me.idle && s.threads[me.current].state == Running then None
    else
      var next := if found.Some? then found.value else me.idle;
      if next == me.current then None else Some(next)
  }

  lemma ScheduleShape(s: State, c: nat)
    requires WellFormed(s) && c < |s.cpus| && s.cpus[c].up && s.cpus[c].pending == None
    ensures var me := PopRunnable(s.cpus[c], s.threads).1;
            && me == s.cpus[c].(ready := me.ready, streak := me.streak, boost := me.boost)
            && DoSchedule(s, c) ==
               match Chosen(s, c)
               case None => s.(cpus := s.cpus[c := me.(burying := me.graveyard, graveyard := [], phase := Outside)])
               case Some(next) => Committed(s, c, me, next)
  {
    PoppedRoles(s, c);
    hide PopRunnable;
    var me := PopRunnable(s.cpus[c], s.threads).1;
    var after := DoSchedule(s, c);
    match Chosen(s, c) {
      case None =>
        assert after.cpus == s.cpus[c := me.(burying := me.graveyard, graveyard := [], phase := Outside)];
      case Some(next) =>
        assert after.cpus == Committed(s, c, me, next).cpus;
    }
  }

  lemma ScheduleInv(s: State, c: nat)
    requires Inv(s) && c < |s.cpus| && s.cpus[c].up && s.cpus[c].phase == Outside && s.cpus[c].burying == []
    ensures Inv(DoSchedule(s, c))
  {
    hide PopRunnable, Popped, BelongsOn, WellFormed, Committed, DoSchedule;
    OutsideFacts(s, c);
    ScheduleShape(s, c);
    PopRunnablePopped(s, c);
    var (found, me) := PopRunnable(s.cpus[c], s.threads);
    if found.Some? { NotQueued(s, c, found.value); }
    match Chosen(s, c) {
      case None => StayInv(s, c, me);
      case Some(next) => CommittedInv(s, c, me, next);
    }
  }

  lemma OutsideFacts(s: State, c: nat)
    requires Inv(s) && c < |s.cpus| && s.cpus[c].up && s.cpus[c].phase == Outside
    ensures s.cpus[c].pending == None && s.cpus[c].current < |s.threads| && s.cpus[c].idle < |s.threads| && WellFormed(s)
  {
    assert CpuOk(s, c);
  }

  lemma PoppedRoles(s: State, c: nat)
    requires WellFormed(s) && c < |s.cpus|
    ensures var me := PopRunnable(s.cpus[c], s.threads).1;
            me == s.cpus[c].(ready := me.ready, streak := me.streak, boost := me.boost)
  {
    hide PopFrom;
  }

  /** A processor's current thread is on no queue, so popping never gives it back. */
  lemma NotQueued(s: State, c: nat, t: nat)
    requires Inv(s) && c < |s.cpus| && s.cpus[c].up && BelongsOn(s, c, t)
    ensures t != s.cpus[c].current
  {
    assert CpuOk(s, c);
  }

  // ---- runs ----

  ghost predicate Moves(s: State, step: Step, s': State) {
    WellFormed(s) && Enabled(s, step) && s' == Next(s, step)
  }

  lemma StepInv(s: State, step: Step, s': State)
    requires Inv(s) && Moves(s, step, s')
    ensures Inv(s')
  {
    hide Inv, DoSchedule, DoSteal, DoBury, DoSwap, DoRelease, DoUnblock, DoSpawnEnqueue, DoAdopt;
    match step {
      case Schedule(c) => ScheduleInv(s, c);
      case Steal(c, v) => StealInv(s, c, v);
      case Bury(c) => BuryInv(s, c);
      case Swap(c) => SwapInv(s, c);
      case Release(c) => ReleaseInv(s, c);
      case Unblock(c, t) => UnblockInv(s, c, t);
      case BlockCurrent(c) =>
        CurrentFacts(s, c);
        var th := s.threads[s.cpus[c].current];
        InPlaceInv(s, s.cpus[c].current, if th.wakePending then th.(wakePending := false) else th.(state := Blocked));
      case Park(c) =>
        CurrentFacts(s, c);
        InPlaceInv(s, s.cpus[c].current, s.threads[s.cpus[c].current].(wakePending := false, state := Blocked));
      case Exit(c) =>
        CurrentFacts(s, c);
        InPlaceInv(s, s.cpus[c].current, s.threads[s.cpus[c].current].(state := Finished));
      case SpawnCreate(c, p) => SpawnCreateInv(s, c, p);
      case SpawnEnqueue(t) => SpawnEnqueueInv(s, t);
      case SetPriority(t, p) => InPlaceInv(s, t, s.threads[t].(priority := p));
      case AdoptCpu(c) => AdoptInv(s, c);
    }
  }

  /** Any interleaving of any processors' steps, from boot. */
  ghost predicate IsRun(states: seq<State>, steps: seq<Step>) {
    && |states| == |steps| + 1
    && Init(states[0])
    && forall i :: 0 <= i < |steps| ==> Moves(states[i], steps[i], states[i + 1])
  }

  lemma {:induction false} RunInv(states: seq<State>, steps: seq<Step>, k: nat)
    requires IsRun(states, steps) && k < |states|
    ensures Inv(states[k])
  {
    hide Inv, Moves, Init;
    if k == 0 {
      InitInv(states[0]);
    } else {
      RunInv(states, steps, k - 1);
      StepInv(states[k - 1], steps[k - 1], states[k]);
    }
  }

  /** No processor ever stands on a stack that has been freed or queued to be, were it the only one up. */
  lemma StandsOnLiveStack(states: seq<State>, steps: seq<Step>, k: nat, c: nat)
    requires IsRun(states, steps) && k < |states| && c < |states[k].cpus| && states[k].cpus[c].up
    ensures states[k].cpus[c].stands < |states[k].threads|
    ensures states[k].threads[states[k].cpus[c].stands].stack != Freed
    ensures states[k].threads[states[k].cpus[c].stands].stack != Buried
  {
    hide QueuesOk, GraveyardsOk, IsRun;
    RunInv(states, steps, k);
    assert CpuOk(states[k], c);
    assert ThreadOk(states[k], states[k].cpus[c].stands);
  }

  /** No two processors ever stand on one thread's stack, and none stands on a freed one. */
  lemma OneProcessorPerStack(states: seq<State>, steps: seq<Step>, k: nat, c: nat, d: nat)
    requires IsRun(states, steps) && k < |states|
    requires c < |states[k].cpus| && states[k].cpus[c].up && d < |states[k].cpus| && states[k].cpus[d].up && c != d
    ensures states[k].cpus[c].stands != states[k].cpus[d].stands
    ensures states[k].cpus[c].stands < |states[k].threads|
    ensures states[k].threads[states[k].cpus[c].stands].stack != Freed
    ensures states[k].threads[states[k].cpus[c].stands].stack != Buried
  {
    hide QueuesOk, GraveyardsOk, IsRun;
    RunInv(states, steps, k);
    var s := states[k];
    assert CpuOk(s, c) && CpuOk(s, d);
    StandsOnLiveStack(states, steps, k, c);
  }

  /** What a switch loads was written, by the incoming thread's latest parking. */
  lemma LoadedWasSaved(states: seq<State>, steps: seq<Step>, k: nat, c: nat)
    requires IsRun(states, steps) && k < |steps| && steps[k] == Swap(c)
    requires c < |states[k].cpus| && states[k].cpus[c].phase.Prepared?
    ensures var sw := states[k].cpus[c].phase.switch;
            && sw.to < |states[k].threads|
            && sw.loadFrom == Some(states[k].threads[sw.to].suspensions)
            && states[k + 1].cpus[c].stands == sw.to
  {
    hide QueuesOk, GraveyardsOk;
    RunInv(states, steps, k);
    assert Moves(states[k], steps[k], states[k + 1]);
    assert CpuOk(states[k], c);
  }

  /** A thread waiting to run is on exactly one queue, once: its owner's. Any other is on none. */
  lemma OnExactlyOneQueue(states: seq<State>, steps: seq<Step>, k: nat, t: nat, c: nat)
    requires IsRun(states, steps) && k < |states| && t < |states[k].threads| && c < |states[k].cpus|
    ensures WellFormed(states[k])
    ensures Queued(states[k].cpus[c])[t] == if Waiting(states[k], t) && states[k].threads[t].owner == c then 1 else 0
  {
    hide IsRun;
    RunInv(states, steps, k);
    assert QueueCount(states[k], c, t);
  }

  /** `t` is finished and stays so; no processor comes to stand on it; no free is undone. */
  ghost predicate StaysFinished(s: State, s': State, t: nat) {
    && t < |s.threads| && t < |s'.threads|
    && s'.threads[t].state == Finished && s.threads[t].frees <= s'.threads[t].frees
    && forall c :: 0 <= c < |s'.cpus| && s'.cpus[c].up && s'.cpus[c].stands == t ==>
         c < |s.cpus| && s.cpus[c].up && s.cpus[c].stands == t
  }

  lemma FinishedStep(s: State, step: Step, s': State, t: nat)
    requires Inv(s) && Moves(s, step, s') && t < |s.threads| && s.threads[t].state == Finished
    ensures StaysFinished(s, s', t)
  {
    hide Inv, PopRunnable, PopFrom, DoSchedule, DoSteal, DoBury, DoSwap, DoRelease;
    match step {
      case Schedule(c) => ScheduleFinished(s, c, t);
      case Bury(c) => BuryFinished(s, c, t);
      case Swap(c) => SwapFinished(s, c, t);
      case Release(c) => ReleaseFinished(s, c, t);
      case Steal(c, v) => StealFinished(s, c, v, t);
      case _ =>
    }
  }

  lemma SwapFinished(s: State, c: nat, t: nat)
    requires Inv(s) && c < |s.cpus| && s.cpus[c].up && s.cpus[c].phase.Prepared?
    requires t < |s.threads| && s.threads[t].state == Finished
    ensures StaysFinished(s, DoSwap(s, c), t)
  {
    hide QueuesOk, GraveyardsOk, ThreadOk;
    assert CpuOk(s, c);
  }

  lemma ReleaseFinished(s: State, c: nat, t: nat)
    requires WellFormed(s) && c < |s.cpus| && s.cpus[c].up
    requires t < |s.threads| && s.threads[t].state == Finished
    ensures StaysFinished(s, DoRelease(s, c), t)
  {
    hide WellFormed;
  }

  lemma BuryFinished(s: State, c: nat, t: nat)
    requires Inv(s) && c < |s.cpus| && t < |s.threads| && s.threads[t].state == Finished
    ensures StaysFinished(s, DoBury(s, c), t)
  {
    hide QueuesOk, GraveyardsOk, CpuOk;
    BuryThread(s, c, t);
    assert ThreadOk(s, t);
  }

  lemma StealFinished(s: State, c: nat, v: nat, t: nat)
    requires WellFormed(s) && c < |s.cpus| && v < |s.cpus| && c != v
    requires t < |s.threads| && s.threads[t].state == Finished
    ensures var s' := DoSteal(s, c, v);
            && |s'.cpus| == |s.cpus| && t < |s'.threads| && s'.threads[t] == s.threads[t]
            && forall d :: 0 <= d < |s'.cpus| ==> s'.cpus[d].up == s.cpus[d].up && s'.cpus[d].stands == s.cpus[d].stands
  {
    hide PopFrom;
  }

  lemma ScheduleFinished(s: State, c: nat, t: nat)
    requires Inv(s) && c < |s.cpus| && s.cpus[c].up && s.cpus[c].phase == Outside
    requires t < |s.threads| && s.threads[t].state == Finished
    ensures var s' := DoSchedule(s, c);
            && |s'.cpus| == |s.cpus| && t < |s'.threads| && s'.threads[t] == s.threads[t]
            && forall d :: 0 <= d < |s'.cpus| ==> s'.cpus[d].up == s.cpus[d].up && s'.cpus[d].stands == s.cpus[d].stands
  {
    hide QueuesOk, GraveyardsOk, Queued, PopRunnable, DoSchedule;
    OutsideFacts(s, c);
    ScheduleShape(s, c);
    assert CpuOk(s, c) && ThreadOk(s, s.cpus[c].idle);
  }

  /** A finished thread never runs again: once no processor stands on its stack, none ever does, and
      the stack is freed at most once. */
  lemma {:induction false} FinishedForever(states: seq<State>, steps: seq<Step>, i: nat, j: nat, t: nat)
    requires IsRun(states, steps) && i <= j < |states|
    requires t < |states[i].threads| && states[i].threads[t].state == Finished
    ensures t < |states[j].threads| && states[j].threads[t].state == Finished
    ensures states[i].threads[t].frees <= states[j].threads[t].frees <= 1
    ensures (forall c :: 0 <= c < |states[i].cpus| && states[i].cpus[c].up ==> states[i].cpus[c].stands != t) ==>
              (forall c :: 0 <= c < |states[j].cpus| && states[j].cpus[c].up ==> states[j].cpus[c].stands != t)
    decreases j
  {
    hide Moves, Init, QueuesOk, GraveyardsOk, CpuOk;
    RunInv(states, steps, j);
    if i < j {
      FinishedForever(states, steps, i, j - 1, t);
      RunInv(states, steps, j - 1);
      FinishedStep(states[j - 1], steps[j - 1], states[j], t);
    }
    assert ThreadOk(states[j], t);
  }
}
