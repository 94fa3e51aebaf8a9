/** Picking the next thread: the loop itself, and how long a queued thread can be passed over. */
module SchedFair {
  import opened Sched

  /** `pop_from`: try levels in order, discarding whatever is not runnable. */
  method TakeNext(ready: seq<seq<nat>>, threads: seq<Thread>, order: seq<nat>)
    returns (found: Option<nat>, left: seq<seq<nat>>)
    requires |ready| == LEVELS && forall i :: 0 <= i < |order| ==> order[i] < LEVELS
    ensures (found, left) == PopFrom(ready, threads, order)
  {
    left := ready;
    var i := 0;
    while i < |order|
      invariant 0 <= i <= |order| && |left| == LEVELS
      invariant PopFrom(ready, threads, order) == PopFrom(left, threads, order[i..])
    {
      var level := order[i];
      assert order[i..][1..] == order[i + 1..];
      ghost var whole := left;
      while left[level] != []
        invariant |left| == LEVELS && left == whole[level := left[level]]
        invariant PopLevel(whole[level], threads) == PopLevel(left[level], threads)
        decreases |left[level]|
      {
        var slot := left[level][0];
        left := left[level := left[level][1..]];
        assert left == whole[level := left[level]];
        if slot < |threads| && Runnable(threads[slot]) {
          return Some(slot), left;
        }
      }
      i := i + 1;
    }
    return None, left;
  }

  // ---- one pick ----

  /** A processor's queues and counters between picks. */
  datatype Queues = Queues(ready: seq<seq<nat>>, streak: nat, boost: nat)

  function QueuesOf(me: Cpu): Queues {
    Queues(me.ready, me.streak, me.boost)
  }

  predicate Occupied(q: Queues) {
    |q.ready| == LEVELS && exists l :: 0 <= l < LEVELS && q.ready[l] != []
  }

  lemma OccupiedServes(q: Queues)
    requires Occupied(q)
    ensures FirstOccupied(q.ready, Order(q.streak, q.boost)).Some?
  {
    var o := Order(q.streak, q.boost);
    var l :| 0 <= l < LEVELS && q.ready[l] != [];
    assert o[0] == l || o[1] == l || o[2] == l;
  }

  /** The level a successful pick takes from. */
  function Served(q: Queues): (l: nat)
    requires Occupied(q)
    ensures l < LEVELS && q.ready[l] != []
  {
    OccupiedServes(q);
    FirstOccupied(q.ready, Order(q.streak, q.boost)).value
  }

  function AfterPick(q: Queues): (r: Queues)
    requires Occupied(q)
  {
    var ready := q.ready[Served(q) := q.ready[Served(q)][1..]];
    if q.streak >= STARVATION_GUARD then Queues(ready, 0, if q.boost == 0 then 1 else 0)
    else Queues(ready, q.streak + 1, q.boost)
  }

  /** Under the scheduler's invariant that is what `pop_runnable` does. */
  lemma PickIsPop(me: Cpu, threads: seq<Thread>)
    requires |me.ready| == LEVELS && AllRunnable(me.ready, threads) && Occupied(QueuesOf(me))
    ensures var q := QueuesOf(me);
            var q' := AfterPick(q);
            PopRunnable(me, threads) ==
              (Some(q.ready[Served(q)][0]), me.(ready := q'.ready, streak := q'.streak, boost := q'.boost))
  {
    PopTakesHead(me.ready, threads, Order(me.streak, me.boost));
    OccupiedServes(QueuesOf(me));
  }

  /** Picks left, at most, before a level that stays occupied is served. */
  function Patience(q: Queues, level: nat): nat {
    var favoured := if level == 0 then q.boost == 0 else q.boost != 0;
    if level == 2 then (if q.streak < STARVATION_GUARD then 0 else 1)
    else if q.streak >= STARVATION_GUARD then (if favoured then 0 else 9)
    else (STARVATION_GUARD - q.streak) + (if favoured then 0 else 9)
  }

  lemma PatienceDrops(q: Queues, level: nat)
    requires Occupied(q) && level < LEVELS && q.ready[level] != []
    ensures Patience(q, level) <= 17
    ensures Served(q) == level || (Patience(q, level) > 0 && Patience(AfterPick(q), level) == Patience(q, level) - 1)
  {
    var o := Order(q.streak, q.boost);
    assert o[0] == 2 || o[0] == 1 || o[0] == 0;
  }

  // ---- what a step does to a queue ----

  /** A scheduling decision with a thread queued is a pick. */
  lemma ScheduleIsPick(s: State, s': State, c: nat)
    requires Inv(s) && Moves(s, Schedule(c), s') && Occupied(QueuesOf(s.cpus[c]))
    ensures c < |s'.cpus| && QueuesOf(s'.cpus[c]) == AfterPick(QueuesOf(s.cpus[c]))
  {
    OutsideFacts(s, c);
    QueuesRunnable(s, c);
    PickIsPop(s.cpus[c], s.threads);
    ScheduleShape(s, c);
    hide Inv, AfterPick, PopRunnable, DoSchedule, Occupied;
  }

  /** Every other step leaves the counters alone, and of a queue takes the head for a thief, adds at the back, or
      does nothing. */
  lemma QueueStep(s: State, step: Step, s': State, c: nat, l: nat)
    requires Inv(s) && Moves(s, step, s') && c < |s.cpus| && l < LEVELS && step != Schedule(c)
    ensures c < |s'.cpus| && |s'.cpus[c].ready| == LEVELS
    ensures s'.cpus[c].streak == s.cpus[c].streak && s'.cpus[c].boost == s.cpus[c].boost
    ensures Slid(s.cpus[c].ready[l], s'.cpus[c].ready[l])
  {
    hide Inv, PopRunnable, PopFrom, DoSchedule, DoSteal, FreeStacks;
    InvFacts(s);
    match step
    case Schedule(d) => OtherSchedule(s, d, c);
    case Steal(x, v) => StealStep(s, x, v, c, l);
    case Release(d) => ReleaseQueue(s, d, c, l);
    case Bury(_) => case Swap(_) => case Unblock(_, _) => case BlockCurrent(_) => case Park(_) => case Exit(_) =>
    case SpawnCreate(_, _) => case SpawnEnqueue(_) => case SetPriority(_, _) => case AdoptCpu(_) =>
  }

  lemma ReleaseQueue(s: State, d: nat, c: nat, l: nat)
    requires Inv(s) && Enabled(s, Release(d)) && c < |s.cpus| && l < LEVELS && d < |s.cpus| && s.cpus[d].up
    ensures var s' := DoRelease(s, d);
      && c < |s'.cpus| && |s'.cpus[c].ready| == LEVELS
      && s'.cpus[c].streak == s.cpus[c].streak && s'.cpus[c].boost == s.cpus[c].boost
      && Slid(s.cpus[c].ready[l], s'.cpus[c].ready[l])
  {
    hide Inv;
    InvFacts(s);
  }

  predicate Slid(a: seq<nat>, b: seq<nat>) {
    a <= b || (a != [] && b == a[1..])
  }

  lemma OtherSchedule(s: State, d: nat, c: nat)
    requires Inv(s) && Enabled(s, Schedule(d)) && c < |s.cpus| && c != d
    ensures c < |DoSchedule(s, d).cpus| && DoSchedule(s, d).cpus[c] == s.cpus[c]
  {
    OutsideFacts(s, d);
    ScheduleShape(s, d);
    hide Inv, PopRunnable, DoSchedule;
  }

  lemma StealStep(s: State, x: nat, v: nat, c: nat, l: nat)
    requires Inv(s) && Enabled(s, Steal(x, v)) && c < |s.cpus| && l < LEVELS
    ensures var s' := DoSteal(s, x, v);
      && c < |s'.cpus| && |s'.cpus[c].ready| == LEVELS
      && s'.cpus[c].streak == s.cpus[c].streak && s'.cpus[c].boost == s.cpus[c].boost
      && Slid(s.cpus[c].ready[l], s'.cpus[c].ready[l])
  {
    QueuesRunnable(s, v);
    PopTakesHead(s.cpus[v].ready, s.threads, [2, 1, 0]);
    hide Inv, PopFrom, AllRunnable;
  }

  // ---- over whole runs ----

  /** A thread waits in a processor's queue. */
  predicate Waits(s: State, c: nat, l: nat, t: nat) {
    c < |s.cpus| && l < |s.cpus[c].ready| && t in s.cpus[c].ready[l]
  }

  /** How many are ahead of it. */
  function Ahead(q: seq<nat>, t: nat): (n: nat)
    requires t in q
    ensures n < |q| && q[n] == t && t !in q[..n]
  {
    if q[0] == t then 0 else 1 + Ahead(q[1..], t)
  }

  /** How many scheduling decisions the processor takes over part of a run. */
  function Decisions(steps: seq<Step>, c: nat, i: nat, j: nat): nat
    requires i <= j <= |steps|
    decreases j - i
  {
    if i == j then 0 else (if steps[i] == Schedule(c) then 1 else 0) + Decisions(steps, c, i + 1, j)
  }

  /** What is left to wait for: full turns for those ahead, and then this one's own. */
  function Wait(s: State, c: nat, l: nat, t: nat): nat
    requires Waits(s, c, l, t)
  {
    18 * Ahead(s.cpus[c].ready[l], t) + Patience(QueuesOf(s.cpus[c]), l)
  }

  lemma {:induction false} AheadPrefix(a: seq<nat>, b: seq<nat>, t: nat)
    requires t in a && a <= b
    ensures t in b && Ahead(b, t) == Ahead(a, t)
    decreases |a|
  {
    assert b[0] == a[0];
    if a[0] != t {
      assert a[1..] <= b[1..];
      AheadPrefix(a[1..], b[1..], t);
    }
  }

  lemma AheadPopped(a: seq<nat>, t: nat)
    requires a != [] && t in a[1..] && multiset(a)[t] <= 1
    ensures a[0] != t && Ahead(a, t) == Ahead(a[1..], t) + 1
  {
    assert a == [a[0]] + a[1..];
    assert multiset(a) == multiset{a[0]} + multiset(a[1..]);
    assert t in multiset(a[1..]);
  }

  lemma OncePerQueue(s: State, c: nat, l: nat, t: nat)
    requires Inv(s) && c < |s.cpus| && l < LEVELS
    ensures |s.cpus[c].ready| == LEVELS && multiset(s.cpus[c].ready[l])[t] <= 1
  {
    assert QueueCount(s, c, t);
    assert l == 0 || l == 1 || l == 2;
  }

  /** While a thread waits, each scheduling decision of its processor brings it nearer, and no other step sets it
      back. */
  lemma WaitDrops(s: State, step: Step, s': State, c: nat, l: nat, t: nat)
    requires Inv(s) && Moves(s, step, s') && l < LEVELS && Waits(s, c, l, t) && Waits(s', c, l, t)
    ensures Wait(s', c, l, t) + (if step == Schedule(c) then 1 else 0) <= Wait(s, c, l, t)
  {
    OncePerQueue(s, c, l, t);
    var a, b := s.cpus[c].ready[l], s'.cpus[c].ready[l];
    var q := QueuesOf(s.cpus[c]);
    hide Inv, Moves, Patience, AfterPick, Served, Ahead;
    if step == Schedule(c) {
      assert Occupied(q);
      ScheduleIsPick(s, s', c);
      PatienceDrops(q, l);
      PickMoves(q, l);
      if Served(q) == l {
        AheadPopped(a, t);
        PatienceBound(QueuesOf(s'.cpus[c]), l);
      }
    } else {
      QueueStep(s, step, s', c, l);
      PatienceSame(QueuesOf(s.cpus[c]), QueuesOf(s'.cpus[c]), l);
      if a <= b {
        AheadPrefix(a, b, t);
      } else {
        AheadPopped(a, t);
      }
    }
  }

  lemma PickMoves(q: Queues, l: nat)
    requires Occupied(q) && l < LEVELS
    ensures AfterPick(q).ready[l] == if Served(q) == l then q.ready[l][1..] else q.ready[l]
  {
  }

  lemma PatienceBound(q: Queues, l: nat)
    ensures Patience(q, l) <= 17
  {
  }

  lemma PatienceSame(q: Queues, q': Queues, l: nat)
    requires q.streak == q'.streak && q.boost == q'.boost
    ensures Patience(q, l) == Patience(q', l)
  {
  }

  /** No starvation, in any run: a thread that stays queued with `k` ahead of it outlasts fewer than `18 * (k + 1)`
      scheduling decisions of its processor, whatever else runs, wakes, spawns, steals or exits meanwhile. */
  lemma {:induction false} StarvationBound(
      states: seq<State>, steps: seq<Step>, i: nat, j: nat, c: nat, l: nat, t: nat)
    requires IsRun(states, steps) && i <= j <= |steps| && l < LEVELS
    requires forall k :: i <= k <= j ==> Waits(states[k], c, l, t)
    ensures Decisions(steps, c, i, j) <= Wait(states[i], c, l, t)
    ensures Decisions(steps, c, i, j) < 18 * (Ahead(states[i].cpus[c].ready[l], t) + 1)
    decreases j - i
  {
    PatienceBound(QueuesOf(states[i].cpus[c]), l);
    if i < j {
      RunInv(states, steps, i);
      assert Moves(states[i], steps[i], states[i + 1]);
      hide IsRun, Ahead, Patience, Wait, Moves, Inv;
      WaitDrops(states[i], steps[i], states[i + 1], c, l, t);
      StarvationBound(states, steps, i + 1, j, c, l, t);
    }
    hide Ahead, Patience, IsRun;
  }

  /** A level with threads queued, and the level a decision would serve being another. */
  predicate Queueing(s: State, c: nat, l: nat) {
    c < |s.cpus| && |s.cpus[c].ready| == LEVELS && l < LEVELS && s.cpus[c].ready[l] != []
  }

  predicate PassesOver(s: State, c: nat, l: nat) {
    Queueing(s, c, l) && Served(QueuesOf(s.cpus[c])) != l
  }

  lemma PassedOnce(s: State, step: Step, s': State, c: nat, l: nat)
    requires Inv(s) && Moves(s, step, s') && Queueing(s, c, l)
    requires step == Schedule(c) ==> PassesOver(s, c, l)
    ensures c < |s'.cpus|
    ensures var p, p' := Patience(QueuesOf(s.cpus[c]), l), Patience(QueuesOf(s'.cpus[c]), l);
      p' + (if step == Schedule(c) then 1 else 0) <= p
  {
    var q := QueuesOf(s.cpus[c]);
    assert Occupied(q);
    hide Inv, Moves, Patience, AfterPick, Served;
    if step == Schedule(c) {
      ScheduleIsPick(s, s', c);
      PatienceDrops(q, l);
    } else {
      QueueStep(s, step, s', c, l);
      PatienceSame(q, QueuesOf(s'.cpus[c]), l);
    }
  }

  /** A level that stays occupied is passed over by at most 17 decisions running, from any counters: one of any 18
      serves it. */
  lemma {:induction false} LevelServed(states: seq<State>, steps: seq<Step>, i: nat, j: nat, c: nat, l: nat)
    requires IsRun(states, steps) && i <= j <= |steps|
    requires forall k :: i <= k <= j ==> Queueing(states[k], c, l)
    requires forall k :: i <= k < j && steps[k] == Schedule(c) ==> PassesOver(states[k], c, l)
    ensures c < |states[i].cpus| && Decisions(steps, c, i, j) <= Patience(QueuesOf(states[i].cpus[c]), l) <= 17
    decreases j - i
  {
    assert Queueing(states[i], c, l);
    PatienceBound(QueuesOf(states[i].cpus[c]), l);
    if i < j {
      RunInv(states, steps, i);
      assert Moves(states[i], steps[i], states[i + 1]);
      hide IsRun, Patience, Moves, Inv;
      PassedOnce(states[i], steps[i], states[i + 1], c, l);
      LevelServed(states, steps, i + 1, j, c, l);
    }
  }
}
