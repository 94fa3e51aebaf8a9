/** Endpoints: senders that never block, receivers that park, and the wake between them. A critical section under
    the registry lock, a park and a wake are each a step; any threads may interleave. */
module Ipc {

  datatype Option<+T> = None | Some(value: T)

  datatype Pc = Away | Looking | Blocking | Parked

  datatype Receiver = Receiver(pc: Pc, blocked: bool, wakePending: bool)

  /** `owing[i]`: the receiver sender `i` has taken off the waiting list and not yet woken. */
  datatype State = State(
    capacity: nat, queue: seq<int>, waiting: seq<nat>, rs: seq<Receiver>, owing: seq<Option<nat>>)

  datatype Act =
    | Call(r: nat) | TryReceive(r: nat) | Look(r: nat) | Block(r: nat) | Resume(r: nat)
    | Send(i: nat, message: int) | Wake(i: nat) | StrayWake(r: nat)

  function Unblock(r: Receiver): Receiver {
    if r.blocked then r.(blocked := false) else r.(wakePending := true)
  }

  predicate Enabled(s: State, a: Act) {
    match a
    case Call(r) => r < |s.rs| && s.rs[r].pc == Away
    case TryReceive(r) => r < |s.rs| && s.rs[r].pc == Away
    case Look(r) => r < |s.rs| && s.rs[r].pc == Looking
    case Block(r) => r < |s.rs| && s.rs[r].pc == Blocking
    case Resume(r) => r < |s.rs| && s.rs[r].pc == Parked && !s.rs[r].blocked
    case Send(i, _) => i < |s.owing| && s.owing[i].None?
    case Wake(i) => i < |s.owing| && s.owing[i].Some? && s.owing[i].value < |s.rs|
    case StrayWake(r) => r < |s.rs|
  }

  function Next(s: State, a: Act): State
    requires Enabled(s, a)
  {
    match a
    case Call(r) => s.(rs := s.rs[r := s.rs[r].(pc := Looking)])
    case TryReceive(r) => if s.queue == [] then s else s.(queue := s.queue[1..])
    case Look(r) =>
      if s.queue != [] then s.(queue := s.queue[1..], rs := s.rs[r := s.rs[r].(pc := Away)])
      else s.(waiting := if r in s.waiting then s.waiting else s.waiting + [r],
              rs := s.rs[r := s.rs[r].(pc := Blocking)])
    case Block(r) =>
      s.(rs := s.rs[r := if s.rs[r].wakePending then s.rs[r].(wakePending := false, pc := Looking)
                         else s.rs[r].(blocked := true, pc := Parked)])
    case Resume(r) => s.(rs := s.rs[r := s.rs[r].(pc := Looking)])
    case Send(i, m) =>
      if |s.queue| >= s.capacity then s
      else if s.waiting == [] then s.(queue := s.queue + [m])
      else s.(queue := s.queue + [m], waiting := s.waiting[1..], owing := s.owing[i := Some(s.waiting[0])])
    case Wake(i) =>
      var r := s.owing[i].value;
      s.(rs := s.rs[r := Unblock(s.rs[r])], owing := s.owing[i := None])
    case StrayWake(r) => s.(rs := s.rs[r := Unblock(s.rs[r])])
  }

  ghost predicate CanMove(s: State, s': State) {
    exists a :: Enabled(s, a) && s' == Next(s, a)
  }

  /** An endpoint with so many receiving threads and senders, nothing sent yet. */
  predicate Start(s: State, receivers: nat, senders: nat, capacity: nat) {
    s == State(capacity, [], [], seq(receivers, _ => Receiver(Away, false, false)), seq(senders, _ => None))
  }

  ghost predicate IsRun(run: seq<State>, receivers: nat, senders: nat, capacity: nat) {
    && |run| > 0 && Start(run[0], receivers, senders, capacity)
    && forall i :: 0 <= i < |run| - 1 ==> CanMove(run[i], run[i + 1])
  }

  ghost predicate Reach(s: State, receivers: nat, senders: nat, capacity: nat) {
    exists run :: IsRun(run, receivers, senders, capacity) && run[|run| - 1] == s
  }

  predicate Committed(r: Receiver) {
    (r.pc == Blocking && !r.wakePending) || (r.pc == Parked && r.blocked)
  }

  ghost predicate Owed(s: State, r: nat) {
    exists i :: 0 <= i < |s.owing| && s.owing[i] == Some(r)
  }

  /** With a message queued, nobody stays parked without a wake on its way: what is promised to a lone receiver. */
  ghost predicate NoLostWake(s: State) {
    forall r :: 0 <= r < |s.rs| && Committed(s.rs[r]) && s.queue != [] ==> Owed(s, r)
  }

  /** Nothing under way will bring this receiver to a message, or a message to any other. */
  predicate Idles(r: Receiver) {
    r.pc == Away || (Committed(r) && !r.wakePending)
  }

  /** A message is queued and a receiver is parked or about to be, no sender owes anyone a wake, and every receiver
      inside the call is parked or about to be, with no wake pending: the message lies there until somebody calls
      afresh. A receiver outside the call may have a wake pending that no longer leads anywhere. */
  ghost predicate Lost(s: State) {
    && s.queue != []
    && (exists r :: 0 <= r < |s.rs| && Committed(s.rs[r]))
    && (forall r :: 0 <= r < |s.rs| ==> Idles(s.rs[r]))
    && (forall i :: 0 <= i < |s.owing| ==> s.owing[i].None?)
  }

  /** A wake already given, or a receiver already inside the call, does not undo it. */
  lemma LostStays(s: State, a: Act)
    requires Lost(s) && Enabled(s, a) && (a.Look? || a.Block? || a.Resume? || a.Wake?)
    ensures Lost(Next(s, a)) && Next(s, a).queue == s.queue
  {
    assert a.Look? || a.Resume? || a.Block? ==> Idles(s.rs[a.r]);
    assert a.Block?;
    var s' := Next(s, a);
    assert Committed(s'.rs[a.r]);
  }

  // ---- one receiving thread ----

  ghost predicate Inv(s: State) {
    && |s.rs| == 1
    && (s.waiting == [] || (s.waiting == [0] && s.queue == []))
    && (s.rs[0].blocked ==> s.rs[0].pc == Parked)
    && (Committed(s.rs[0]) ==> s.waiting == [0] || Owed(s, 0))
    && (forall i :: 0 <= i < |s.owing| && s.owing[i].Some? ==> s.owing[i].value == 0)
  }

  lemma StepInv(s: State, a: Act)
    requires Inv(s) && Enabled(s, a)
    ensures Inv(Next(s, a))
  {
    var s' := Next(s, a);
    match a
    case Send(i, m) =>
      assert s.waiting != [] && |s.queue| < s.capacity ==> s'.owing[i] == Some(0);
      assert forall j :: 0 <= j < |s.owing| && j != i ==> s'.owing[j] == s.owing[j];
      assert Owed(s, 0) ==> Owed(s', 0);
    case Wake(i) =>
    case Call(_) => case TryReceive(_) => case Look(_) => case Block(_) => case Resume(_) => case StrayWake(_) =>
  }

  lemma {:induction false} RunInv(run: seq<State>, senders: nat, capacity: nat, i: nat)
    requires IsRun(run, 1, senders, capacity) && i < |run|
    ensures Inv(run[i])
  {
    if i > 0 {
      RunInv(run, senders, capacity, i - 1);
      assert CanMove(run[i - 1], run[i - 1 + 1]);
      var a :| Enabled(run[i - 1], a) && run[i] == Next(run[i - 1], a);
      StepInv(run[i - 1], a);
    }
  }

  // ---- more than one ----

  lemma ReachStep(s: State, a: Act, receivers: nat, senders: nat, capacity: nat) returns (s': State)
    requires Reach(s, receivers, senders, capacity) && Enabled(s, a)
    ensures s' == Next(s, a) && Reach(s', receivers, senders, capacity)
  {
    var run :| IsRun(run, receivers, senders, capacity) && run[|run| - 1] == s;
    s' := Next(s, a);
    var longer := run + [s'];
    forall i | 0 <= i < |longer| - 1 ensures CanMove(longer[i], longer[i + 1]) {
      if i < |run| - 1 {
        assert CanMove(run[i], run[i + 1]);
      }
    }
    assert IsRun(longer, receivers, senders, capacity);
  }

  /** A receiver goes to sleep on an empty queue. */
  lemma GoesToSleep(s: State, r: nat, receivers: nat, senders: nat, capacity: nat) returns (s': State)
    requires Reach(s, receivers, senders, capacity) && r < |s.rs| && s.queue == [] && r !in s.waiting
    requires s.rs[r] == Receiver(Away, false, false)
    ensures Reach(s', receivers, senders, capacity)
    ensures s' == s.(waiting := s.waiting + [r], rs := s.rs[r := Receiver(Parked, true, false)])
  {
    hide Reach;
    var s1 := ReachStep(s, Call(r), receivers, senders, capacity);
    var s2 := ReachStep(s1, Look(r), receivers, senders, capacity);
    s' := ReachStep(s2, Block(r), receivers, senders, capacity);
    assert s'.rs == s.rs[r := Receiver(Parked, true, false)];
  }

  /** A second receiver woken for another reason takes the first one's message and leaves its own name on the
      list. */
  lemma LeavesItsName(s: State, receivers: nat, senders: nat, capacity: nat) returns (s': State)
    requires Reach(s, receivers, senders, capacity) && |s.rs| >= 2 && |s.owing| >= 1 && s.capacity >= 1
    requires s.queue == [] && s.waiting == [0, 1] && s.owing[0].None?
    requires s.rs[0] == s.rs[1] == Receiver(Parked, true, false)
    ensures Reach(s', receivers, senders, capacity)
    ensures s' == s.(waiting := [1], rs := s.rs[0 := Receiver(Parked, false, false)][1 := Receiver(Away, false, false)])
  {
    hide Reach;
    var s1 := ReachStep(s, StrayWake(1), receivers, senders, capacity);
    var s2 := ReachStep(s1, Resume(1), receivers, senders, capacity);
    var s3 := ReachStep(s2, Send(0, 0), receivers, senders, capacity);
    var s4 := ReachStep(s3, Look(1), receivers, senders, capacity);
    assert s4.waiting == [1] && s4.queue == [];
    s' := ReachStep(s4, Wake(0), receivers, senders, capacity);
    assert s'.rs == s.rs[0 := Receiver(Parked, false, false)][1 := Receiver(Away, false, false)];
    assert s'.owing == s.owing;
  }

  /** The next message's wake then goes to the name that is not there. */
  lemma WakesTheWrongOne(s: State, receivers: nat, senders: nat, capacity: nat) returns (s': State)
    requires Reach(s, receivers, senders, capacity) && |s.rs| >= 2 && |s.owing| >= 1 && s.capacity >= 1
    requires s.queue == [] && s.waiting == [1] && forall i :: 0 <= i < |s.owing| ==> s.owing[i].None?
    requires s.rs[0] == Receiver(Parked, false, false) && forall r :: 1 <= r < |s.rs| ==> s.rs[r].pc == Away
    requires !s.rs[1].blocked
    ensures Reach(s', receivers, senders, capacity) && Lost(s')
  {
    hide Reach;
    var s1 := ReachStep(s, Resume(0), receivers, senders, capacity);
    var s2 := ReachStep(s1, Look(0), receivers, senders, capacity);
    var s3 := ReachStep(s2, Block(0), receivers, senders, capacity);
    var s4 := ReachStep(s3, Send(0, 0), receivers, senders, capacity);
    s' := ReachStep(s4, Wake(0), receivers, senders, capacity);
    assert s'.queue == [0] && Committed(s'.rs[0]);
    assert forall i :: 0 <= i < |s'.owing| ==> s'.owing[i].None?;
  }

  lemma LosesAWake(receivers: nat, senders: nat, capacity: nat) returns (s: State)
    requires receivers >= 2 && senders >= 1 && capacity >= 1
    ensures Reach(s, receivers, senders, capacity) && Lost(s)
  {
    var s0 := State(capacity, [], [], seq(receivers, _ => Receiver(Away, false, false)), seq(senders, _ => None));
    assert IsRun([s0], receivers, senders, capacity);
    var s1 := GoesToSleep(s0, 0, receivers, senders, capacity);
    var s2 := GoesToSleep(s1, 1, receivers, senders, capacity);
    var s3 := LeavesItsName(s2, receivers, senders, capacity);
    s := WakesTheWrongOne(s3, receivers, senders, capacity);
  }

  /** Where messages can be queued at all, exactly one receiving thread, or none, is what keeps every wake. With two
      there is a run to a state in which nobody is owed anything, nothing is on its way, and the message and its
      receiver wait for each other. */
  lemma NoLostWakeExactly(receivers: nat, senders: nat, capacity: nat)
    ensures (forall s :: Reach(s, receivers, senders, capacity) ==> !Lost(s)) <==>
            receivers <= 1 || senders == 0 || capacity == 0
  {
    if receivers >= 2 && senders >= 1 && capacity >= 1 {
      var s := LosesAWake(receivers, senders, capacity);
    } else {
      forall s | Reach(s, receivers, senders, capacity) ensures !Lost(s) {
        var run :| IsRun(run, receivers, senders, capacity) && run[|run| - 1] == s;
        if receivers == 1 {
          RunInv(run, senders, capacity, |run| - 1);
        } else if receivers == 0 {
          NoReceivers(run, senders, capacity, |run| - 1);
        } else {
          NothingSent(run, receivers, senders, capacity, |run| - 1);
        }
      }
    }
  }

  lemma {:induction false} NothingSent(run: seq<State>, receivers: nat, senders: nat, capacity: nat, i: nat)
    requires IsRun(run, receivers, senders, capacity) && i < |run|
    ensures run[i].capacity == capacity && |run[i].owing| == senders
    ensures senders == 0 || capacity == 0 ==> run[i].queue == []
  {
    if i > 0 {
      NothingSent(run, receivers, senders, capacity, i - 1);
      assert CanMove(run[i - 1], run[i - 1 + 1]);
    }
  }

  lemma {:induction false} NoReceivers(run: seq<State>, senders: nat, capacity: nat, i: nat)
    requires IsRun(run, 0, senders, capacity) && i < |run|
    ensures |run[i].rs| == 0
  {
    if i > 0 {
      NoReceivers(run, senders, capacity, i - 1);
      assert CanMove(run[i - 1], run[i - 1 + 1]);
    }
  }

  /** With one receiving thread, a message queued while it is parked has a wake on its way, whatever stray wakes
      land and wherever the park was caught. */
  lemma OneReceiver(run: seq<State>, senders: nat, capacity: nat, i: nat)
    requires IsRun(run, 1, senders, capacity) && i < |run|
    ensures NoLostWake(run[i]) && |run[i].waiting| <= 1
  {
    RunInv(run, senders, capacity, i);
  }
}
