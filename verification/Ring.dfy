/** Shared rings: two processes, wrapping 32-bit counters, and sleeping without losing a wake.

    Every shared access -- a counter load, a slot copy, a publish, a flag exchange, a critical section
    of the kernel's, a wake -- is a step of its own, and the two sides' steps interleave freely. */
module Ring {
  import opened Arithmetic

  const WRAP: nat := 0x1_0000_0000
  const MAX_SLOTS: nat := 4096

  type Message = int

  datatype Side = Sender | Receiver

  datatype Lock = Free | Held(holder: Side)

  /** Where a side is: in `try_send` or `try_receive`, telling the other side afterwards, or in
      `sleep_until` and the kernel's `wait`. */
  datatype Pc = Idle | Trying(attempt: Attempt) | Telling(notice: Notice) | Sleeping(rest: Rest)
  datatype Attempt = Loaded | Counted | Copying | Publishing
  datatype Notice = ReadingFlag | Waking | Unblocking
  datatype Rest =
    | Flagged | FlaggedTail | Waiting | WaitLocked | WaitTail | Blocking | Parked
    | Rechecking | RecheckLocked | RecheckTail | Clearing

  /** Registers: `mine` is the side's own counter as loaded, `seen` the tail as `queued` loaded it, `held`
      the message being moved. `registered`: the kernel's record of a side parked in `wait`. `blocked` and
      `wakePending`: its thread's scheduling state. */
  datatype Local = Local(
    pc: Pc, mine: nat, seen: nat, held: Message, flag: bool, registered: bool, blocked: bool, wakePending: bool)

  /** `sent` and `received` are the messages published and consumed so far, for the statement only:
      no step reads them. */
  datatype State = State(
    slots: seq<Message>, tail: nat, head: nat, lock: Lock, s: Local, r: Local,
    sent: seq<Message>, received: seq<Message>)

  function Other(side: Side): Side {
    if side == Sender then Receiver else Sender
  }

  function Of(s: State, side: Side): Local {
    if side == Sender then s.s else s.r
  }

  function Put(s: State, side: Side, l: Local): State {
    if side == Sender then s.(s := l) else s.(r := l)
  }

  function Goto(s: State, side: Side, pc: Pc): State {
    Put(s, side, Of(s, side).(pc := pc))
  }

  /** A count as a 32-bit counter holds it. */
  function Wrap(count: nat): nat {
    count % WRAP
  }

  /** `tail.wrapping_sub(head)` */
  function Queued(tail: nat, head: nat): nat {
    (tail + WRAP - head) % WRAP
  }

  /** Whether a side has something to do. */
  predicate ReadyFor(side: Side, queued: nat, slots: nat) {
    if side == Sender then queued < slots else queued > 0
  }

  predicate KernelReady(side: Side, queued: nat, slots: nat) {
    queued > slots || ReadyFor(side, queued, slots)
  }

  function Unblock(l: Local): Local {
    if l.blocked then l.(blocked := false) else l.(wakePending := true)
  }

  predicate Shaped(s: State) {
    2 <= |s.slots| <= MAX_SLOTS && s.tail < WRAP && s.head < WRAP
  }

  datatype Act = Act(side: Side, sleep: bool, message: Message) | StrayWake(side: Side)

  predicate Enabled(s: State, a: Act) {
    match a
    case StrayWake(_) => true
    case Act(side, _, _) =>
      var me := Of(s, side);
      && (me.pc in {Telling(Waking), Sleeping(Waiting), Sleeping(Rechecking)} ==> s.lock.Free?)
      && (me.pc == Sleeping(Parked) ==> !me.blocked)
  }

  /** `try_send` and `try_receive` up to the publish. */
  function TryStep(s: State, side: Side, message: Message): State
    requires Shaped(s) && Of(s, side).pc.Trying?
  {
    var me := Of(s, side);
    var n := |s.slots|;
    match me.pc.attempt
    case Loaded => Put(s, side, me.(seen := s.tail, pc := Trying(Counted)))
    case Counted =>
      var q := Queued(me.seen, s.head);
      Goto(s, side, if q <= n && ReadyFor(side, q, n) then Trying(Copying) else Idle)
    case Copying =>
      if side == Sender then
        Put(s.(slots := s.slots[me.mine % n := message]), side, me.(held := message, pc := Trying(Publishing)))
      else Put(s, side, me.(held := s.slots[me.mine % n], pc := Trying(Publishing)))
    case Publishing =>
      if side == Sender then
        Goto(s.(tail := Wrap(me.mine + 1), sent := s.sent + [me.held]), side, Telling(ReadingFlag))
      else Goto(s.(head := Wrap(me.mine + 1), received := s.received + [me.held]), side, Telling(ReadingFlag))
  }

  /** After the publish: the flag read, the wake system call, the unblock. */
  function TellStep(s: State, side: Side): State
    requires Of(s, side).pc.Telling?
  {
    var other := Of(s, Other(side));
    match Of(s, side).pc.notice
    case ReadingFlag => Goto(s, side, if other.flag then Telling(Waking) else Idle)
    case Waking =>
      if other.registered then Goto(Put(s, Other(side), other.(registered := false)), side, Telling(Unblocking))
      else Goto(s, side, Idle)
    case Unblocking => Goto(Put(s, Other(side), Unblock(other)), side, Idle)
  }

  /** `sleep_until` and the kernel's `wait`, on the sleeper's own state. */
  function RestStep(me: Local, ready: bool, tail: nat): Local
    requires me.pc.Sleeping?
  {
    match me.pc.rest
    case Flagged => me.(seen := tail, pc := Sleeping(FlaggedTail))
    case FlaggedTail => me.(pc := Sleeping(if ready then Clearing else Waiting))
    case Waiting => me.(pc := Sleeping(WaitLocked))
    case WaitLocked => me.(seen := tail, pc := Sleeping(WaitTail))
    case WaitTail =>
      if ready then me.(pc := Sleeping(Rechecking)) else me.(registered := true, pc := Sleeping(Blocking))
    case Blocking =>
      if me.wakePending then me.(wakePending := false, pc := Sleeping(Rechecking))
      else me.(blocked := true, pc := Sleeping(Parked))
    case Parked => me.(pc := Sleeping(Waiting))
    case Rechecking => me.(pc := Sleeping(RecheckLocked))
    case RecheckLocked => me.(seen := tail, pc := Sleeping(RecheckTail))
    case RecheckTail => me.(pc := Sleeping(if ready then Clearing else Waiting))
    case Clearing => me.(flag := false, pc := Idle)
  }

  /** The kernel's lock on its rings, held over each of its two looks at the counters. */
  function LockAfter(rest: Rest, side: Side, lock: Lock): Lock {
    match rest
    case Waiting => Held(side)
    case Rechecking => Held(side)
    case WaitTail => Free
    case RecheckTail => Free
    case _ => lock
  }

  function SleepStep(s: State, side: Side): State
    requires Of(s, side).pc.Sleeping?
  {
    var me := Of(s, side);
    var ready := KernelReady(side, Queued(me.seen, s.head), |s.slots|);
    Put(s.(lock := LockAfter(me.pc.rest, side, s.lock)), side, RestStep(me, ready, s.tail))
  }

  /** One step of one side. `sleep` and `message` are the program's choices where it has one. */
  function Next(s: State, a: Act): State
    requires Shaped(s)
  {
    match a
    case StrayWake(side) => Put(s, side, Unblock(Of(s, side)))
    case Act(side, sleep, message) =>
      var me := Of(s, side);
      if me.pc.Trying? then TryStep(s, side, message)
      else if me.pc.Telling? then TellStep(s, side)
      else if me.pc.Sleeping? then SleepStep(s, side)
      else if sleep then Put(s, side, me.(pc := Sleeping(Flagged), flag := true))
      else Put(s, side, me.(mine := if side == Sender then s.tail else s.head, pc := Trying(Loaded)))
  }

  predicate Moves(s: State, a: Act, s': State) {
    Shaped(s) && Enabled(s, a) && s' == Next(s, a)
  }

  predicate Init(s: State) {
    var idle := Local(Idle, 0, 0, 0, false, false, false, false);
    Shaped(s) && s == State(s.slots, 0, 0, Free, idle, idle, [], [])
  }

  // ---- the invariant ----

  predicate Locked(pc: Pc) {
    pc.Sleeping? && (pc.rest == WaitLocked || pc.rest == WaitTail || pc.rest == RecheckLocked || pc.rest == RecheckTail)
  }

  /** Parked for good unless someone wakes it, or about to be. */
  predicate Committed(l: Local) {
    (l.pc == Sleeping(Blocking) && !l.wakePending) || (l.pc == Sleeping(Parked) && l.blocked)
  }

  predicate HasWork(side: Side, sent: nat, received: nat, slots: nat) {
    if side == Sender then sent < received + slots else received < sent
  }

  predicate HoldsTail(pc: Pc) {
    || pc == Trying(Counted)
    || (pc.Sleeping? && (pc.rest == FlaggedTail || pc.rest == WaitTail || pc.rest == RecheckTail))
  }

  /** A tail the receiver loaded a while ago: the counter after some number of sends since its own count. */
  ghost predicate Stale(tail: nat, sent: nat, received: nat) {
    exists k: nat :: received <= k <= sent && tail == Wrap(k)
  }

  /** What one side holds in hand, against the counts of messages sent and received. */
  ghost predicate InHand(side: Side, l: Local, sent: nat, received: nat, slots: nat) {
    && (l.pc.Trying? ==> l.mine == Wrap(if side == Sender then sent else received))
    && (l.pc == Trying(Copying) || l.pc == Trying(Publishing) ==> HasWork(side, sent, received, slots))
    && (HoldsTail(l.pc) ==> if side == Sender then l.seen == Wrap(sent) else Stale(l.seen, sent, received))
  }

  ghost predicate CountersOk(s: State) {
    var t, h, n := |s.sent|, |s.received|, |s.slots|;
    && h <= t <= h + n
    && s.tail == Wrap(t) && s.head == Wrap(h)
    && InHand(Sender, s.s, t, h, n) && InHand(Receiver, s.r, t, h, n)
  }

  /** The sleep protocol, from the point of view of `me`. */
  ghost predicate SleepOk(side: Side, me: Local, other: Pc, work: bool, tail: nat) {
    && (me.pc.Sleeping? ==> me.flag)
    && (me.blocked ==> me.pc == Sleeping(Parked))
    && (Committed(me) ==> me.registered || other == Telling(Unblocking))
    && (Committed(me) && work ==> other.Telling?)
    && (side == Receiver && me.pc == Sleeping(WaitTail) && me.seen != tail ==>
          other == Telling(ReadingFlag) || other == Telling(Waking))
  }

  predicate LockOk(s: State, side: Side) {
    Locked(Of(s, side).pc) <==> s.lock == Held(side)
  }

  ghost predicate Asleep(s: State, side: Side) {
    SleepOk(side, Of(s, side), Of(s, Other(side)).pc, HasWork(side, |s.sent|, |s.received|, |s.slots|), s.tail)
  }

  ghost predicate Inv(s: State) {
    && Shaped(s) && CountersOk(s) && LockOk(s, Sender) && LockOk(s, Receiver)
    && Asleep(s, Sender) && Asleep(s, Receiver)
  }

  lemma InitInv(s: State)
    requires Init(s)
    ensures Inv(s)
  {
  }

  lemma QueuedIs(a: nat, b: nat)
    requires b <= a < b + WRAP
    ensures Queued(Wrap(a), Wrap(b)) == a - b
  {
  }

  lemma WrapNext(a: nat)
    ensures Wrap(Wrap(a) + 1) == Wrap(a + 1) && Wrap(a) < WRAP
  {
  }

  /** What the receiver computes from a tail it loaded a while ago. */
  lemma StaleCount(tail: nat, sent: nat, received: nat)
    requires Stale(tail, sent, received) && sent < received + WRAP
    ensures Queued(tail, Wrap(received)) <= sent - received
  {
    var k: nat :| received <= k <= sent && tail == Wrap(k);
    QueuedIs(k, received);
  }

  lemma TryCounters(s: State, side: Side, m: Message, s': State)
    requires Shaped(s) && CountersOk(s) && Of(s, side).pc.Trying? && s' == TryStep(s, side, m)
    ensures Shaped(s') && CountersOk(s')
  {
    hide CountersOk, TryStep;
    if side == Sender {
      SendCounters(s, m, s');
    } else {
      ReceiveCounters(s, m, s');
    }
  }

  lemma SendCounters(s: State, m: Message, s': State)
    requires Shaped(s) && CountersOk(s) && s.s.pc.Trying? && s' == TryStep(s, Sender, m)
    ensures Shaped(s') && CountersOk(s')
  {
    QueuedIs(|s.sent|, |s.received|);
    WrapNext(|s.sent|);
    hide Wrap, Queued;
    match s.s.pc.attempt
    case Loaded => case Counted => case Copying => case Publishing =>
  }

  lemma ReceiveCounters(s: State, m: Message, s': State)
    requires Shaped(s) && CountersOk(s) && s.r.pc.Trying? && s' == TryStep(s, Receiver, m)
    ensures Shaped(s') && CountersOk(s')
  {
    WrapNext(|s.received|);
    if s.r.pc == Trying(Counted) {
      StaleCount(s.r.seen, |s.sent|, |s.received|);
    }
    hide Wrap, Queued;
    match s.r.pc.attempt
    case Loaded => case Counted => case Copying => case Publishing =>
  }

  predicate SameHand(l: Local, l': Local) {
    l'.pc == l.pc && l'.mine == l.mine && l'.seen == l.seen && l'.held == l.held
  }

  /** A step that only moves `side` along: the counters, the slots and what the other side holds stay. */
  ghost predicate OnlyMoved(s: State, s': State, side: Side) {
    && s'.slots == s.slots && s'.tail == s.tail && s'.head == s.head && s'.sent == s.sent && s'.received == s.received
    && SameHand(Of(s, Other(side)), Of(s', Other(side)))
    && !Of(s', side).pc.Trying?
    && (HoldsTail(Of(s', side).pc) ==> Of(s', side).seen == s.tail)
  }

  lemma OnlyMovedCounters(s: State, s': State, side: Side)
    requires Shaped(s) && CountersOk(s) && OnlyMoved(s, s', side)
    ensures Shaped(s') && CountersOk(s')
  {
    hide Wrap;
    assert Stale(s.tail, |s.sent|, |s.received|);
  }

  lemma TellMoves(s: State, side: Side, s': State)
    requires Of(s, side).pc.Telling? && s' == TellStep(s, side)
    ensures OnlyMoved(s, s', side)
  {
    if side == Sender {
      match s.s.pc.notice
      case ReadingFlag => case Waking => case Unblocking =>
    } else {
      match s.r.pc.notice
      case ReadingFlag => case Waking => case Unblocking =>
    }
  }

  lemma SleepMoves(s: State, side: Side, s': State)
    requires Of(s, side).pc.Sleeping? && s' == SleepStep(s, side)
    ensures OnlyMoved(s, s', side)
  {
    hide Queued, KernelReady;
    match Of(s, side).pc.rest
    case Flagged => case FlaggedTail => case Waiting => case WaitLocked => case WaitTail => case Blocking =>
    case Parked => case Rechecking => case RecheckLocked => case RecheckTail => case Clearing =>
  }

  lemma TrySleeps(s: State, side: Side, m: Message, to: Side, s': State)
    requires Inv(s) && Of(s, side).pc.Trying? && s' == TryStep(s, side, m)
    ensures Asleep(s', to) && LockOk(s', to)
  {
    WrapNext(|s.sent|);
    hide Wrap, Queued, ReadyFor, Stale, HoldsTail;
    if to == Sender {
      if side == Sender {
        match s.s.pc.attempt
        case Loaded => case Counted => case Copying => case Publishing =>
      } else {
        match s.r.pc.attempt
        case Loaded => case Counted => case Copying => case Publishing =>
      }
    } else {
      if side == Sender {
        match s.s.pc.attempt
        case Loaded => case Counted => case Copying => case Publishing =>
      } else {
        match s.r.pc.attempt
        case Loaded => case Counted => case Copying => case Publishing =>
      }
    }
  }

  lemma TellSleeps(s: State, side: Side, to: Side, s': State)
    requires Inv(s) && Of(s, side).pc.Telling? && Enabled(s, Act(side, false, 0)) && s' == TellStep(s, side)
    ensures Asleep(s', to) && LockOk(s', to)
  {
    hide CountersOk;
    if to == Sender {
      if side == Sender {
        match s.s.pc.notice
        case ReadingFlag => case Waking => case Unblocking =>
      } else {
        match s.r.pc.notice
        case ReadingFlag => case Waking => case Unblocking =>
      }
    } else {
      if side == Sender {
        match s.s.pc.notice
        case ReadingFlag => case Waking => case Unblocking =>
      } else {
        match s.r.pc.notice
        case ReadingFlag => case Waking => case Unblocking =>
      }
    }
  }

  lemma ReadyMeansWork(s: State, side: Side)
    requires Shaped(s) && CountersOk(s)
    ensures KernelReady(side, Queued(s.tail, s.head), |s.slots|) <==> HasWork(side, |s.sent|, |s.received|, |s.slots|)
  {
    QueuedIs(|s.sent|, |s.received|);
  }

  /** A sleeper's step, on its own state: a look at the counters that finds nothing while there is work
      saw a tail that has moved since. */
  lemma RestKeeps(side: Side, me: Local, other: Pc, ready: bool, work: bool, tail: nat, me': Local)
    requires SleepOk(side, me, other, work, tail) && me.pc.Sleeping?
    requires me.pc == Sleeping(WaitTail) && !ready && work ==> side == Receiver && me.seen != tail
    requires me.pc == Sleeping(Parked) ==> !me.blocked
    requires me' == RestStep(me, ready, tail)
    ensures SleepOk(side, me', other, work, tail)
  {
    match me.pc.rest
    case Flagged => case FlaggedTail => case Waiting => case WaitLocked => case WaitTail => case Blocking =>
    case Parked => case Rechecking => case RecheckLocked => case RecheckTail => case Clearing =>
  }

  /** A sleeper's step keeps its own side of the protocol... */
  lemma SleepKeepsMine(s: State, side: Side, s': State)
    requires Inv(s) && Of(s, side).pc.Sleeping? && Enabled(s, Act(side, false, 0)) && s' == SleepStep(s, side)
    ensures Asleep(s', side)
  {
    var me := Of(s, side);
    ReadyMeansWork(s, side);
    RestKeeps(side, me, Of(s, Other(side)).pc, KernelReady(side, Queued(me.seen, s.head), |s.slots|),
              HasWork(side, |s.sent|, |s.received|, |s.slots|), s.tail, Of(s', side));
    hide SleepOk, RestStep, LockAfter, Queued, KernelReady, HasWork;
  }

  /** ...and the other's, who was not owed anything by a sleeper and still is not. */
  lemma SleepKeepsOther(s: State, side: Side, s': State)
    requires Inv(s) && Of(s, side).pc.Sleeping? && Enabled(s, Act(side, false, 0)) && s' == SleepStep(s, side)
    ensures Asleep(s', Other(side))
  {
    hide CountersOk, Queued, KernelReady, Committed, HasWork;
    match Of(s, side).pc.rest
    case Flagged => case FlaggedTail => case Waiting => case WaitLocked => case WaitTail => case Blocking =>
    case Parked => case Rechecking => case RecheckLocked => case RecheckTail => case Clearing =>
  }

  lemma SleepLocks(s: State, side: Side, s': State)
    requires Inv(s) && Of(s, side).pc.Sleeping? && Enabled(s, Act(side, false, 0)) && s' == SleepStep(s, side)
    ensures LockOk(s', Sender) && LockOk(s', Receiver)
  {
    var me := Of(s, side);
    RestLocks(me, KernelReady(side, Queued(me.seen, s.head), |s.slots|), s.tail, side, s.lock);
    hide CountersOk, Queued, KernelReady, SleepOk, Shaped, RestStep, LockAfter, Locked;
    if side == Sender {
    } else {
    }
  }

  /** A sleeper takes the kernel's lock only when it is free, and gives back only its own. */
  lemma RestLocks(me: Local, ready: bool, tail: nat, side: Side, lock: Lock)
    requires me.pc.Sleeping? && (me.pc.rest == Waiting || me.pc.rest == Rechecking ==> lock.Free?)
    requires Locked(me.pc) <==> lock == Held(side)
    ensures Locked(RestStep(me, ready, tail).pc) <==> LockAfter(me.pc.rest, side, lock) == Held(side)
    ensures LockAfter(me.pc.rest, side, lock) == Held(Other(side)) <==> lock == Held(Other(side))
  {
    RestHolds(me, ready, tail);
    hide RestStep;
    match me.pc.rest
    case Flagged => case FlaggedTail => case Waiting => case WaitLocked => case WaitTail => case Blocking =>
    case Parked => case Rechecking => case RecheckLocked => case RecheckTail => case Clearing =>
  }

  lemma RestHolds(me: Local, ready: bool, tail: nat)
    requires me.pc.Sleeping?
    ensures Locked(RestStep(me, ready, tail).pc) <==>
      me.pc.rest == Waiting || me.pc.rest == Rechecking || me.pc.rest == WaitLocked || me.pc.rest == RecheckLocked
  {
    match me.pc.rest
    case Flagged => case FlaggedTail => case Waiting => case WaitLocked => case WaitTail => case Blocking =>
    case Parked => case Rechecking => case RecheckLocked => case RecheckTail => case Clearing =>
  }

  lemma StepInv(s: State, a: Act, s': State)
    requires Inv(s) && Moves(s, a, s')
    ensures Inv(s')
  {
    hide CountersOk, SleepOk, TryStep, TellStep, SleepStep;
    match a
    case StrayWake(side) => StrayInv(s, side, s');
    case Act(side, sleep, m) =>
      var pc := Of(s, side).pc;
      if pc.Trying? {
        TryCounters(s, side, m, s');
        TrySleeps(s, side, m, Sender, s');
        TrySleeps(s, side, m, Receiver, s');
      } else if pc.Telling? {
        TellMoves(s, side, s');
        OnlyMovedCounters(s, s', side);
        TellSleeps(s, side, Sender, s');
        TellSleeps(s, side, Receiver, s');
      } else if pc.Sleeping? {
        SleepMoves(s, side, s');
        OnlyMovedCounters(s, s', side);
        SleepLocks(s, side, s');
        SleepKeepsMine(s, side, s');
        SleepKeepsOther(s, side, s');
      } else {
        IdleInv(s, side, sleep, s');
      }
  }

  lemma StrayInv(s: State, side: Side, s': State)
    requires Inv(s) && Moves(s, StrayWake(side), s')
    ensures Inv(s')
  {
    hide Wrap, Stale, HoldsTail, HasWork, Locked;
    if side == Sender {
      if s.s.blocked {} else {}
    } else {
      if s.r.blocked {} else {}
    }
  }

  lemma IdleInv(s: State, side: Side, sleep: bool, s': State)
    requires Inv(s) && Of(s, side).pc.Idle? && Moves(s, Act(side, sleep, 0), s')
    ensures Inv(s')
  {
    hide Wrap, Stale, HasWork, TryStep, TellStep, SleepStep;
    if side == Sender {
      if sleep {} else {}
    } else {
      if sleep {} else {}
    }
  }

  // ---- runs, and what holds of every state on one ----

  ghost predicate CanMove(s: State, s': State) {
    exists a :: Moves(s, a, s')
  }

  ghost predicate IsRun(run: seq<State>) {
    |run| > 0 && Init(run[0]) && forall i :: 0 <= i < |run| - 1 ==> CanMove(run[i], run[i + 1])
  }

  lemma {:induction false} RunInv(run: seq<State>, i: nat)
    requires IsRun(run) && i < |run|
    ensures Inv(run[i])
  {
    if i == 0 {
      InitInv(run[0]);
    } else {
      RunInv(run, i - 1);
      assert CanMove(run[i - 1], run[i - 1 + 1]);
      var a :| Moves(run[i - 1], a, run[i]);
      StepInv(run[i - 1], a, run[i]);
    }
  }

  /** Two honest sides never break a ring: the counters' difference is the number of messages waiting, and
      never more than there are slots. */
  lemma NeverBroken(run: seq<State>, i: nat)
    requires IsRun(run) && i < |run|
    ensures var s := run[i]; Queued(s.tail, s.head) == |s.sent| - |s.received| <= |s.slots|
  {
    RunInv(run, i);
    QueuedIs(|run[i].sent|, |run[i].received|);
  }

  /** How far a side is from having woken the other. */
  function Owed(pc: Pc): nat
    requires pc.Telling?
  {
    match pc.notice
    case ReadingFlag => 3
    case Waking => 2
    case Unblocking => 1
  }

  /** No lost wake: a side parked in the kernel with work to do is owed a wake, the one who owes it can
      always take their next step, and that step is the wake or is one nearer to it. */
  lemma NoLostWake(run: seq<State>, i: nat, side: Side)
    requires IsRun(run) && i < |run|
    requires var s := run[i]; Of(s, side).pc == Sleeping(Parked) && Of(s, side).blocked
    requires var s := run[i]; HasWork(side, |s.sent|, |s.received|, |s.slots|)
    ensures Of(run[i], Other(side)).pc.Telling?
    ensures forall sleep, m :: var a := Act(Other(side), sleep, m);
      && Enabled(run[i], a)
      && Shaped(run[i])
      && var s' := Next(run[i], a);
      && (Owed(Of(run[i], Other(side)).pc) == 1 ==> !Of(s', side).blocked)
      && (Owed(Of(run[i], Other(side)).pc) > 1 ==>
            && Of(s', side) == Of(run[i], side).(registered := Of(s', side).registered)
            && Of(s', Other(side)).pc.Telling?
            && Owed(Of(s', Other(side)).pc) == Owed(Of(run[i], Other(side)).pc) - 1)
  {
    RunInv(run, i);
    hide CountersOk, TryStep, SleepStep, HasWork;
    var s := run[i];
    assert s.lock.Free?;
    if side == Sender {
      match s.r.pc.notice case ReadingFlag => case Waking => case Unblocking =>
    } else {
      match s.s.pc.notice case ReadingFlag => case Waking => case Unblocking =>
    }
  }

  /** Someone always has work, so the two sides are never both parked. */
  lemma NeverBothParked(run: seq<State>, i: nat)
    requires IsRun(run) && i < |run|
    ensures !(Committed(run[i].s) && Committed(run[i].r))
  {
    RunInv(run, i);
    hide CountersOk;
  }

  // ---- messages arrive once each, unchanged and in order ----

  function SlotOf(number: nat, slots: nat): nat
    requires slots > 0
    ensures SlotOf(number, slots) < slots
  {
    Wrap(number) % slots
  }

  /** Numbers less than a ring apart share no slot: the slot count divides the counters' range, or the
      counters have not wrapped. */
  lemma DistinctSlots(i: nat, j: nat, slots: nat)
    requires i < j < i + slots && (WRAP % slots == 0 || j < WRAP)
    ensures SlotOf(i, slots) != SlotOf(j, slots)
  {
    if WRAP % slots == 0 {
      WrapAligned(i, slots);
      WrapAligned(j, slots);
    }
    ApartMod(i, j, slots);
  }

  lemma WrapAligned(i: nat, slots: nat)
    requires slots > 0 && WRAP % slots == 0
    ensures Wrap(i) % slots == i % slots
  {
    var q, k := i / WRAP, WRAP / slots;
    assert i == WRAP * q + Wrap(i) && WRAP == slots * k;
    ModShift(Wrap(i), slots, k * q);
    assert i == Wrap(i) + slots * (k * q);
  }

  ghost predicate InSlots(s: State)
    requires Shaped(s) && |s.received| <= |s.sent|
  {
    forall i :: |s.received| <= i < |s.sent| ==> s.slots[SlotOf(i, |s.slots|)] == s.sent[i]
  }

  /** Received is a prefix of sent, and the rest is in the slots. */
  ghost predicate Fifo(s: State)
    requires Shaped(s) && CountersOk(s)
  {
    && s.received == s.sent[..|s.received|]
    && InSlots(s)
    && (s.s.pc == Trying(Publishing) ==> s.slots[SlotOf(|s.sent|, |s.slots|)] == s.s.held)
    && (s.r.pc == Trying(Publishing) ==> s.r.held == s.sent[|s.received|])
  }

  /** The condition: the slot count divides 2^32, or fewer messages than that have been sent. */
  predicate Unconfused(s: State)
    requires |s.slots| > 0
  {
    WRAP % |s.slots| == 0 || |s.sent| < WRAP
  }

  lemma CopyKeepsOthers(s: State, slots': seq<Message>, m: Message)
    requires Inv(s) && Fifo(s) && s.s.pc == Trying(Copying) && Unconfused(s)
    requires slots' == s.slots[s.s.mine % |s.slots| := m]
    ensures forall i :: |s.received| <= i < |s.sent| ==> slots'[SlotOf(i, |s.slots|)] == s.sent[i]
  {
    hide SleepOk;
    forall i | |s.received| <= i < |s.sent| ensures slots'[SlotOf(i, |s.slots|)] == s.sent[i] {
      DistinctSlots(i, |s.sent|, |s.slots|);
    }
  }

  lemma TryFifo(s: State, side: Side, m: Message, s': State)
    requires Inv(s) && Fifo(s) && Of(s, side).pc.Trying? && Unconfused(s) && s' == TryStep(s, side, m)
    requires Shaped(s') && CountersOk(s')
    ensures Fifo(s') && s.sent <= s'.sent && |s'.slots| == |s.slots|
  {
    hide CountersOk, Fifo, TryStep, SleepOk;
    if side == Sender {
      SendFifo(s, m, s');
    } else {
      ReceiveFifo(s, m, s');
    }
  }

  lemma SendFifo(s: State, m: Message, s': State)
    requires Inv(s) && Fifo(s) && s.s.pc.Trying? && Unconfused(s) && s' == TryStep(s, Sender, m)
    requires Shaped(s') && CountersOk(s')
    ensures Fifo(s') && s.sent <= s'.sent && |s'.slots| == |s.slots|
  {
    hide SleepOk, Wrap, Queued, Stale;
    if s.s.pc == Trying(Copying) {
      CopyKeepsOthers(s, s'.slots, m);
    }
    match s.s.pc.attempt
    case Loaded => case Counted => case Copying => case Publishing =>
  }

  lemma ReceiveFifo(s: State, m: Message, s': State)
    requires Inv(s) && Fifo(s) && s.r.pc.Trying? && s' == TryStep(s, Receiver, m)
    requires Shaped(s') && CountersOk(s')
    ensures Fifo(s') && s.sent <= s'.sent && |s'.slots| == |s.slots|
  {
    hide SleepOk, Wrap, Queued, Stale;
    match s.r.pc.attempt
    case Loaded => case Counted => case Copying => case Publishing =>
  }

  lemma MovedFifo(s: State, side: Side, s': State)
    requires Shaped(s) && CountersOk(s) && Fifo(s) && OnlyMoved(s, s', side)
    requires Shaped(s') && CountersOk(s')
    ensures Fifo(s')
  {
    hide Wrap, Stale;
  }

  lemma StepFifo(s: State, a: Act, s': State)
    requires Inv(s) && Fifo(s) && Unconfused(s) && Moves(s, a, s') && Inv(s')
    ensures Fifo(s') && s.sent <= s'.sent && |s'.slots| == |s.slots|
  {
    hide SleepOk, Wrap, Queued, Stale, TryStep, TellStep, SleepStep;
    match a
    case StrayWake(side) => if side == Sender {} else {}
    case Act(side, sleep, m) =>
      if Of(s, side).pc.Trying? {
        TryFifo(s, side, m, s');
      } else if Of(s, side).pc.Telling? {
        TellMoves(s, side, s');
        MovedFifo(s, side, s');
      } else if Of(s, side).pc.Sleeping? {
        SleepMoves(s, side, s');
        MovedFifo(s, side, s');
      } else {
        if side == Sender {} else {}
      }
  }

  lemma {:induction false} RunFifo(run: seq<State>, i: nat)
    requires IsRun(run) && i < |run| && (WRAP % |run[0].slots| == 0 || |run[i].sent| < WRAP)
    ensures Inv(run[i]) && |run[i].slots| == |run[0].slots| && Fifo(run[i])
    ensures i > 0 ==> Inv(run[i - 1]) && |run[i - 1].sent| <= |run[i].sent|
  {
    RunInv(run, i);
    if i > 0 {
      RunInv(run, i - 1);
      assert CanMove(run[i - 1], run[i - 1 + 1]);
      var a :| Moves(run[i - 1], a, run[i]);
      SentGrows(run[i - 1], a, run[i]);
      RunFifo(run, i - 1);
      StepFifo(run[i - 1], a, run[i]);
    }
  }

  lemma SentGrows(s: State, a: Act, s': State)
    requires Moves(s, a, s')
    ensures |s.sent| <= |s'.sent|
  {
    hide Wrap, Queued;
  }

  /** First in, first out: what has been received is what was sent first, whatever the interleaving, on every
      run of a ring whose slot count divides 2^32, and on any other ring before its counters wrap. */
  lemma ReceivedInOrder(run: seq<State>, i: nat)
    requires IsRun(run) && i < |run| && (WRAP % |run[0].slots| == 0 || |run[i].sent| < WRAP)
    ensures run[i].received <= run[i].sent
  {
    RunFifo(run, i);
  }

  // ---- and only then ----

  ghost predicate Reach(s: State, slots: nat) {
    exists run: seq<State> :: IsRun(run) && run[|run| - 1] == s && |run[0].slots| == slots
  }

  lemma ReachStep(s: State, a: Act, slots: nat) returns (s': State)
    requires Reach(s, slots) && Shaped(s) && Enabled(s, a)
    ensures s' == Next(s, a) && Reach(s', slots) && Inv(s')
  {
    var run: seq<State> :| IsRun(run) && run[|run| - 1] == s && |run[0].slots| == slots;
    s' := Next(s, a);
    var longer := run + [s'];
    assert Moves(s, a, s');
    forall i | 0 <= i < |longer| - 1 ensures CanMove(longer[i], longer[i + 1]) {
      if i < |run| - 1 {
        assert CanMove(run[i], run[i + 1]);
      }
    }
    assert IsRun(longer);
    RunInv(longer, |longer| - 1);
  }

  /** Nobody is doing anything. */
  predicate Quiet(s: State) {
    s.s.pc.Idle? && s.r.pc.Idle? && !s.s.flag && !s.r.flag
  }

  /** One `try_send` or `try_receive`, undisturbed: up to the copy... */
  lemma HalfCall(s: State, side: Side, m: Message, slots: nat) returns (s': State)
    requires Reach(s, slots) && Inv(s) && Quiet(s) && HasWork(side, |s.sent|, |s.received|, |s.slots|)
    ensures Reach(s', slots) && Inv(s') && Of(s', side).pc == Trying(Copying)
    ensures s' == Put(s, side, Of(s', side))
    ensures !Of(s', side).flag && Of(s', side).mine == if side == Sender then s.tail else s.head
  {
    hide Reach;
    var a := Act(side, false, m);
    QueuedIs(|s.sent|, |s.received|);
    var s1 := ReachStep(s, a, slots);
    var s2 := ReachStep(s1, a, slots);
    s' := ReachStep(s2, a, slots);
  }

  /** ...and from it. */
  lemma OneCall(s: State, side: Side, m: Message, slots: nat) returns (s': State)
    requires Reach(s, slots) && Inv(s) && Quiet(s) && HasWork(side, |s.sent|, |s.received|, |s.slots|)
    ensures Reach(s', slots) && Inv(s') && Quiet(s') && |s'.slots| == |s.slots|
    ensures side == Sender ==>
      && s'.sent == s.sent + [m] && s'.received == s.received
      && s'.slots == s.slots[SlotOf(|s.sent|, |s.slots|) := m]
    ensures side == Receiver ==>
      && s'.received == s.received + [s.slots[SlotOf(|s.received|, |s.slots|)]] && s'.sent == s.sent
      && s'.slots == s.slots
  {
    hide Reach;
    var a := Act(side, false, m);
    QueuedIs(|s.sent|, |s.received|);
    var s3 := HalfCall(s, side, m, slots);
    var s4 := ReachStep(s3, a, slots);
    var s5 := ReachStep(s4, a, slots);
    s' := ReachStep(s5, a, slots);
  }

  ghost predicate Level(s: State, slots: nat, sent: nat, received: nat) {
    Reach(s, slots) && Inv(s) && Quiet(s) && |s.slots| == slots && |s.sent| == sent && |s.received| == received
  }

  lemma {:induction false} PingPong(slots: nat, count: nat) returns (s: State)
    requires 2 <= slots <= MAX_SLOTS
    ensures Level(s, slots, count, count)
  {
    if count == 0 {
      var idle := Local(Idle, 0, 0, 0, false, false, false, false);
      s := State(seq(slots, _ => 0), 0, 0, Free, idle, idle, [], []);
      assert IsRun([s]);
      InitInv(s);
    } else {
      var before := PingPong(slots, count - 1);
      var sent := OneCall(before, Sender, 0, slots);
      s := OneCall(sent, Receiver, 0, slots);
    }
  }

  /** `count` sends of zero with nothing received meanwhile. */
  lemma {:induction false} SendZeros(s: State, slots: nat, at: nat, count: nat) returns (s': State)
    requires Level(s, slots, at, at) && count <= slots
    ensures Level(s', slots, at + count, at) && s.sent <= s'.sent
    ensures count > 0 ==> s'.sent[at] == 0
  {
    if count == 0 {
      s' := s;
    } else {
      var before := SendZeros(s, slots, at, count - 1);
      s' := OneCall(before, Sender, 0, slots);
    }
  }

  /** A ring whose slot count does not divide 2^32 hands over the wrong message: with the counters one
      partial lap short of wrapping, the message that wraps takes the slot of the one still waiting at the
      head. */
  lemma OutOfOrder(slots: nat) returns (s: State)
    requires 2 <= slots <= MAX_SLOTS && WRAP % slots != 0
    ensures Reach(s, slots) && !(s.received <= s.sent)
  {
    var r := WRAP % slots;
    var at := WRAP - r;
    var level := PingPong(slots, at);
    var full := SendZeros(level, slots, at, r);
    SameSlot(slots);
    var last := OneCall(full, Sender, 1, slots);
    assert last.slots[SlotOf(at, slots)] == 1;
    s := OneCall(last, Receiver, 0, slots);
    assert s.received[at] == 1 && s.sent[at] == 0;
  }

  lemma SameSlot(slots: nat)
    requires 2 <= slots <= MAX_SLOTS && WRAP % slots != 0
    ensures SlotOf(WRAP - WRAP % slots, slots) == SlotOf(WRAP, slots) == 0
  {
    var q := WRAP / slots;
    assert WRAP - WRAP % slots == 0 + slots * q;
    ModShift(0, slots, q);
  }

  ghost predicate AlwaysInOrder(slots: nat) {
    forall s :: Reach(s, slots) ==> s.received <= s.sent
  }

  /** Exactly the slot counts that divide 2^32 make a ring that is in order on every run. */
  lemma InOrderExactly(slots: nat)
    requires 2 <= slots <= MAX_SLOTS
    ensures AlwaysInOrder(slots) <==> WRAP % slots == 0
  {
    if WRAP % slots == 0 {
      forall s | Reach(s, slots) ensures s.received <= s.sent {
        var run: seq<State> :| IsRun(run) && run[|run| - 1] == s && |run[0].slots| == slots;
        ReceivedInOrder(run, |run| - 1);
      }
    } else {
      var s := OutOfOrder(slots);
    }
  }
}
