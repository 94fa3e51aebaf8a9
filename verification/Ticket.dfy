/** The ticket lock under every kernel lock: `lock` takes a number and spins, `try_lock` loads and then compares
    and exchanges, and a release loads and then stores. Each atomic access is a step. */
module Ticket {

  /** Where a caller is, with the value it has in hand. */
  datatype Caller =
    | Idle
    | Spinning(ticket: nat)
    | Loaded(serving: nat)      // in try_lock, before the exchange
    | Holding(ticket: nat)
    | Releasing(ticket: nat, next: nat)

  datatype State = State(next: nat, serving: nat, cs: seq<Caller>)

  datatype Act = Lock(c: nat) | Spin(c: nat) | TryLoad(c: nat) | TryExchange(c: nat) | DropLoad(c: nat) | DropStore(c: nat)

  predicate Enabled(s: State, a: Act) {
    && a.c < |s.cs|
    && match a
       case Lock(c) => s.cs[c].Idle?
       case Spin(c) => s.cs[c].Spinning?
       case TryLoad(c) => s.cs[c].Idle?
       case TryExchange(c) => s.cs[c].Loaded?
       case DropLoad(c) => s.cs[c].Holding?
       case DropStore(c) => s.cs[c].Releasing?
  }

  function Next(s: State, a: Act): State
    requires Enabled(s, a)
  {
    match a
    case Lock(c) => s.(next := s.next + 1, cs := s.cs[c := Spinning(s.next)])
    case Spin(c) => if s.serving == s.cs[c].ticket then s.(cs := s.cs[c := Holding(s.serving)]) else s
    case TryLoad(c) => s.(cs := s.cs[c := Loaded(s.serving)])
    case TryExchange(c) =>
      var v := s.cs[c].serving;
      if s.next == v then s.(next := v + 1, cs := s.cs[c := Holding(v)]) else s.(cs := s.cs[c := Idle])
    case DropLoad(c) => s.(cs := s.cs[c := Releasing(s.cs[c].ticket, s.serving + 1)])
    case DropStore(c) => s.(serving := s.cs[c].next, cs := s.cs[c := Idle])
  }

  predicate Init(s: State) {
    s.next == s.serving == 0 && forall c :: 0 <= c < |s.cs| ==> s.cs[c].Idle?
  }

  predicate HasTicket(c: Caller) {
    c.Spinning? || c.Holding? || c.Releasing?
  }

  predicate Holds(c: Caller) {
    c.Holding? || c.Releasing?
  }

  ghost predicate CallerOk(s: State, c: Caller) {
    && (HasTicket(c) ==> s.serving <= c.ticket < s.next)
    && (Holds(c) ==> c.ticket == s.serving)
    && (c.Releasing? ==> c.next == s.serving + 1)
    && (c.Loaded? ==> c.serving <= s.serving)
  }

  /** Someone has the ticket, and nobody else. */
  ghost predicate Issued(s: State, ticket: nat) {
    exists c :: 0 <= c < |s.cs| && HasTicket(s.cs[c]) && s.cs[c].ticket == ticket
  }

  ghost predicate Inv(s: State) {
    && s.serving <= s.next
    && (forall c :: 0 <= c < |s.cs| ==> CallerOk(s, s.cs[c]))
    && (forall c, d :: 0 <= c < d < |s.cs| && HasTicket(s.cs[c]) && HasTicket(s.cs[d]) ==> s.cs[c].ticket != s.cs[d].ticket)
    && (forall ticket :: s.serving <= ticket < s.next ==> Issued(s, ticket))
  }

  lemma StepInv(s: State, a: Act)
    requires Inv(s) && Enabled(s, a)
    ensures Inv(Next(s, a))
  {
    var s' := Next(s, a);
    var c := a.c;
    assert CallerOk(s, s.cs[c]);
    assert forall d :: 0 <= d < |s.cs| && d != c ==> s'.cs[d] == s.cs[d] && CallerOk(s, s.cs[d]);
    StillIssued(s, a);
    hide Issued;
    match a
    case Lock(_) => case Spin(_) => case TryLoad(_) => case TryExchange(_) => case DropLoad(_) => case DropStore(_) =>
  }

  lemma StillIssued(s: State, a: Act)
    requires Inv(s) && Enabled(s, a)
    ensures var s' := Next(s, a); forall ticket :: s'.serving <= ticket < s'.next ==> Issued(s', ticket)
  {
    var s', c := Next(s, a), a.c;
    assert CallerOk(s, s.cs[c]);
    forall ticket | s'.serving <= ticket < s'.next ensures Issued(s', ticket) {
      if ticket < s.next {
        assert Issued(s, ticket);
        var d :| 0 <= d < |s.cs| && HasTicket(s.cs[d]) && s.cs[d].ticket == ticket;
        assert HasTicket(s'.cs[d]) && s'.cs[d].ticket == ticket;
      } else {
        assert HasTicket(s'.cs[c]) && s'.cs[c].ticket == ticket;
      }
    }
  }

  ghost predicate CanMove(s: State, s': State) {
    exists a :: Enabled(s, a) && s' == Next(s, a)
  }

  ghost predicate IsRun(run: seq<State>) {
    |run| > 0 && Init(run[0]) && forall i :: 0 <= i < |run| - 1 ==> CanMove(run[i], run[i + 1])
  }

  lemma {:induction false} RunInv(run: seq<State>, i: nat)
    requires IsRun(run) && i < |run|
    ensures Inv(run[i])
  {
    if i > 0 {
      RunInv(run, i - 1);
      assert CanMove(run[i - 1], run[i - 1 + 1]);
      var a :| Enabled(run[i - 1], a) && run[i] == Next(run[i - 1], a);
      StepInv(run[i - 1], a);
    }
  }

  /** One holder at a time, and it has the ticket being served, however it got in: a `try_lock` whose exchange
      succeeded loaded a number that is still the one being served. */
  lemma OneHolder(run: seq<State>, i: nat, c: nat)
    requires IsRun(run) && i < |run| && c < |run[i].cs| && Holds(run[i].cs[c])
    ensures run[i].cs[c].ticket == run[i].serving
    ensures forall d :: 0 <= d < |run[i].cs| && d != c ==> !Holds(run[i].cs[d])
  {
    RunInv(run, i);
    var s := run[i];
    forall d | 0 <= d < |s.cs| && d != c ensures !Holds(s.cs[d]) {
      assert CallerOk(s, s.cs[c]) && CallerOk(s, s.cs[d]);
      assert c < d || d < c;
    }
  }

  ghost predicate InTurn(s: State, c: nat)
    requires c < |s.cs|
  {
    && HasTicket(s.cs[c]) && s.cs[c].ticket == s.serving
    && (Holds(s.cs[c]) || Holds(Next(s, Spin(c)).cs[c]))
  }

  /** Nobody is passed over: while any ticket is out, the one being served is somebody's, who holds the lock or
      takes it with their next look; everyone else spins on. */
  lemma TurnIsTaken(run: seq<State>, i: nat)
    requires IsRun(run) && i < |run| && run[i].serving < run[i].next
    ensures exists c :: 0 <= c < |run[i].cs| && InTurn(run[i], c)
  {
    RunInv(run, i);
    var s := run[i];
    assert Issued(s, s.serving);
    var c :| 0 <= c < |s.cs| && HasTicket(s.cs[c]) && s.cs[c].ticket == s.serving;
    assert InTurn(s, c);
  }

  ghost predicate HeldWith(s: State, c: nat, ticket: nat) {
    c < |s.cs| && Holds(s.cs[c]) && s.cs[c].ticket == ticket
  }

  /** In ticket order: of two callers spinning, the one with the earlier ticket gets the lock with it, and has given
      it up, before the other one has it. */
  lemma FirstComeFirstServed(run: seq<State>, i: nat, c: nat, d: nat, j: nat)
    requires IsRun(run) && i <= j < |run|
    requires c < |run[i].cs| && d < |run[i].cs| && d < |run[j].cs|
    requires run[i].cs[c].Spinning? && run[i].cs[d].Spinning? && run[i].cs[c].ticket < run[i].cs[d].ticket
    requires Holds(run[j].cs[d]) && run[j].cs[d].ticket == run[i].cs[d].ticket
    ensures run[j].serving > run[i].cs[c].ticket
    ensures exists k :: i < k < j && HeldWith(run[k], c, run[i].cs[c].ticket) && run[k].serving == run[i].cs[c].ticket
    ensures forall k :: j <= k < |run| ==> !HeldWith(run[k], c, run[i].cs[c].ticket)
  {
    var ticket := run[i].cs[c].ticket;
    RunInv(run, j);
    assert CallerOk(run[j], run[j].cs[d]);
    HeldBefore(run, i, j, c, ticket);
    var k :| i <= k < j && HeldWith(run[k], c, ticket);
    RunInv(run, k);
    assert k != i && CallerOk(run[k], run[k].cs[c]);
    forall k | j <= k < |run|
      ensures !HeldWith(run[k], c, ticket)
    {
      RunInv(run, k);
      ServingGrows(run, j, k);
      assert HeldWith(run[k], c, ticket) ==> CallerOk(run[k], run[k].cs[c]);
    }
  }

  /** A ticket no longer served was held by whoever had it. */
  lemma {:induction false} HeldBefore(run: seq<State>, i: nat, j: nat, c: nat, ticket: nat)
    requires IsRun(run) && i <= j < |run| && run[j].serving > ticket
    requires c < |run[i].cs| && HasTicket(run[i].cs[c]) && run[i].cs[c].ticket == ticket
    ensures exists k :: i <= k < j && HeldWith(run[k], c, ticket)
    decreases j - i
  {
    RunInv(run, i);
    assert CallerOk(run[i], run[i].cs[c]);
    if Holds(run[i].cs[c]) {
      assert HeldWith(run[i], c, ticket);
    } else {
      assert CanMove(run[i], run[i + 1]);
      var a :| Enabled(run[i], a) && run[i + 1] == Next(run[i], a);
      HeldBefore(run, i + 1, j, c, ticket);
    }
  }

  lemma {:induction false} ServingGrows(run: seq<State>, i: nat, j: nat)
    requires IsRun(run) && i <= j < |run|
    ensures run[i].serving <= run[j].serving
    decreases j - i
  {
    if i < j {
      ServingGrows(run, i, j - 1);
      RunInv(run, j - 1);
      assert CanMove(run[j - 1], run[j - 1 + 1]);
      var a :| Enabled(run[j - 1], a) && run[j] == Next(run[j - 1], a);
      assert CallerOk(run[j - 1], run[j - 1].cs[a.c]);
    }
  }
}
