/** The cache of mapped PCI buses. Claiming a bus, ending an access and marking a bus unmapped happen under a lock;
    the unmapping itself, page by page, does not, and any number of callers interleave. */
module Ecam {

  const MAX_MAPPED: nat := 8
  const BUS_PAGES: nat := 256

  datatype Option<+T> = None | Some(value: T)

  datatype BusState = Unmapped | Mapped | Evicting

  /** `pages`: how many of the bus's pages are in the page tables. */
  datatype Bus = Bus(state: BusState, readers: nat, lastUsed: nat, pages: nat)

  /** Where a caller is. A caller that chose a victim clears it after its own access; one whose map failed part
      way clears what it had mapped. */
  datatype Pc = Out | Claiming(bus: nat, need: bool) | Reading(bus: nat, victim: Option<nat>) | Clearing(bus: nat)

  datatype State = State(buses: seq<Bus>, clock: nat, ts: seq<Pc>)

  datatype Act =
    | Begin(t: nat, bus: nat, need: bool) | Claim(t: nat, failsAt: Option<nat>) | Finish(t: nat) | Clear(t: nat)

  predicate IsMapped(b: Bus) {
    b.state == Mapped
  }

  predicate IsRead(b: Bus) {
    b.readers > 0
  }

  function MappedCount(buses: seq<Bus>): nat {
    if buses == [] then 0 else (if IsMapped(buses[0]) then 1 else 0) + MappedCount(buses[1..])
  }

  function ReadCount(buses: seq<Bus>): nat {
    if buses == [] then 0 else (if IsRead(buses[0]) then 1 else 0) + ReadCount(buses[1..])
  }

  predicate Idle(b: Bus) {
    b.state == Mapped && b.readers == 0
  }

  /** Among the mapped buses with no reader, one with the least stamp. */
  ghost predicate IsOldest(buses: seq<Bus>, v: nat) {
    && v < |buses| && Idle(buses[v])
    && forall w :: 0 <= w < |buses| && Idle(buses[w]) ==>
         buses[v].lastUsed < buses[w].lastUsed || (buses[v].lastUsed == buses[w].lastUsed && v <= w)
  }

  ghost predicate IsVictim(buses: seq<Bus>, victim: Option<nat>) {
    match victim
    case None => MappedCount(buses) < MAX_MAPPED || forall w :: 0 <= w < |buses| ==> !Idle(buses[w])
    case Some(v) => MappedCount(buses) >= MAX_MAPPED && IsOldest(buses, v)
  }

  /** The access counted, before a victim is chosen. */
  function Entered(b: Bus, clock: nat): Bus {
    Bus(Mapped, b.readers + 1, clock, BUS_PAGES)
  }

  function Evict(buses: seq<Bus>, victim: Option<nat>): seq<Bus>
    requires victim.Some? ==> victim.value < |buses|
  {
    if victim.None? then buses else buses[victim.value := buses[victim.value].(state := Evicting)]
  }

  /** The locked part of `with_config_space`. */
  ghost predicate Claims(s: State, t: nat, failsAt: Option<nat>, s': State)
    requires t < |s.ts| && s.ts[t].Claiming? && s.ts[t].bus < |s.buses|
  {
    var Claiming(bus, need) := s.ts[t];
    var b := s.buses[bus];
    if b.state == Evicting then s' == if need then s else s.(ts := s.ts[t := Out])
    else if b.state == Unmapped && !need then s' == s.(ts := s.ts[t := Out])
    else if b.state == Unmapped && failsAt.Some? then
      if failsAt.value == 0 then s' == s.(ts := s.ts[t := Out])
      else
        && failsAt.value < BUS_PAGES
        && s' == s.(buses := s.buses[bus := b.(state := Evicting, pages := failsAt.value)], ts := s.ts[t := Clearing(bus)])
    else EntersWith(s, t, bus, s')
  }

  ghost predicate EntersWith(s: State, t: nat, bus: nat, s': State)
    requires t < |s.ts| && bus < |s.buses|
  {
    var entered := s.buses[bus := Entered(s.buses[bus], s.clock + 1)];
    exists victim :: IsVictim(entered, victim) &&
      s' == State(Evict(entered, victim), s.clock + 1, s.ts[t := Reading(bus, victim)])
  }

  ghost predicate Moves(s: State, a: Act, s': State) {
    && a.t < |s.ts|
    && match a
       case Begin(t, bus, need) => s.ts[t].Out? && bus < |s.buses| && s' == s.(ts := s.ts[t := Claiming(bus, need)])
       case Claim(t, failsAt) => s.ts[t].Claiming? && s.ts[t].bus < |s.buses| && Claims(s, t, failsAt, s')
       case Finish(t) => s.ts[t].Reading? && s.ts[t].bus < |s.buses| && Finishes(s, t, s')
       case Clear(t) => s.ts[t].Clearing? && s.ts[t].bus < |s.buses| && Clears(s, t, s')
  }

  ghost predicate Finishes(s: State, t: nat, s': State)
    requires t < |s.ts| && s.ts[t].Reading? && s.ts[t].bus < |s.buses|
  {
    var Reading(bus, victim) := s.ts[t];
    var b := s.buses[bus];
    && b.readers > 0
    && s' == s.(buses := s.buses[bus := b.(readers := b.readers - 1)],
                ts := s.ts[t := if victim.None? then Out else Clearing(victim.value)])
  }

  /** One page unmapped, or, when none is left, the bus marked so. */
  ghost predicate Clears(s: State, t: nat, s': State)
    requires t < |s.ts| && s.ts[t].Clearing? && s.ts[t].bus < |s.buses|
  {
    var bus := s.ts[t].bus;
    var b := s.buses[bus];
    if b.pages > 0 then s' == s.(buses := s.buses[bus := b.(pages := b.pages - 1)])
    else s' == s.(buses := s.buses[bus := b.(state := Unmapped)], ts := s.ts[t := Out])
  }

  predicate Init(s: State) {
    && (forall b :: 0 <= b < |s.buses| ==> s.buses[b] == Bus(Unmapped, 0, 0, 0))
    && (forall t :: 0 <= t < |s.ts| ==> s.ts[t].Out?)
  }

  // ---- the invariant ----

  predicate BusOk(b: Bus) {
    match b.state
    case Mapped => b.pages == BUS_PAGES
    case Unmapped => b.pages == 0 && b.readers == 0
    case Evicting => b.pages <= BUS_PAGES && b.readers == 0
  }

  /** The bus a caller has taken on to clear. */
  predicate Owns(pc: Pc, b: nat) {
    pc == Clearing(b) || (pc.Reading? && pc.victim == Some(b))
  }

  function ReadersOf(ts: seq<Pc>, b: nat): nat {
    if ts == [] then 0 else (if ts[0].Reading? && ts[0].bus == b then 1 else 0) + ReadersOf(ts[1..], b)
  }

  predicate InRange(pc: Pc, buses: nat) {
    pc.Claiming? || pc.Reading? ==> pc.bus < buses
  }

  ghost predicate Buses(s: State) {
    && (forall b :: 0 <= b < |s.buses| ==> BusOk(s.buses[b]) && s.buses[b].readers == ReadersOf(s.ts, b))
    && (forall t :: 0 <= t < |s.ts| ==> InRange(s.ts[t], |s.buses|))
  }

  ghost predicate Owners(s: State) {
    && (forall b :: 0 <= b < |s.buses| ==>
          (s.buses[b].state == Evicting <==> exists t :: 0 <= t < |s.ts| && Owns(s.ts[t], b)))
    && (forall t, u, b: nat :: 0 <= t < |s.ts| && 0 <= u < |s.ts| && Owns(s.ts[t], b) && Owns(s.ts[u], b) ==> t == u)
    && (forall t, b: nat :: 0 <= t < |s.ts| && Owns(s.ts[t], b) ==> b < |s.buses|)
  }

  ghost predicate Inv(s: State) {
    Buses(s) && Owners(s)
  }

  predicate Reads(pc: Pc, b: nat) {
    pc.Reading? && pc.bus == b
  }

  lemma {:induction false} ReadersUpdate(ts: seq<Pc>, t: nat, pc: Pc, b: nat)
    requires t < |ts|
    ensures ReadersOf(ts[t := pc], b) == ReadersOf(ts, b) - (if Reads(ts[t], b) then 1 else 0) + (if Reads(pc, b) then 1 else 0)
  {
    if t > 0 {
      ReadersUpdate(ts[1..], t - 1, pc, b);
      assert ts[t := pc][1..] == ts[1..][t - 1 := pc];
    } else {
      assert ts[t := pc][1..] == ts[1..];
    }
  }

  lemma {:induction false} NoReaders(ts: seq<Pc>, b: nat)
    requires forall t :: 0 <= t < |ts| ==> ts[t].Out?
    ensures ReadersOf(ts, b) == 0
  {
    if ts != [] {
      NoReaders(ts[1..], b);
    }
  }

  lemma InitInv(s: State)
    requires Init(s)
    ensures Inv(s)
  {
    forall b: nat | b < |s.buses| ensures s.buses[b].readers == ReadersOf(s.ts, b) {
      NoReaders(s.ts, b);
    }
  }

  /** One caller moves on and each bus follows it. */
  lemma BusesStep(s: State, t: nat, pc: Pc, s': State)
    requires Buses(s) && t < |s.ts| && s'.ts == s.ts[t := pc] && |s'.buses| == |s.buses| && InRange(pc, |s.buses|)
    requires forall b: nat :: b < |s.buses| ==>
      && BusOk(s'.buses[b])
      && s'.buses[b].readers == s.buses[b].readers - (if Reads(s.ts[t], b) then 1 else 0) + (if Reads(pc, b) then 1 else 0)
    ensures Buses(s')
  {
    hide BusOk, ReadersOf;
    forall b: nat | b < |s'.buses| ensures BusOk(s'.buses[b]) && s'.buses[b].readers == ReadersOf(s'.ts, b) {
      ReadersUpdate(s.ts, t, pc, b);
    }
  }

  /** At most one bus changes hands. */
  lemma OwnersStep(s: State, t: nat, pc: Pc, c: nat, s': State)
    requires Owners(s) && t < |s.ts| && s'.ts == s.ts[t := pc] && |s'.buses| == |s.buses|
    requires forall b: nat :: b != c ==> (Owns(pc, b) <==> Owns(s.ts[t], b))
    requires forall b: nat :: b < |s.buses| && b != c ==> (s'.buses[b].state == Evicting <==> s.buses[b].state == Evicting)
    requires c < |s.buses| ==> (s'.buses[c].state == Evicting <==> Owns(pc, c))
    requires forall u :: 0 <= u < |s.ts| && u != t ==> !Owns(s.ts[u], c)
    requires Owns(pc, c) ==> c < |s.buses|
    ensures Owners(s')
  {
    hide Owns;
    forall b: nat | b < |s'.buses|
      ensures s'.buses[b].state == Evicting <==> exists u :: 0 <= u < |s'.ts| && Owns(s'.ts[u], b)
    {
      if b == c {
        assert Owns(pc, c) ==> Owns(s'.ts[t], b);
      } else {
        assert forall u :: 0 <= u < |s.ts| ==> (Owns(s'.ts[u], b) <==> Owns(s.ts[u], b));
      }
    }
  }

  /** A caller that neither reads nor clears, before or after, and no bus changed. */
  lemma QuietInv(s: State, t: nat, pc: Pc, s': State)
    requires Inv(s) && t < |s.ts| && s' == s.(ts := s.ts[t := pc]) && InRange(pc, |s.buses|)
    requires (s.ts[t].Out? || s.ts[t].Claiming?) && (pc.Out? || pc.Claiming?)
    ensures Inv(s')
  {
    BusesStep(s, t, pc, s');
    OwnersStep(s, t, pc, |s.buses|, s');
  }

  lemma FailInv(s: State, t: nat, bus: nat, k: nat, s': State)
    requires Inv(s) && t < |s.ts| && s.ts[t].Claiming? && bus < |s.buses| && s.buses[bus].state == Unmapped
    requires k < BUS_PAGES
    requires s' == s.(buses := s.buses[bus := s.buses[bus].(state := Evicting, pages := k)], ts := s.ts[t := Clearing(bus)])
    ensures Inv(s')
  {
    BusesStep(s, t, Clearing(bus), s');
    OwnersStep(s, t, Clearing(bus), bus, s');
  }

  lemma EnterInv(s: State, t: nat, bus: nat, victim: Option<nat>, s': State)
    requires Inv(s) && t < |s.ts| && s.ts[t].Claiming? && bus < |s.buses| && s.buses[bus].state != Evicting
    requires var entered := s.buses[bus := Entered(s.buses[bus], s.clock + 1)];
      IsVictim(entered, victim) && s' == State(Evict(entered, victim), s.clock + 1, s.ts[t := Reading(bus, victim)])
    ensures Inv(s')
  {
    hide MappedCount;
    var entered := s.buses[bus := Entered(s.buses[bus], s.clock + 1)];
    var pc := Reading(bus, victim);
    var c := if victim.None? then |s.buses| else victim.value;
    assert victim.Some? ==> Idle(entered[c]) && c != bus && s.buses[c].state == Mapped;
    BusesStep(s, t, pc, s');
    OwnersStep(s, t, pc, c, s');
  }

  lemma FinishInv(s: State, t: nat, s': State)
    requires Inv(s) && t < |s.ts| && s.ts[t].Reading? && s.ts[t].bus < |s.buses| && Finishes(s, t, s')
    ensures Inv(s')
  {
    var pc := s'.ts[t];
    assert s.ts[t].victim.Some? ==> Owns(s.ts[t], s.ts[t].victim.value);
    BusesStep(s, t, pc, s');
    OwnersStep(s, t, pc, if s.ts[t].victim.None? then |s.buses| else s.ts[t].victim.value, s');
  }

  lemma ClearInv(s: State, t: nat, s': State)
    requires Inv(s) && t < |s.ts| && s.ts[t].Clearing? && s.ts[t].bus < |s.buses| && Clears(s, t, s')
    ensures Inv(s')
  {
    assert Owns(s.ts[t], s.ts[t].bus);
    assert s'.ts == s.ts[t := s'.ts[t]];
    BusesStep(s, t, s'.ts[t], s');
    OwnersStep(s, t, s'.ts[t], s.ts[t].bus, s');
  }

  lemma StepInv(s: State, a: Act, s': State)
    requires Inv(s) && Moves(s, a, s')
    ensures Inv(s')
  {
    hide Buses, Owners, EntersWith, Finishes, Clears;
    match a
    case Begin(t, bus, need) => QuietInv(s, t, Claiming(bus, need), s');
    case Claim(t, failsAt) => ClaimInv(s, t, failsAt, s');
    case Finish(t) => FinishInv(s, t, s');
    case Clear(t) => ClearInv(s, t, s');
  }

  lemma ClaimInv(s: State, t: nat, failsAt: Option<nat>, s': State)
    requires Inv(s) && t < |s.ts| && s.ts[t].Claiming? && s.ts[t].bus < |s.buses| && Claims(s, t, failsAt, s')
    ensures Inv(s')
  {
    hide Buses, Owners, MappedCount;
    var Claiming(bus, need) := s.ts[t];
    var b := s.buses[bus];
    if b.state == Evicting || (b.state == Unmapped && (!need || failsAt == Some(0))) {
      if s' != s {
        QuietInv(s, t, Out, s');
      }
    } else if b.state == Unmapped && failsAt.Some? {
      FailInv(s, t, bus, failsAt.value, s');
    } else {
      var entered := s.buses[bus := Entered(b, s.clock + 1)];
      var victim: Option<nat> :| IsVictim(entered, victim) &&
        s' == State(Evict(entered, victim), s.clock + 1, s.ts[t := Reading(bus, victim)]);
      EnterInv(s, t, bus, victim, s');
    }
  }

  // ---- how many stay mapped ----

  lemma {:induction false} MappedUpdate(buses: seq<Bus>, i: nat, b: Bus)
    requires i < |buses|
    ensures MappedCount(buses[i := b]) ==
      MappedCount(buses) - (if IsMapped(buses[i]) then 1 else 0) + (if IsMapped(b) then 1 else 0)
  {
    if i > 0 {
      MappedUpdate(buses[1..], i - 1, b);
      assert buses[i := b][1..] == buses[1..][i - 1 := b];
    } else {
      assert buses[i := b][1..] == buses[1..];
    }
  }

  lemma {:induction false} AllRead(buses: seq<Bus>)
    requires forall i :: 0 <= i < |buses| ==> (IsMapped(buses[i]) ==> IsRead(buses[i]))
    ensures MappedCount(buses) <= ReadCount(buses)
  {
    if buses != [] {
      AllRead(buses[1..]);
    }
  }

  /** Entering a bus: with a victim, no more are mapped than before, and the limit was reached; without one, fewer
      than the limit are, or every mapped bus is being read. */
  lemma EnterCases(s: State, t: nat, bus: nat, s': State)
    requires t < |s.ts| && bus < |s.buses| && EntersWith(s, t, bus, s')
    ensures t < |s'.ts| && s'.ts[t].Reading?
    ensures s'.ts[t].victim.Some? ==> MAX_MAPPED - 1 <= MappedCount(s'.buses) <= MappedCount(s.buses)
    ensures s'.ts[t].victim.None? ==>
      MappedCount(s'.buses) < MAX_MAPPED || forall b :: 0 <= b < |s'.buses| && IsMapped(s'.buses[b]) ==> IsRead(s'.buses[b])
  {
    var entered := s.buses[bus := Entered(s.buses[bus], s.clock + 1)];
    MappedUpdate(s.buses, bus, entered[bus]);
    var victim: Option<nat> :| IsVictim(entered, victim) &&
      s' == State(Evict(entered, victim), s.clock + 1, s.ts[t := Reading(bus, victim)]);
    if victim.Some? {
      MappedUpdate(entered, victim.value, s'.buses[victim.value]);
    }
    hide MappedCount, ReadCount;
  }

  lemma EnterBound(s: State, t: nat, bus: nat, s': State, bound: nat)
    requires t < |s.ts| && bus < |s.buses| && EntersWith(s, t, bus, s') && bound >= MAX_MAPPED - 1
    requires MappedCount(s.buses) <= bound && ReadCount(s'.buses) <= bound
    ensures MappedCount(s'.buses) <= bound
  {
    hide MappedCount, ReadCount, EntersWith;
    EnterCases(s, t, bus, s');
    if s'.ts[t].victim.None? && MappedCount(s'.buses) >= MAX_MAPPED {
      AllRead(s'.buses);
    }
  }

  lemma StepBound(s: State, a: Act, s': State, bound: nat)
    requires Inv(s) && Moves(s, a, s') && bound >= MAX_MAPPED - 1
    requires MappedCount(s.buses) <= bound && ReadCount(s'.buses) <= bound
    ensures MappedCount(s'.buses) <= bound
  {
    hide MappedCount, ReadCount, Buses, EntersWith;
    match a
    case Begin(t, bus, need) =>
    case Claim(t, failsAt) =>
      var bus := s.ts[t].bus;
      if s.buses[bus].state == Unmapped && failsAt.Some? && failsAt.value > 0 {
        MappedUpdate(s.buses, bus, s'.buses[bus]);
      }
      if EntersWith(s, t, bus, s') {
        EnterBound(s, t, bus, s', bound);
      }
    case Finish(t) => MappedUpdate(s.buses, s.ts[t].bus, s'.buses[s.ts[t].bus]);
    case Clear(t) => MappedUpdate(s.buses, s.ts[t].bus, s'.buses[s.ts[t].bus]);
  }

  // ---- over whole runs ----

  ghost predicate CanMove(s: State, s': State) {
    exists a :: Moves(s, a, s')
  }

  ghost predicate IsRun(run: seq<State>) {
    |run| > 0 && Init(run[0]) && forall i :: 0 <= i < |run| - 1 ==> CanMove(run[i], run[i + 1])
  }

  lemma {:induction false} RunInv(run: seq<State>, i: nat)
    requires IsRun(run) && i < |run|
    ensures Inv(run[i])
  {
    if i == 0 {
      InitInv(run[0]);
    } else {
      RunInv(run, i - 1);
      assert CanMove(run[i - 1], run[i - 1 + 1]);
      var a :| Moves(run[i - 1], a, run[i]);
      StepInv(run[i - 1], a, run[i]);
    }
  }

  /** While anyone reads a bus it is mapped, whole, and nobody's to clear. */
  lemma SafeToRead(run: seq<State>, i: nat, t: nat)
    requires IsRun(run) && i < |run| && t < |run[i].ts| && run[i].ts[t].Reading?
    ensures run[i].ts[t].bus < |run[i].buses|
    ensures var b := run[i].buses[run[i].ts[t].bus]; b.state == Mapped && b.pages == BUS_PAGES && b.readers > 0
    ensures forall u :: 0 <= u < |run[i].ts| ==> !Owns(run[i].ts[u], run[i].ts[t].bus)
  {
    RunInv(run, i);
    CountsMe(run[i].ts, t);
    var s := run[i];
    assert InRange(s.ts[t], |s.buses|) && BusOk(s.buses[s.ts[t].bus]);
  }

  lemma {:induction false} CountsMe(ts: seq<Pc>, t: nat)
    requires t < |ts| && ts[t].Reading?
    ensures ReadersOf(ts, ts[t].bus) > 0
  {
    if t > 0 {
      CountsMe(ts[1..], t - 1);
    }
  }

  lemma {:induction false} NoneMapped(buses: seq<Bus>)
    requires forall b :: 0 <= b < |buses| ==> buses[b].state == Unmapped
    ensures MappedCount(buses) == 0
  {
    if buses != [] {
      NoneMapped(buses[1..]);
    }
  }

  /** Never more mapped than were ever read at once, or than one fewer than the limit. */
  lemma {:induction false} MappedBound(run: seq<State>, i: nat, bound: nat)
    requires IsRun(run) && i < |run| && bound >= MAX_MAPPED - 1
    requires forall k :: 0 <= k <= i ==> ReadCount(run[k].buses) <= bound
    ensures MappedCount(run[i].buses) <= bound
  {
    if i == 0 {
      NoneMapped(run[0].buses);
    } else {
      MappedBound(run, i - 1, bound);
      RunInv(run, i - 1);
      assert CanMove(run[i - 1], run[i - 1 + 1]);
      var a :| Moves(run[i - 1], a, run[i]);
      StepBound(run[i - 1], a, run[i], bound);
    }
  }

  /** With at most seven buses read at once, fewer than eight stay mapped. */
  lemma FewerThanMax(run: seq<State>, i: nat)
    requires IsRun(run) && i < |run|
    requires forall k :: 0 <= k <= i ==> ReadCount(run[k].buses) < MAX_MAPPED
    ensures MappedCount(run[i].buses) < MAX_MAPPED
  {
    MappedBound(run, i, MAX_MAPPED - 1);
  }
}
