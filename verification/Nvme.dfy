/** The NVMe completion ring (section 4.6 of the NVM Express Base Specification 1.4): the controller posts entries
    with a phase tag that flips each time it wraps, and the driver reads until the tag is the old one. The
    driver loads an entry's command id and its status separately, and the controller may post in between. */
module Nvme {
  import opened Arithmetic

  const ENTRIES: nat := 16

  /** `phase` is the low bit of the status word, `status` the rest of it. */
  datatype Entry = Entry(id: nat, status: nat, phase: bool)

  /** Where the driver is: outside `service`, at the top of its loop, or between the two loads. `early` notes
      whether the entry was there at the first load; the driver does not know. */
  datatype Pc = Idle | Reading | GotId(id: nat, early: bool)

  datatype Seen = Seen(id: nat, status: nat, early: bool)

  /** `posted` and `seen` are the entries posted and collected so far, and `acked` how many the doorbell has
      acknowledged; no step reads them. */
  datatype State = State(
    ring: seq<Entry>, tail: nat, devicePhase: bool, doorbell: nat, head: nat, phase: bool, pc: Pc,
    posted: seq<Entry>, seen: seq<Seen>, acked: nat)

  datatype Act = Post(id: nat, status: nat) | Drive

  function Advance(position: nat): nat {
    (position + 1) % ENTRIES
  }

  predicate Shaped(s: State) {
    |s.ring| == ENTRIES && s.tail < ENTRIES && s.head < ENTRIES && s.doorbell < ENTRIES
  }

  /** The controller posts only while the ring, as the doorbell last described it, is not full. */
  predicate Enabled(s: State, a: Act) {
    Shaped(s) && (a.Post? ==> Advance(s.tail) != s.doorbell)
  }

  function Next(s: State, a: Act): State
    requires Enabled(s, a)
  {
    match a
    case Post(id, status) =>
      var e := Entry(id, status, s.devicePhase);
      s.(ring := s.ring[s.tail := e], tail := Advance(s.tail), posted := s.posted + [e],
         devicePhase := if Advance(s.tail) == 0 then !s.devicePhase else s.devicePhase)
    case Drive =>
      match s.pc
      case Idle => s.(pc := Reading)
      case Reading => s.(pc := GotId(s.ring[s.head].id, |s.seen| < |s.posted|))
      case GotId(id, early) =>
        var e := s.ring[s.head];
        if e.phase != s.phase then s.(pc := Idle, doorbell := s.head, acked := |s.seen|)
        else
          s.(head := Advance(s.head), phase := if Advance(s.head) == 0 then !s.phase else s.phase,
             seen := s.seen + [Seen(id, e.status, early)], pc := Reading)
  }

  predicate Init(s: State) {
    && Shaped(s) && s.tail == s.head == s.doorbell == 0 && s.devicePhase && s.phase && s.pc == Idle
    && s.posted == [] && s.seen == [] && s.acked == 0
    && forall i :: 0 <= i < ENTRIES ==> s.ring[i] == Entry(0, 0, false)
  }

  /** The tag of the n-th entry: set on the first lap, clear on the second, and so on. */
  function PhaseOf(n: nat): bool {
    n / ENTRIES % 2 == 0
  }

  /** What an entry's place holds before it is posted: the entry a lap earlier, or zeroed memory. */
  ghost function Before(posted: seq<Entry>, n: nat): Entry
    requires n <= |posted|
  {
    if n < ENTRIES then Entry(0, 0, false) else posted[n - ENTRIES]
  }

  ghost predicate Positions(s: State) {
    var p, c := |s.posted|, |s.seen|;
    && Shaped(s) && s.acked <= c <= p < s.acked + ENTRIES
    && s.tail == p % ENTRIES && s.devicePhase == PhaseOf(p)
    && s.head == c % ENTRIES && s.phase == PhaseOf(c)
    && s.doorbell == s.acked % ENTRIES
  }

  /** The ring holds the last lap. */
  ghost predicate Lap(s: State)
    requires |s.ring| == ENTRIES
  {
    && (forall n :: 0 <= n < |s.posted| ==> s.posted[n].phase == PhaseOf(n))
    && (forall n :: 0 <= n < |s.posted| && |s.posted| <= n + ENTRIES ==> s.ring[n % ENTRIES] == s.posted[n])
    && (forall i :: |s.posted| <= i < ENTRIES ==> s.ring[i] == Entry(0, 0, false))
  }

  /** Each entry collected has its own status; and its own id if it was there at the first load, and otherwise
      the id its place held before. */
  ghost predicate Collected(s: State)
    requires |s.seen| <= |s.posted|
  {
    forall k :: 0 <= k < |s.seen| ==> RightFor(s.posted, k, s.seen[k])
  }

  ghost predicate RightFor(posted: seq<Entry>, k: nat, seen: Seen)
    requires k < |posted|
  {
    seen.status == posted[k].status && seen.id == if seen.early then posted[k].id else Before(posted, k).id
  }

  ghost predicate Between(s: State)
    requires |s.seen| <= |s.posted|
  {
    s.pc.GotId? ==>
      if s.pc.early then |s.seen| < |s.posted| && s.pc.id == s.posted[|s.seen|].id
      else s.pc.id == Before(s.posted, |s.seen|).id
  }

  ghost predicate Inv(s: State) {
    Positions(s) && Lap(s) && Collected(s) && Between(s)
  }

  lemma AdvanceIs(n: nat)
    ensures Advance(n % ENTRIES) == (n + 1) % ENTRIES
    ensures PhaseOf(n + 1) == if (n + 1) % ENTRIES == 0 then !PhaseOf(n) else PhaseOf(n)
  {
  }

  lemma RoomLeft(p: nat, acked: nat)
    requires acked <= p < acked + ENTRIES && (p + 1) % ENTRIES != acked % ENTRIES
    ensures p + 1 < acked + ENTRIES
  {
  }

  lemma PostInv(s: State, id: nat, status: nat, s': State)
    requires Inv(s) && Enabled(s, Post(id, status)) && s' == Next(s, Post(id, status))
    ensures Inv(s')
  {
    AdvanceIs(|s.posted|);
    RoomLeft(|s.posted|, s.acked);
    PostLap(s, Entry(id, status, s.devicePhase), s');
    hide PhaseOf, Advance, Lap, Before;
    PostCollected(s, Entry(id, status, s.devicePhase), s');
  }

  lemma PostLap(s: State, e: Entry, s': State)
    requires Positions(s) && Lap(s) && e.phase == PhaseOf(|s.posted|)
    requires s'.ring == s.ring[s.tail := e] && s'.posted == s.posted + [e]
    ensures Lap(s')
  {
    hide PhaseOf, Advance;
    var p := |s.posted|;
    forall n | 0 <= n < |s'.posted| && |s'.posted| <= n + ENTRIES ensures s'.ring[n % ENTRIES] == s'.posted[n] {
      if n < p {
        ApartMod(n, p, ENTRIES);
      }
    }
  }

  lemma PostCollected(s: State, e: Entry, s': State)
    requires |s.seen| <= |s.posted| && Collected(s) && Between(s)
    requires s'.posted == s.posted + [e] && s'.seen == s.seen && s'.pc == s.pc
    ensures Collected(s') && Between(s')
  {
    forall k | 0 <= k < |s'.seen| ensures RightFor(s'.posted, k, s'.seen[k]) {
      assert RightFor(s.posted, k, s.seen[k]);
    }
  }

  /** The tag at the reader's place is the reader's own exactly when there is an entry to collect. */
  lemma TagTells(s: State)
    requires Inv(s)
    ensures s.ring[s.head].phase == s.phase <==> |s.seen| < |s.posted|
    ensures |s.seen| < |s.posted| ==> s.ring[s.head] == s.posted[|s.seen|]
    ensures |s.seen| == |s.posted| ==> s.ring[s.head] == Before(s.posted, |s.seen|)
  {
    var c, p := |s.seen|, |s.posted|;
    if c < p {
      assert p <= c + ENTRIES;
    } else if c >= ENTRIES {
      assert (c - ENTRIES) % ENTRIES == c % ENTRIES;
      assert PhaseOf(c - ENTRIES) == !PhaseOf(c);
    } else {
      assert PhaseOf(c);
    }
  }

  lemma DriveInv(s: State, s': State)
    requires Inv(s) && Enabled(s, Drive) && s' == Next(s, Drive)
    ensures Inv(s')
  {
    hide Lap, PhaseOf, Advance, Before;
    TagTells(s);
    AdvanceIs(|s.seen|);
    LapSame(s, s');
    match s.pc
    case Idle =>
    case Reading =>
    case GotId(id, early) =>
      if s.ring[s.head].phase == s.phase {
        CollectMore(s, Seen(id, s.ring[s.head].status, early), s');
      }
  }

  lemma LapSame(s: State, s': State)
    requires |s.ring| == ENTRIES && Lap(s) && s'.ring == s.ring && s'.posted == s.posted
    ensures Lap(s')
  {
  }

  lemma CollectMore(s: State, one: Seen, s': State)
    requires |s.seen| < |s.posted| && Collected(s) && RightFor(s.posted, |s.seen|, one)
    requires s'.seen == s.seen + [one] && s'.posted == s.posted
    ensures Collected(s')
  {
    forall k | 0 <= k < |s'.seen| ensures RightFor(s'.posted, k, s'.seen[k]) {
      assert k < |s.seen| ==> RightFor(s.posted, k, s.seen[k]);
    }
  }

  ghost predicate CanMove(s: State, s': State) {
    exists a :: Enabled(s, a) && s' == Next(s, a)
  }

  ghost predicate IsRun(run: seq<State>) {
    |run| > 0 && Init(run[0]) && forall i :: 0 <= i < |run| - 1 ==> CanMove(run[i], run[i + 1])
  }

  lemma {:induction false} RunInv(run: seq<State>, i: nat)
    requires IsRun(run) && i < |run|
    ensures Inv(run[i])
  {
    if i > 0 {
      RunInv(run, i - 1);
      assert CanMove(run[i - 1], run[i - 1 + 1]);
      var a :| Enabled(run[i - 1], a) && run[i] == Next(run[i - 1], a);
      if a.Post? {
        PostInv(run[i - 1], a.id, a.status, run[i]);
      } else {
        DriveInv(run[i - 1], run[i]);
      }
    }
  }

  /** The driver loads an id in one state and the status that goes with it, the `k`-th it collects, in a later one,
      with only posts in between. */
  ghost predicate Loads(run: seq<State>, a: nat, b: nat, k: nat) {
    && a < b < |run| - 1 && run[a].pc == Reading && |run[b].seen| == k && |run[b + 1].seen| == k + 1
    && forall j :: a < j <= b ==> run[j].pc.GotId?
  }

  lemma {:induction false} IdInHand(run: seq<State>, a: nat, j: nat)
    requires IsRun(run) && a < j < |run| && run[a].pc == Reading && forall x :: a < x <= j ==> run[x].pc.GotId?
    ensures run[j].seen == run[a].seen && run[j].pc.early == (|run[a].seen| < |run[a].posted|)
    decreases j
  {
    if a + 1 < j {
      IdInHand(run, a, j - 1);
    }
    assert CanMove(run[j - 1], run[j - 1 + 1]);
  }

  lemma {:induction false} SeenKept(run: seq<State>, i: nat, j: nat)
    requires IsRun(run) && i <= j < |run|
    ensures run[i].seen <= run[j].seen
    decreases j
  {
    if i < j {
      SeenKept(run, i, j - 1);
      assert CanMove(run[j - 1], run[j - 1 + 1]);
    }
  }

  lemma {:induction false} LoadBefore(run: seq<State>, b: nat) returns (a: nat)
    requires IsRun(run) && b < |run| && run[b].pc.GotId?
    ensures a < b && run[a].pc == Reading && forall j :: a < j <= b ==> run[j].pc.GotId?
  {
    assert CanMove(run[b - 1], run[b - 1 + 1]);
    if run[b - 1].pc.GotId? {
      a := LoadBefore(run, b - 1);
    } else {
      a := b - 1;
    }
  }

  lemma {:induction false} SomeLoads(run: seq<State>, i: nat, k: nat) returns (a: nat, b: nat)
    requires IsRun(run) && i < |run| && k < |run[i].seen|
    ensures Loads(run, a, b, k) && b < i
  {
    assert CanMove(run[i - 1], run[i - 1 + 1]);
    if k < |run[i - 1].seen| {
      a, b := SomeLoads(run, i - 1, k);
    } else {
      b := i - 1;
      a := LoadBefore(run, b);
    }
  }

  /** The note agrees with the run. */
  lemma EarlyIs(run: seq<State>, i: nat, k: nat, a: nat, b: nat)
    requires IsRun(run) && i < |run| && k < |run[i].seen| && Loads(run, a, b, k) && b < i
    ensures run[i].seen[k].early <==> k < |run[a].posted|
  {
    IdInHand(run, a, b);
    SeenKept(run, b + 1, i);
    assert CanMove(run[b], run[b + 1]);
  }

  /** Every posted entry is collected once, in order, with its own status, and none is collected before it is
      posted, over any number of wraps. Its command id is its own exactly when it had been posted by the first of
      the two loads, or the entry a lap before it had the same one. */
  lemma CollectedInOrder(run: seq<State>, i: nat, k: nat)
    requires IsRun(run) && i < |run| && k < |run[i].seen|
    ensures |run[i].seen| <= |run[i].posted|
    ensures run[i].seen[k].status == run[i].posted[k].status
    ensures exists a: nat, b: nat :: Loads(run, a, b, k) && b < i
    ensures forall a: nat, b: nat :: Loads(run, a, b, k) && b < i ==>
      (run[i].seen[k].id == run[i].posted[k].id <==>
         k < |run[a].posted| || Before(run[i].posted, k).id == run[i].posted[k].id)
    ensures run[i].seen[k].id == run[i].posted[k].id <==>
      run[i].seen[k].early || Before(run[i].posted, k).id == run[i].posted[k].id
  {
    RunInv(run, i);
    assert RightFor(run[i].posted, k, run[i].seen[k]);
    var a0, b0 := SomeLoads(run, i, k);
    forall a: nat, b: nat | Loads(run, a, b, k) && b < i
      ensures run[i].seen[k].early <==> k < |run[a].posted|
    {
      EarlyIs(run, i, k, a, b);
    }
  }

  /** The driver stops only when it has collected everything posted so far. */
  lemma StopsWhenEmpty(run: seq<State>, i: nat)
    requires IsRun(run) && i < |run| && run[i].pc.GotId? && Enabled(run[i], Drive)
    ensures Next(run[i], Drive).pc == Idle <==> |run[i].seen| == |run[i].posted|
  {
    RunInv(run, i);
    TagTells(run[i]);
  }

  /** A post between the two loads: the first command, 1, is taken for command 0. */
  lemma PostBetweenLoads() returns (run: seq<State>)
    ensures IsRun(run) && |run| == 5
    ensures run[4].posted == [Entry(1, 0, true)] && run[4].seen == [Seen(0, 0, false)]
  {
    var blank := seq(ENTRIES, _ => Entry(0, 0, false));
    var s0 := State(blank, 0, true, 0, 0, true, Idle, [], [], 0);
    var s1 := Next(s0, Drive);
    var s2 := Next(s1, Drive);
    var s3 := Next(s2, Post(1, 0));
    var s4 := Next(s3, Drive);
    run := [s0, s1, s2, s3, s4];
    assert CanMove(run[0], run[1]) && CanMove(run[1], run[2]) && CanMove(run[2], run[3]) && CanMove(run[3], run[4]);
  }
}
