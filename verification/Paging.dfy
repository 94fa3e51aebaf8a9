/** Four-level page tables and the surgery done on them: splitting huge pages, dropping emptied tables, and
    cloning the kernel's half of a space. Effective rights follow sections 4.5 and 4.6 of volume 3A of the Intel
    SDM: write and user access are the AND of the levels, no-execute the OR. */
module Paging {

  const ENTRIES: nat := 512
  const KIB4: nat := 4096
  const MIB2: nat := 0x20_0000
  const GIB1: nat := 0x4000_0000
  /** The level 4 slot of the user region at 0x2000_0000_0000. */
  const USER_SLOT: nat := 64

  datatype Option<+T> = None | Some(value: T)

  /** `rest` is every other flag: caching, global, accessed and dirty. The page-attribute bit is clear. */
  datatype Entry = Entry(
    addr: nat, present: bool, writable: bool, user: bool, noExecute: bool, huge: bool, rest: nat)

  const UNUSED := Entry(0, false, false, false, false, false, 0)

  type Table = t: seq<Entry> | |t| == ENTRIES witness seq(ENTRIES, _ => UNUSED)

  /** The page tables in physical memory, by the address of their frame. */
  type Memory = map<nat, Table>

  datatype Va = Va(p4: nat, p3: nat, p2: nat, p1: nat, offset: nat)

  type Address = a: Va | a.p4 < ENTRIES && a.p3 < ENTRIES && a.p2 < ENTRIES && a.p1 < ENTRIES && a.offset < KIB4
    witness Va(0, 0, 0, 0, 0)

  function Index(va: Address, level: nat): (i: nat)
    requires 1 <= level <= 4
    ensures i < ENTRIES
  {
    if level == 4 then va.p4 else if level == 3 then va.p3 else if level == 2 then va.p2 else va.p1
  }

  /** The bytes of an address below a leaf at some level. */
  function Within(va: Address, level: nat): nat
    requires 1 <= level <= 3
  {
    if level == 1 then va.offset
    else if level == 2 then va.p1 * KIB4 + va.offset
    else va.p2 * MIB2 + va.p1 * KIB4 + va.offset
  }

  function PageSize(level: nat): nat
    requires 1 <= level <= 3
  {
    if level == 1 then KIB4 else if level == 2 then MIB2 else GIB1
  }

  datatype Rights = Rights(writable: bool, user: bool, noExecute: bool) {
    function Through(e: Entry): Rights {
      Rights(writable && e.writable, user && e.user, noExecute || e.noExecute)
    }
  }

  const ALL := Rights(true, true, false)

  datatype Mapping = Mapping(physical: nat, rights: Rights, rest: nat)

  predicate IsLeaf(e: Entry, level: nat) {
    level == 1 || (level <= 3 && e.huge)
  }

  /** The hardware's walk from a table at some level. */
  function Walk(mem: Memory, table: nat, level: nat, va: Address, rights: Rights): Option<(Mapping, nat)>
    requires 1 <= level <= 4
    decreases level
  {
    if table !in mem then None
    else
      var e := mem[table][Index(va, level)];
      if !e.present then None
      else if IsLeaf(e, level) then
        Some((Mapping(e.addr + Within(va, level), rights.Through(e), e.rest), PageSize(level)))
      else if e.huge then None
      else Walk(mem, e.addr, level - 1, va, rights.Through(e))
  }

  /** Where an address leads, with which rights: what a program can observe. */
  function Meaning(mem: Memory, table: nat, level: nat, va: Address, rights: Rights): Option<Mapping>
    requires 1 <= level <= 4
  {
    var w := Walk(mem, table, level, va, rights);
    if w.None? then None else Some(w.value.0)
  }

  // ---- the shape of the tables ----

  predicate PointsDown(e: Entry, level: nat) {
    e.present && !IsLeaf(e, level)
  }

  /** Every table has one level, and a present entry that is not a leaf points at a table one level down. */
  ghost predicate Typed(mem: Memory, levels: map<nat, nat>) {
    && levels.Keys == mem.Keys
    && (forall t :: t in mem ==> 1 <= levels[t] <= 4)
    && (forall t, i :: t in mem && 0 <= i < ENTRIES && PointsDown(mem[t][i], levels[t]) ==>
          !mem[t][i].huge && mem[t][i].addr in mem && levels[mem[t][i].addr] == levels[t] - 1)
  }

  /** Changing one entry of one table without changing what lies behind it changes no walk, from any table. */
  lemma {:induction false} OneEntry(
      mem: Memory, mem': Memory, levels: map<nat, nat>, f: nat, i: nat, t: nat, va: Address, rights: Rights)
    requires Typed(mem, levels) && f in mem && i < ENTRIES && t in mem
    requires forall x :: x in mem ==> x in mem' && (x != f ==> mem'[x] == mem[x])
    requires forall j :: 0 <= j < ENTRIES && j != i ==> mem'[f][j] == mem[f][j]
    requires forall v: Address, r :: Index(v, levels[f]) == i ==>
      Meaning(mem', f, levels[f], v, r) == Meaning(mem, f, levels[f], v, r)
    ensures Meaning(mem', t, levels[t], va, rights) == Meaning(mem, t, levels[t], va, rights)
    decreases levels[t]
  {
    var n := Index(va, levels[t]);
    if t == f && n == i {
    } else {
      var e := mem[t][n];
      if PointsDown(e, levels[t]) {
        OneEntry(mem, mem', levels, f, i, e.addr, va, rights.Through(e));
      }
    }
  }

  /** Level 3 tables are shared between spaces; below them, every table has one entry pointing at it. */
  ghost predicate SoleParent(mem: Memory, levels: map<nat, nat>)
    requires Typed(mem, levels)
  {
    forall t, i: nat, u, j: nat ::
      (Points(mem, levels, t, i) && Points(mem, levels, u, j) && mem[t][i].addr == mem[u][j].addr && levels[t] <= 3) ==>
        t == u && i == j
  }

  ghost predicate Points(mem: Memory, levels: map<nat, nat>, t: nat, i: nat)
    requires levels.Keys == mem.Keys
  {
    t in mem && 0 <= i < ENTRIES && PointsDown(mem[t][i], levels[t])
  }

  /** Every address means the same from every table that was there before. */
  ghost predicate SameMeaning(mem: Memory, mem': Memory, levels: map<nat, nat>)
    requires Typed(mem, levels)
  {
    forall t, va: Address, rights :: t in mem ==>
      Meaning(mem', t, levels[t], va, rights) == Meaning(mem, t, levels[t], va, rights)
  }

  /** No level 4 table has changed, so no space has gained or lost a region, and every table keeps its level. */
  ghost predicate SpacesKept(mem: Memory, mem': Memory, levels: map<nat, nat>, levels': map<nat, nat>)
    requires Typed(mem, levels)
  {
    forall t :: t in mem ==>
      t in mem' && t in levels' && levels'[t] == levels[t] && (levels[t] == 4 ==> mem'[t] == mem[t])
  }

  /** The table a huge entry becomes: the same memory in 512 pieces, each with the entry's own flags. */
  ghost predicate Describes(table: Table, e: Entry, step: nat, huge: bool) {
    forall i :: 0 <= i < ENTRIES ==> table[i] == e.(addr := e.addr + i * step, huge := huge)
  }

  /** Permissive above, so that the pieces carry the rights. */
  function Above(e: Entry, table: nat): Entry {
    Entry(table, true, true, e.user, false, false, 0)
  }

  /** A huge entry and the table that replaces it mean the same. */
  lemma SplitMeaning(mem: Memory, mem': Memory, f: nat, i: nat, level: nat, table: nat, va: Address, rights: Rights)
    requires 2 <= level <= 3 && f in mem && f in mem' && table in mem' && i < ENTRIES && Index(va, level) == i
    requires mem[f][i].present && mem[f][i].huge && mem'[f][i] == Above(mem[f][i], table)
    requires Describes(mem'[table], mem[f][i], PageSize(level - 1), level == 3)
    ensures Meaning(mem', f, level, va, rights) == Meaning(mem, f, level, va, rights)
    ensures Walk(mem', f, level, va, rights).Some? && Walk(mem', f, level, va, rights).value.1 == PageSize(level - 1)
  {
    var e := mem[f][i];
    var child := mem'[table][Index(va, level - 1)];
    assert child == e.(addr := e.addr + Index(va, level - 1) * PageSize(level - 1), huge := level == 3);
    assert Walk(mem', table, level - 1, va, rights.Through(mem'[f][i])).Some?;
  }

  lemma NothingChanged(mem: Memory, levels: map<nat, nat>)
    requires Typed(mem, levels)
    ensures SameMeaning(mem, mem, levels) && SpacesKept(mem, mem, levels, levels)
  {
  }

  lemma SplitKeeps(mem: Memory, mem': Memory, levels: map<nat, nat>, f: nat, i: nat, table: nat)
    requires Typed(mem, levels) && SoleParent(mem, levels) && f in mem && i < ENTRIES
    requires 2 <= levels[f] <= 3 && mem[f][i].present && mem[f][i].huge
    requires Replaced(mem, mem', f, i, levels[f], table)
    ensures var levels' := levels[table := levels[f] - 1];
      && Typed(mem', levels') && SoleParent(mem', levels')
      && SameMeaning(mem, mem', levels) && SpacesKept(mem, mem', levels, levels')
  {
    var levels' := levels[table := levels[f] - 1];
    SplitTyped(mem, mem', levels, f, i, table);
    SplitSole(mem, mem', levels, f, i, table);
    SplitSame(mem, mem', levels, f, i, table);
    hide Typed, SoleParent, SameMeaning, Describes;
  }

  lemma SplitTyped(mem: Memory, mem': Memory, levels: map<nat, nat>, f: nat, i: nat, table: nat)
    requires Typed(mem, levels) && f in mem && i < ENTRIES && 2 <= levels[f] <= 3
    requires mem[f][i].present && mem[f][i].huge && Replaced(mem, mem', f, i, levels[f], table)
    ensures Typed(mem', levels[table := levels[f] - 1])
  {
    var levels' := levels[table := levels[f] - 1];
    assert forall j :: 0 <= j < ENTRIES ==> !PointsDown(mem'[table][j], levels[f] - 1);
    forall t, j | t in mem' && 0 <= j < ENTRIES && PointsDown(mem'[t][j], levels'[t])
      ensures !mem'[t][j].huge && mem'[t][j].addr in mem' && levels'[mem'[t][j].addr] == levels'[t] - 1
    {
      assert t != table;
      if t == f && j == i {
      } else {
        assert mem'[t][j] == mem[t][j];
      }
    }
  }

  /** The pieces are leaves, so the new table points nowhere and only the old entry points at it. */
  lemma SplitSole(mem: Memory, mem': Memory, levels: map<nat, nat>, f: nat, i: nat, table: nat)
    requires Typed(mem, levels) && SoleParent(mem, levels) && f in mem && i < ENTRIES && 2 <= levels[f] <= 3
    requires mem[f][i].present && mem[f][i].huge && Replaced(mem, mem', f, i, levels[f], table)
    requires Typed(mem', levels[table := levels[f] - 1])
    ensures SoleParent(mem', levels[table := levels[f] - 1])
  {
    var levels' := levels[table := levels[f] - 1];
    assert forall j :: 0 <= j < ENTRIES ==> !PointsDown(mem'[table][j], levels[f] - 1);
    forall t, j: nat | Points(mem', levels', t, j)
      ensures (t == f && j == i) || (Points(mem, levels, t, j) && mem'[t][j] == mem[t][j] && mem[t][j].addr != table)
    {
      assert t != table;
    }
  }

  lemma SplitSame(mem: Memory, mem': Memory, levels: map<nat, nat>, f: nat, i: nat, table: nat)
    requires Typed(mem, levels) && f in mem && i < ENTRIES && 2 <= levels[f] <= 3
    requires mem[f][i].present && mem[f][i].huge && Replaced(mem, mem', f, i, levels[f], table)
    ensures SameMeaning(mem, mem', levels)
  {
    hide Walk, Meaning;
    forall v: Address, r | Index(v, levels[f]) == i
      ensures Meaning(mem', f, levels[f], v, r) == Meaning(mem, f, levels[f], v, r)
    {
      SplitMeaning(mem, mem', f, i, levels[f], table, v, r);
    }
    forall t, va: Address, rights | t in mem
      ensures Meaning(mem', t, levels[t], va, rights) == Meaning(mem, t, levels[t], va, rights)
    {
      OneEntry(mem, mem', levels, f, i, t, va, rights);
    }
  }

  datatype SplitResult = Split | NotMapped | OutOfFrames

  class PageTables {
    var mem: Memory
    /** The frames the allocator still has, next first. */
    var pool: seq<nat>
    ghost var levels: map<nat, nat>

    ghost predicate Valid()
      reads this
    {
      && Typed(mem, levels) && SoleParent(mem, levels)
      && (forall i :: 0 <= i < |pool| ==> pool[i] !in mem)
      && (forall i, j :: 0 <= i < j < |pool| ==> pool[i] != pool[j])
    }

    ghost predicate IsSpace(root: nat)
      reads this
    {
      root in mem && root in levels && levels[root] == 4
    }

    /** How large the page is that maps an address: nothing exactly when the address has no meaning, and otherwise so
        much memory around it is mapped in one piece, with the same rights. */
    method MappingSize(root: nat, va: Address) returns (size: Option<nat>)
      ensures size == SizeOf(mem, root, va)
      ensures size.None? <==> Meaning(mem, root, 4, va, ALL).None?
      ensures size.Some? ==> InOnePiece(mem, root, va, size.value)
    {
      hide InOnePiece, Walk;
      OnePiece(mem, root, va);
      var w := Walk(mem, root, 4, va, ALL);
      size := if w.None? then None else Some(w.value.1);
    }

    /** A zeroed table, filled entry by entry. */
    method FillTable(child: Entry, base: nat, step: nat) returns (table: Table)
      ensures forall j :: 0 <= j < ENTRIES ==> table[j] == child.(addr := base + j * step)
    {
      table := seq(ENTRIES, _ => UNUSED);
      for index := 0 to ENTRIES
        invariant forall j :: 0 <= j < index ==> table[j] == child.(addr := base + j * step)
      {
        table := table[index := child.(addr := base + index * step)];
      }
    }

    /** A huge entry replaced by a table of 512 smaller ones. */
    method PopulateSplit(f: nat, i: nat, step: nat, childrenAreHuge: bool) returns (ok: bool)
      requires Valid() && f in mem && i < ENTRIES && mem[f][i].present && mem[f][i].huge
      requires (levels[f] == 3 && step == MIB2 && childrenAreHuge) || (levels[f] == 2 && step == KIB4 && !childrenAreHuge)
      modifies this
      ensures Valid() && SameMeaning(old(mem), mem, old(levels)) && SpacesKept(old(mem), mem, old(levels), levels)
      ensures ok <==> old(pool) != []
      ensures !ok ==> mem == old(mem)
      ensures ok ==> Replaced(old(mem), mem, f, i, old(levels)[f], old(pool)[0])
      ensures pool == if ok then old(pool)[1..] else old(pool)
    {
      hide Typed, SoleParent, SameMeaning;
      if pool == [] {
        NothingChanged(mem, levels);
        return false;
      }
      var e := mem[f][i];
      var frame := pool[0];
      pool := pool[1..];
      var child := if childrenAreHuge then e else e.(huge := false);
      var table := FillTable(child, e.addr, step);
      mem := mem[frame := table];
      mem := mem[f := mem[f][i := Above(e, frame)]];
      SplitKeeps(old(mem), mem, levels, f, i, frame);
      levels := levels[frame := levels[f] - 1];
      ok := true;
    }
  
    /** One pass: the huge entry on the way to an address is replaced by the next size down. */
    method SplitOnce(root: nat, va: Address) returns (r: SplitResult)
      requires Valid() && IsSpace(root)
      modifies this
      ensures Valid() && SameMeaning(old(mem), mem, old(levels)) && SpacesKept(old(mem), mem, old(levels), levels)
      ensures r == NotMapped ==> SizeOf(old(mem), root, va).None?
      ensures r == OutOfFrames <==> old(pool) == [] && FramesFor(SizeOf(old(mem), root, va)) > 0
      ensures pool == if r == Split && FramesFor(SizeOf(old(mem), root, va)) > 0 then old(pool)[1..] else old(pool)
      ensures r == Split && SizeOf(old(mem), root, va) == Some(GIB1) ==> SizeOf(mem, root, va) == Some(MIB2)
      ensures r == Split && SizeOf(old(mem), root, va) == Some(MIB2) ==> SizeOf(mem, root, va) == Some(KIB4)
    {
      hide SoleParent, SameMeaning;
      var e4 := mem[root][va.p4];
      NothingChanged(mem, levels);
      if !e4.present || e4.huge {
        return NotMapped;
      }
      var e3 := mem[e4.addr][va.p3];
      if !e3.present {
        return NotMapped;
      }
      if e3.huge {
        SizeHere(mem, levels, root, va, e4.addr);
        var ok := PopulateSplit(e4.addr, va.p3, MIB2, true);
        if ok {
          SizeAfter(old(mem), mem, old(levels), root, va, e4.addr, va.p3, old(pool)[0]);
        }
        return if ok then Split else OutOfFrames;
      }
      var e2 := mem[e3.addr][va.p2];
      if !e2.present {
        return NotMapped;
      }
      if !e2.huge {
        SmallHere(mem, root, va);
        return Split;
      }
      SizeHere(mem, levels, root, va, e3.addr);
      var ok := PopulateSplit(e3.addr, va.p2, KIB4, false);
      if ok {
        SizeAfter(old(mem), mem, old(levels), root, va, e3.addr, va.p2, old(pool)[0]);
      }
      return if ok then Split else OutOfFrames;
    }

    /** Until the address is described by a 4 KiB entry. Nothing in any space changes its meaning, whatever the
        outcome. */
    method SplitHugePage(root: nat, va: Address) returns (r: SplitResult)
      requires Valid() && IsSpace(root)
      modifies this
      ensures Valid() && SameMeaning(old(mem), mem, old(levels)) && SpacesKept(old(mem), mem, old(levels), levels)
      ensures r == Split ==> SizeOf(mem, root, va) == Some(KIB4)
      ensures r == NotMapped <==> SizeOf(old(mem), root, va).None?
      ensures r == OutOfFrames <==> |old(pool)| < FramesFor(SizeOf(old(mem), root, va))
      ensures pool == if r == OutOfFrames then [] else old(pool)[FramesFor(SizeOf(old(mem), root, va))..]
    {
      hide Typed, SoleParent, SameMeaning, SizeOf, InOnePiece, Meaning;
      ghost var taken := 0;
      NothingChanged(mem, levels);
      var size := MappingSize(root, va);
      while size != Some(KIB4)
        invariant Valid() && IsSpace(root)
        invariant SameMeaning(old(mem), mem, old(levels)) && SpacesKept(old(mem), mem, old(levels), levels)
        invariant size == SizeOf(mem, root, va) && (size.None? <==> SizeOf(old(mem), root, va).None?)
        invariant 0 <= taken <= |old(pool)| && pool == old(pool)[taken..]
        invariant taken + FramesFor(size) == FramesFor(SizeOf(old(mem), root, va))
        decreases if size.None? then 0 else size.value
      {
        if size.None? {
          return NotMapped;
        }
        ghost var mem1, levels1 := mem, levels;
        SizeCases(mem, root, va);
        var outcome := SplitOnce(root, va);
        Transitive(old(mem), mem1, mem, old(levels), levels1, levels);
        if outcome != Split {
          return outcome;
        }
        taken := taken + 1;
        size := MappingSize(root, va);
      }
      return Split;
    }

    /** Tables the last unmap left empty are unlinked from the bottom up: the level 1 table, and then the level 2
        table if that link was all it had. Nothing else is: level 4 is never touched. */
    method ReclaimEmptyTables(root: nat, va: Address) returns (detached: seq<Option<nat>>)
      requires Valid() && IsSpace(root)
      modifies this`mem
      ensures Valid() && SameMeaning(old(mem), mem, levels) && SpacesKept(old(mem), mem, levels, levels)
      ensures |detached| == 2 && (detached[0], detached[1]) == ToDetach(old(mem), root, va)
      ensures forall k, t :: 0 <= k < 2 && detached[k] == Some(t) ==>
        t in mem && IsEmpty(mem[t]) && Unreferenced(mem, levels, t)
    {
      hide SoleParent, SameMeaning, Path, IsEmpty, Unreferenced, SpacesKept;
      detached := [None, None];
      NothingChanged(mem, levels);
      var path := WalkDown(root, va);
      if path.None? {
        return;
      }
      var children := path.value;
      assert LinkAt(mem, levels, root, va, children, 0) && LinkAt(mem, levels, root, va, children, 1)
        && LinkAt(mem, levels, root, va, children, 2);
      if !IsEmpty(mem[children[2]]) {
        return;
      }
      Detach(children[1], va.p2, children[2]);
      detached := detached[1 := Some(children[2])];
      if !IsEmpty(mem[children[1]]) {
        return;
      }
      ghost var between := mem;
      Detach(children[0], va.p3, children[1]);
      Transitive(old(mem), between, mem, levels, levels, levels);
      detached := detached[0 := Some(children[1])];
    }

    /** The tables on the way down to an address, if no entry is missing or huge. */
    method WalkDown(root: nat, va: Address) returns (path: Option<seq<nat>>)
      requires Valid() && IsSpace(root)
      ensures path == Path(mem, root, 4, va)
      ensures path.Some? ==> |path.value| == 3 && ChainTo(mem, levels, root, va, path.value)
    {
      hide SoleParent;
      var children: seq<nat> := [];
      var current := root;
      PrependNone(Path(mem, root, 4, va));
      for level := 0 to 3
        invariant |children| == level && current in mem && levels[current] == 4 - level
        invariant current == if level == 0 then root else children[level - 1]
        invariant ChainTo(mem, levels, root, va, children)
        invariant Path(mem, root, 4, va) == Prepend(children, Path(mem, current, 4 - level, va))
      {
        var e := mem[current][Index(va, 4 - level)];
        if !e.present || e.huge {
          return None;
        }
        PrependMore(children, e.addr, Path(mem, e.addr, 3 - level, va));
        ChainMore(mem, levels, root, va, children, current, e.addr);
        children := children + [e.addr];
        current := e.addr;
      }
      PrependEmpty(children);
      return Some(children);
    }

    /** Clear the entry that points at an empty table. */
    method Detach(parent: nat, i: nat, child: nat)
      requires Valid() && parent in mem && i < ENTRIES && levels[parent] <= 3 && Points(mem, levels, parent, i)
      requires mem[parent][i].addr == child && IsEmpty(mem[child])
      modifies this`mem
      ensures Valid() && mem == old(mem)[parent := old(mem)[parent][i := UNUSED]]
      ensures SameMeaning(old(mem), mem, levels) && SpacesKept(old(mem), mem, levels, levels)
      ensures forall t :: t == child || (t in old(mem) && Unreferenced(old(mem), levels, t)) ==> Unreferenced(mem, levels, t)
    {
      mem := mem[parent := mem[parent][i := UNUSED]];
      DropKeeps(old(mem), mem, levels, parent, i, child);
    }
  
    /** A space with the kernel's mappings and an empty user region of its own. */
    method NewUser(kernel: nat) returns (space: Option<nat>)
      requires Valid() && IsSpace(kernel)
      modifies this
      ensures Valid() && SameMeaning(old(mem), mem, old(levels)) && SpacesKept(old(mem), mem, old(levels), levels)
      ensures space.None? <==> old(pool) == []
      ensures space.Some? ==>
        && space.value !in old(mem) && IsSpace(space.value) && ShareKernel(mem, space.value, kernel)
        && forall va: Address, r :: va.p4 == USER_SLOT ==> Meaning(mem, space.value, 4, va, r).None?
    {
      hide Typed, SoleParent, SameMeaning;
      if pool == [] {
        NothingChanged(mem, levels);
        return None;
      }
      var frame := pool[0];
      pool := pool[1..];
      var table: Table := seq(ENTRIES, _ => UNUSED);
      for index := 0 to ENTRIES
        invariant forall j :: 0 <= j < index && j != USER_SLOT ==> table[j] == mem[kernel][j]
        invariant table[USER_SLOT] == UNUSED
      {
        if index != USER_SLOT {
          table := table[index := mem[kernel][index]];
        }
      }
      CloneKeeps(mem, levels, kernel, frame, table);
      mem := mem[frame := table];
      levels := levels[frame := 4];
      return Some(frame);
    }
  }

  lemma CloneKeeps(mem: Memory, levels: map<nat, nat>, kernel: nat, frame: nat, table: Table)
    requires Typed(mem, levels) && SoleParent(mem, levels) && kernel in mem && levels[kernel] == 4 && frame !in mem
    requires forall j :: 0 <= j < ENTRIES && j != USER_SLOT ==> table[j] == mem[kernel][j]
    requires table[USER_SLOT] == UNUSED
    ensures var mem', levels' := mem[frame := table], levels[frame := 4];
      && Typed(mem', levels') && SoleParent(mem', levels')
      && SameMeaning(mem, mem', levels) && SpacesKept(mem, mem', levels, levels')
  {
    var mem', levels' := mem[frame := table], levels[frame := 4];
    assert forall t, j: nat :: Points(mem', levels', t, j) ==>
      if t == frame then Points(mem, levels, kernel, j) && mem'[t][j] == mem[kernel][j]
      else Points(mem, levels, t, j) && mem'[t][j] == mem[t][j];
    forall t, va: Address, rights | t in mem
      ensures Meaning(mem', t, levels[t], va, rights) == Meaning(mem, t, levels[t], va, rights)
    {
      NewTable(mem, mem', levels, frame, t, va, rights);
    }
  }

  /** A table nobody points at is on nobody's way. */
  lemma {:induction false} NewTable(mem: Memory, mem': Memory, levels: map<nat, nat>, frame: nat, t: nat,
                                    va: Address, rights: Rights)
    requires Typed(mem, levels) && frame !in mem && frame in mem' && t in mem
    requires forall x :: x in mem ==> x in mem' && mem'[x] == mem[x]
    ensures Meaning(mem', t, levels[t], va, rights) == Meaning(mem, t, levels[t], va, rights)
    decreases levels[t]
  {
    var e := mem[t][Index(va, levels[t])];
    if PointsDown(e, levels[t]) {
      NewTable(mem, mem', levels, frame, e.addr, va, rights.Through(e));
    }
  }

  predicate IsEmpty(table: Table) {
    forall i :: 0 <= i < ENTRIES ==> table[i] == UNUSED
  }

  ghost predicate Replaced(mem: Memory, mem': Memory, f: nat, i: nat, level: nat, table: nat)
    requires 2 <= level <= 3 && f in mem && i < ENTRIES
  {
    && f in mem' && table in mem' && table !in mem
    && mem'[f] == mem[f][i := Above(mem[f][i], table)]
    && Describes(mem'[table], mem[f][i], PageSize(level - 1), level == 3)
    && mem'.Keys == mem.Keys + {table}
    && forall t :: t in mem && t != f ==> mem'[t] == mem[t]
  }

  function SizeOf(mem: Memory, root: nat, va: Address): Option<nat> {
    var w := Walk(mem, root, 4, va, ALL);
    if w.None? then None else Some(w.value.1)
  }

  /** Two addresses on the same page of a size. */
  predicate SamePage(va: Address, other: Address, size: nat) {
    && va.p4 == other.p4 && va.p3 == other.p3
    && (size != GIB1 ==> va.p2 == other.p2) && (size == KIB4 ==> va.p1 == other.p1)
  }

  function InPage(va: Address, size: nat): nat {
    Within(va, if size == KIB4 then 1 else if size == MIB2 then 2 else 3)
  }

  /** Every address of the page is mapped, in the order of the addresses and with the same rights. */
  ghost predicate InOnePiece(mem: Memory, root: nat, va: Address, size: nat) {
    var here := Meaning(mem, root, 4, va, ALL);
    here.Some? && InPage(va, size) <= here.value.physical && forall other: Address :: SamePage(va, other, size) ==>
      Meaning(mem, root, 4, other, ALL) ==
        Some(here.value.(physical := here.value.physical - InPage(va, size) + InPage(other, size)))
  }

  lemma OnePiece(mem: Memory, root: nat, va: Address)
    ensures SizeOf(mem, root, va).Some? ==> InOnePiece(mem, root, va, SizeOf(mem, root, va).value)
  {
    hide Walk, SamePage, InPage;
    var size := SizeOf(mem, root, va);
    if size.Some? {
      forall other: Address | SamePage(va, other, size.value)
        ensures Walk(mem, root, 4, other, ALL) == Moved(Walk(mem, root, 4, va, ALL).value, va, other)
      {
        WalkAlong(mem, root, 4, va, other, ALL);
      }
      WalkAlong(mem, root, 4, va, va, ALL);
    }
  }

  /** The end of a walk, moved from one address of its page to another. */
  function Moved(w: (Mapping, nat), va: Address, other: Address): Option<(Mapping, nat)> {
    if w.0.physical < InPage(va, w.1) then None
    else Some((w.0.(physical := w.0.physical - InPage(va, w.1) + InPage(other, w.1)), w.1))
  }

  lemma {:induction false} WalkAlong(mem: Memory, t: nat, level: nat, va: Address, other: Address, rights: Rights)
    requires 1 <= level <= 4 && Walk(mem, t, level, va, rights).Some?
    requires SamePage(va, other, Walk(mem, t, level, va, rights).value.1)
    ensures Walk(mem, t, level, other, rights) == Moved(Walk(mem, t, level, va, rights).value, va, other)
    ensures Walk(mem, t, level, other, rights).Some?
    decreases level
  {
    var e := mem[t][Index(va, level)];
    WalkSize(mem, t, level, va, rights);
    SizeBelow(mem, t, level, va, rights);
    assert Index(other, level) == Index(va, level);
    if !IsLeaf(e, level) {
      WalkAlong(mem, e.addr, level - 1, va, other, rights.Through(e));
    }
  }

  /** A page is no larger than its table maps. */
  lemma {:induction false} SizeBelow(mem: Memory, t: nat, level: nat, va: Address, rights: Rights)
    requires 1 <= level <= 4 && Walk(mem, t, level, va, rights).Some?
    ensures level <= 3 ==> Walk(mem, t, level, va, rights).value.1 <= PageSize(level)
    decreases level
  {
    var e := mem[t][Index(va, level)];
    if !IsLeaf(e, level) {
      SizeBelow(mem, e.addr, level - 1, va, rights.Through(e));
    }
  }

  /** The tables it takes to describe a page in 4 KiB entries. */
  function FramesFor(size: Option<nat>): nat {
    if size == Some(GIB1) then 2 else if size == Some(MIB2) then 1 else 0
  }

  lemma SmallHere(mem: Memory, root: nat, va: Address)
    requires root in mem && !mem[root][va.p4].huge && mem[root][va.p4].addr in mem
    requires var e3 := mem[mem[root][va.p4].addr][va.p3]; !e3.huge && e3.addr in mem && !mem[e3.addr][va.p2].huge
    ensures SizeOf(mem, root, va) in {None, Some(KIB4)}
  {
    var e4 := mem[root][va.p4];
    var e3 := mem[e4.addr][va.p3];
    var e2 := mem[e3.addr][va.p2];
    var rights := ALL.Through(e4).Through(e3);
    var w := Walk(mem, e2.addr, 1, va, rights.Through(e2));
    assert w.Some? ==> w.value.1 == KIB4;
    assert Walk(mem, e3.addr, 2, va, rights) == if e2.present then w else None;
  }

  lemma SizeHere(mem: Memory, levels: map<nat, nat>, root: nat, va: Address, f: nat)
    requires Typed(mem, levels) && root in mem && levels[root] == 4 && f in mem && 2 <= levels[f] <= 3
    requires OnPath(mem, root, va, f, levels[f])
    requires var e := mem[f][Index(va, levels[f])]; e.present && e.huge
    ensures SizeOf(mem, root, va) == Some(PageSize(levels[f]))
  {
    var e4 := mem[root][va.p4];
    if levels[f] == 2 {
      var e3 := mem[e4.addr][va.p3];
      assert Walk(mem, f, 2, va, ALL.Through(e4).Through(e3)).Some?;
    }
  }

  /** A walk that came to a huge entry comes to a page one size smaller once the entry has been split. */
  lemma SizeAfter(mem: Memory, mem': Memory, levels: map<nat, nat>, root: nat, va: Address, f: nat, i: nat, table: nat)
    requires Typed(mem, levels) && root in mem && levels[root] == 4 && f in mem && i < ENTRIES && 2 <= levels[f] <= 3
    requires mem[f][i].present && mem[f][i].huge && Replaced(mem, mem', f, i, levels[f], table)
    requires i == Index(va, levels[f]) && OnPath(mem, root, va, f, levels[f])
    ensures SizeOf(mem, root, va) == Some(PageSize(levels[f]))
    ensures SizeOf(mem', root, va) == Some(PageSize(levels[f] - 1))
  {
    var e4 := mem[root][va.p4];
    var rights := ALL.Through(e4);
    assert mem'[root] == mem[root];
    if levels[f] == 3 {
      SplitMeaning(mem, mem', f, i, 3, table, va, rights);
    } else {
      var e3 := mem[e4.addr][va.p3];
      assert mem'[e4.addr] == mem[e4.addr];
      SplitMeaning(mem, mem', f, i, 2, table, va, rights.Through(e3));
    }
  }

  /** The walk to an address passes through a table. */
  predicate OnPath(mem: Memory, root: nat, va: Address, f: nat, level: nat)
    requires root in mem
  {
    var e4 := mem[root][va.p4];
    && e4.present && !e4.huge
    && if level == 3 then e4.addr == f
       else level == 2 && e4.addr in mem
            && var e3 := mem[e4.addr][va.p3]; e3.present && !e3.huge && e3.addr == f
  }

  lemma Transitive(mem: Memory, mem1: Memory, mem2: Memory,
                   levels: map<nat, nat>, levels1: map<nat, nat>, levels2: map<nat, nat>)
    requires Typed(mem, levels) && Typed(mem1, levels1)
    requires SameMeaning(mem, mem1, levels) && SpacesKept(mem, mem1, levels, levels1)
    requires SameMeaning(mem1, mem2, levels1) && SpacesKept(mem1, mem2, levels1, levels2)
    ensures SameMeaning(mem, mem2, levels) && SpacesKept(mem, mem2, levels, levels2)
  {
    hide Meaning;
  }

  lemma SizeCases(mem: Memory, root: nat, va: Address)
    ensures SizeOf(mem, root, va).Some? ==> SizeOf(mem, root, va).value in {KIB4, MIB2, GIB1}
  {
    WalkSize(mem, root, 4, va, ALL);
  }

  lemma {:induction false} WalkSize(mem: Memory, t: nat, level: nat, va: Address, rights: Rights)
    requires 1 <= level <= 4
    ensures var w := Walk(mem, t, level, va, rights); w.Some? ==> w.value.1 in {KIB4, MIB2, GIB1}
    decreases level
  {
    if t in mem && PointsDown(mem[t][Index(va, level)], level) && !mem[t][Index(va, level)].huge {
      var e := mem[t][Index(va, level)];
      WalkSize(mem, e.addr, level - 1, va, rights.Through(e));
    }
  }

  /** The tables on the way to an address below the top one, if they are all there. */
  function Path(mem: Memory, t: nat, level: nat, va: Address): Option<seq<nat>>
    requires 1 <= level <= 4
    decreases level
  {
    if level == 1 then Some([])
    else if t !in mem then None
    else
      var e := mem[t][Index(va, level)];
      if !e.present || e.huge then None else Prepend([e.addr], Path(mem, e.addr, level - 1, va))
  }

  function Prepend(x: seq<nat>, y: Option<seq<nat>>): Option<seq<nat>> {
    if y.None? then None else Some(x + y.value)
  }

  lemma PrependNone(y: Option<seq<nat>>)
    ensures Prepend([], y) == y
  {
    assert y.Some? ==> [] + y.value == y.value;
  }

  lemma PrependMore(x: seq<nat>, a: nat, y: Option<seq<nat>>)
    ensures Prepend(x + [a], y) == Prepend(x, Prepend([a], y))
  {
    assert y.Some? ==> (x + [a]) + y.value == x + ([a] + y.value);
  }

  lemma PrependEmpty(x: seq<nat>)
    ensures Prepend(x, Some([])) == Some(x)
  {
    assert x + [] == x;
  }

  ghost predicate ChainTo(mem: Memory, levels: map<nat, nat>, root: nat, va: Address, children: seq<nat>)
    requires levels.Keys == mem.Keys && |children| <= 3
  {
    forall l :: 0 <= l < |children| ==> LinkAt(mem, levels, root, va, children, l)
  }

  ghost predicate LinkAt(mem: Memory, levels: map<nat, nat>, root: nat, va: Address, children: seq<nat>, l: nat)
    requires levels.Keys == mem.Keys && l < |children| <= 3
  {
    var t := if l == 0 then root else children[l - 1];
    Points(mem, levels, t, Index(va, 4 - l)) && levels[t] == 4 - l && mem[t][Index(va, 4 - l)].addr == children[l]
  }

  lemma ChainMore(mem: Memory, levels: map<nat, nat>, root: nat, va: Address, children: seq<nat>, t: nat, child: nat)
    requires levels.Keys == mem.Keys && |children| < 3 && ChainTo(mem, levels, root, va, children)
    requires t == if |children| == 0 then root else children[|children| - 1]
    requires Points(mem, levels, t, Index(va, 4 - |children|)) && levels[t] == 4 - |children|
    requires mem[t][Index(va, 4 - |children|)].addr == child
    ensures ChainTo(mem, levels, root, va, children + [child])
  {
    var more := children + [child];
    forall l | 0 <= l < |more| ensures LinkAt(mem, levels, root, va, more, l) {
      assert l < |children| ==> LinkAt(mem, levels, root, va, children, l);
    }
  }

  /** The tables that should go, level 2 and level 1: a level 1 table with nothing in it, and a level 2 table with
      nothing in it but that. */
  function ToDetach(mem: Memory, root: nat, va: Address): (Option<nat>, Option<nat>) {
    var path := Path(mem, root, 4, va);
    if path.None? || |path.value| != 3 || path.value[2] !in mem || path.value[1] !in mem then (None, None)
    else if !IsEmpty(mem[path.value[2]]) then (None, None)
    else
      (if IsEmpty(mem[path.value[1]][va.p2 := UNUSED]) then Some(path.value[1]) else None, Some(path.value[2]))
  }

  ghost predicate Unreferenced(mem: Memory, levels: map<nat, nat>, t: nat)
    requires levels.Keys == mem.Keys
  {
    forall u, i: nat :: Points(mem, levels, u, i) ==> mem[u][i].addr != t
  }

  lemma DropKeeps(mem: Memory, mem': Memory, levels: map<nat, nat>, parent: nat, i: nat, child: nat)
    requires Typed(mem, levels) && SoleParent(mem, levels) && parent in mem && i < ENTRIES && levels[parent] <= 3
    requires Points(mem, levels, parent, i) && mem[parent][i].addr == child && IsEmpty(mem[child])
    requires mem' == mem[parent := mem[parent][i := UNUSED]]
    ensures Typed(mem', levels) && SoleParent(mem', levels)
    ensures SameMeaning(mem, mem', levels) && SpacesKept(mem, mem', levels, levels)
    ensures forall t :: t == child || (t in mem && Unreferenced(mem, levels, t)) ==> Unreferenced(mem', levels, t)
  {
    DropShape(mem, mem', levels, parent, i, child);
    hide Meaning;
    forall v: Address, r | Index(v, levels[parent]) == i
      ensures Meaning(mem', parent, levels[parent], v, r) == Meaning(mem, parent, levels[parent], v, r)
    {
      EmptyMeans(mem, mem', levels, parent, i, child, v, r);
    }
    forall t, va: Address, rights | t in mem
      ensures Meaning(mem', t, levels[t], va, rights) == Meaning(mem, t, levels[t], va, rights)
    {
      OneEntry(mem, mem', levels, parent, i, t, va, rights);
    }
  }

  /** Behind an entry that leads to an empty table there is nothing. */
  lemma EmptyMeans(mem: Memory, mem': Memory, levels: map<nat, nat>, parent: nat, i: nat, child: nat,
                   v: Address, r: Rights)
    requires Typed(mem, levels) && parent in mem && i < ENTRIES && Points(mem, levels, parent, i)
    requires mem[parent][i].addr == child && IsEmpty(mem[child]) && Index(v, levels[parent]) == i
    requires parent in mem' && mem'[parent][i] == UNUSED
    ensures Meaning(mem', parent, levels[parent], v, r) == Meaning(mem, parent, levels[parent], v, r) == None
  {
    assert Walk(mem, child, levels[parent] - 1, v, r.Through(mem[parent][i])).None?;
  }

  lemma DropShape(mem: Memory, mem': Memory, levels: map<nat, nat>, parent: nat, i: nat, child: nat)
    requires Typed(mem, levels) && SoleParent(mem, levels) && parent in mem && i < ENTRIES && levels[parent] <= 3
    requires Points(mem, levels, parent, i) && mem[parent][i].addr == child
    requires mem' == mem[parent := mem[parent][i := UNUSED]]
    ensures Typed(mem', levels) && SoleParent(mem', levels)
    ensures forall t :: t == child || (t in mem && Unreferenced(mem, levels, t)) ==> Unreferenced(mem', levels, t)
  {
    assert forall t, j: nat :: Points(mem', levels, t, j) ==>
      Points(mem, levels, t, j) && mem'[t][j] == mem[t][j] && !(t == parent && j == i);
  }

  // ---- spaces that share the kernel ----

  /** Two level 4 tables with the same entries outside the user slot. */
  ghost predicate ShareKernel(mem: Memory, a: nat, b: nat) {
    a in mem && b in mem && forall i :: 0 <= i < ENTRIES && i != USER_SLOT ==> mem[a][i] == mem[b][i]
  }

  /** Spaces that share the kernel agree on every address outside the user region, in meaning and page size. */
  lemma SameKernel(mem: Memory, a: nat, b: nat, va: Address, rights: Rights)
    requires ShareKernel(mem, a, b) && va.p4 != USER_SLOT
    ensures Walk(mem, a, 4, va, rights) == Walk(mem, b, 4, va, rights)
  {
  }

  /** Surgery keeps spaces sharing: it changes no level 4 table. */
  lemma StillShare(mem: Memory, mem': Memory, levels: map<nat, nat>, levels': map<nat, nat>, a: nat, b: nat)
    requires Typed(mem, levels) && SpacesKept(mem, mem', levels, levels') && ShareKernel(mem, a, b)
    requires levels[a] == 4 && levels[b] == 4
    ensures ShareKernel(mem', a, b)
  {
  }
}
