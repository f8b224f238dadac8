/** Families of processes: relatives by fork share one page table, one heap and the
  * code that the first of them loaded; each has a stack of its own. */
module Families {
  import opened Common
  import opened Frames
  import opened Paging
  import opened Stacks
  import opened Heaps

  type Pid = nat

  /** Pages `[lo, lo + count)` of a loaded segment. */
  datatype CodeRange = CodeRange(lo: nat, count: nat) {
    ghost predicate Has(page: nat) { lo <= page < lo + count }
  }

  /** `stacks` holds the live members, so their number is the reference count of the
    * page table. `code` is recorded by `loader` only. `held` are the frames of other
    * families and of the kernel. */
  datatype Family = Family(
    mem: Mem, stacks: map<Pid, Stack>, heapEnd: nat,
    code: seq<CodeRange>, loader: Pid, held: set<Frame>)

  // ---- Steps ---------------------------------------------------------------------------------

  datatype Step =
    | Fork(parent: Pid, child: Pid, count: nat)
    | Fault(pid: Pid, addr: nat)
    | Break(pid: Pid, newEnd: Option<nat>)
    | Death(pid: Pid)
    | OtherAllocates
    | OtherFrees(frame: Frame)

  /** What the system provides: steps are taken by live members, a fork gets a new pid
    * and returns (the module Searches tells when), a fault is for an unmapped address,
    * and others free only what they hold. */
  ghost predicate Possible(f: Family, step: Step) {
    match step
    case Fork(parent, child, count) =>
      parent in f.stacks && child !in f.stacks && child != f.loader && ForkStack(f.mem, f.stacks[parent], count).Some?
    case Fault(pid, addr) => pid in f.stacks && addr / PAGE_SIZE !in f.mem.pages
    case Break(pid, _) => pid in f.stacks
    case Death(pid) => pid in f.stacks
    case OtherAllocates => true
    case OtherFrees(frame) => frame in f.held
  }

  function UnmapCode(m: Mem, code: seq<CodeRange>): (r: (Mem, bool))
    decreases code
  {
    if code == [] then (m, true)
    else
      var (t, ok) := UnmapRange(m, code[0].lo, code[0].count);
      if ok then UnmapCode(t, code[1..]) else (t, false)
  }

  /** The dropped address space of one process: its stack, and for the last user of
    * the page table the heap and the recorded code. An error ends the clean-up. */
  function CleanUpSpace(m: Mem, st: Stack, last: bool, end: nat, code: seq<CodeRange>): (r: (Mem, nat, bool)) {
    var (m1, _, ok1) := CleanUpStack(m, st);
    if !ok1 then (m1, end, false)
    else if !last then (m1, end, true)
    else
      var (m2, end', ok2) := CleanUpHeap(m1, end);
      if !ok2 then (m2, end', false)
      else
        var (m3, ok3) := UnmapCode(m2, code);
        (m3, end', ok3)
  }

  function CleanUp(f: Family, pid: Pid): (r: (Mem, nat, bool))
    requires pid in f.stacks
  {
    CleanUpSpace(f.mem, f.stacks[pid], |f.stacks| == 1, f.heapEnd, if pid == f.loader then f.code else [])
  }

  function Next(f: Family, step: Step): Family {
    match step
    case Fork(parent, child, count) =>
      if parent !in f.stacks then f
      else
        var r := ForkStack(f.mem, f.stacks[parent], count);
        if r.None? then f else f.(mem := r.value.0, stacks := f.stacks[child := r.value.1])
    case Fault(pid, addr) =>
      if pid !in f.stacks || !IsOnStack(f.stacks[pid], addr) then f
      else
        var (m, st, _) := GrowStack(f.mem, f.stacks[pid], addr, true);
        f.(mem := m, stacks := f.stacks[pid := st])
    case Break(_, newEnd) =>
      var (m, end, _) := Brk(f.mem, f.heapEnd, newEnd);
      f.(mem := m, heapEnd := end)
    case Death(pid) =>
      if pid !in f.stacks then f
      else
        var (m, end, _) := CleanUp(f, pid);
        f.(mem := m, heapEnd := end, stacks := f.stacks - {pid}, code := if |f.stacks| == 1 then [] else f.code)
    case OtherAllocates =>
      var (alloc, frame) := f.mem.alloc.Allocate();
      f.(mem := f.mem.(alloc := alloc), held := if frame.Some? then f.held + {frame.value} else f.held)
    case OtherFrees(frame) =>
      f.(mem := f.mem.(alloc := f.mem.alloc.Deallocate(frame)), held := f.held - {frame})
  }

  // ---- The invariant -------------------------------------------------------------------------

  datatype Owner = StackOf(pid: Pid) | HeapOwner | CodeOwner(index: nat)

  /** Which part of the family a page belongs to. */
  ghost predicate Owns(f: Family, o: Owner, page: nat) {
    match o
    case StackOf(pid) => pid in f.stacks && f.stacks[pid].start <= page < f.stacks[pid].end
    case HeapOwner => InHeap(f.heapEnd, page)
    case CodeOwner(i) => i < |f.code| && f.code[i].Has(page)
  }

  /** All frames are accounted for; stacks are live; every owned page is mapped and has
    * one owner. */
  ghost predicate Inv(f: Family) {
    && Sound(f.mem, f.held)
    && ValidEnd(f.heapEnd)
    && (forall pid | pid in f.stacks :: Live(f.stacks[pid]))
    && (forall o, page | Owns(f, o, page) :: page in f.mem.pages)
    && (forall o1, o2, page | Owns(f, o1, page) && Owns(f, o2, page) :: o1 == o2)
  }

  lemma StackIsMapped(f: Family, pid: Pid)
    requires Inv(f) && pid in f.stacks
    ensures FullyMapped(f.stacks[pid], f.mem)
  {
    hide Sound;
    forall p | f.stacks[pid].start <= p < f.stacks[pid].end ensures p in f.mem.pages {
      assert Owns(f, StackOf(pid), p);
    }
  }

  /** Each slot holds at most one live stack: its last page can have only one owner. */
  lemma OneStackPerSlot(f: Family, a: Pid, b: Pid)
    requires Inv(f) && a in f.stacks && b in f.stacks
    requires SlotOf(f.stacks[a].start) == SlotOf(f.stacks[b].start)
    ensures a == b
  {
    hide Sound;
    LiveEndsSlot(f.stacks[a]);
    LiveEndsSlot(f.stacks[b]);
    var last := f.stacks[a].end - 1;
    assert Owns(f, StackOf(a), last) && Owns(f, StackOf(b), last);
  }

  lemma LiveEndsSlot(st: Stack)
    requires Live(st)
    ensures st.end == (SlotOf(st.start) + 1) * SLOT_PAGES
  {
    assert st.end == st.end / SLOT_PAGES * SLOT_PAGES;
  }

  // ---- Steps that only add ---------------------------------------------------------------------

  /** One part of the family grows into pages that were not mapped; all else stays. */
  lemma GrowthKeepsInv(f: Family, g: Family, o: Owner)
    requires Inv(f) && Sound(g.mem, g.held) && Grows(f.mem, g.mem)
    requires ValidEnd(g.heapEnd) && forall pid | pid in g.stacks :: Live(g.stacks[pid])
    requires forall q, page | q != o :: Owns(g, q, page) ==> Owns(f, q, page)
    requires forall page | Owns(g, o, page) :: page in g.mem.pages && (Owns(f, o, page) || page !in f.mem.pages)
    ensures Inv(g)
  {
    hide Sound;
  }

  lemma ForkKeepsInv(f: Family, parent: Pid, child: Pid, count: nat)
    requires Inv(f) && Possible(f, Fork(parent, child, count))
    ensures Inv(Next(f, Fork(parent, child, count)))
  {
    hide Sound;
    hide Grows;
    hide ForkStack;
    StackIsMapped(f, parent);
    ForkedStackIsLive(f.mem, f.held, f.stacks[parent], count);
    var g := Next(f, Fork(parent, child, count));
    forall q, page | q != StackOf(child) ensures Owns(g, q, page) ==> Owns(f, q, page) {}
    GrowthKeepsInv(f, g, StackOf(child));
  }

  lemma FaultKeepsInv(f: Family, pid: Pid, addr: nat)
    requires Inv(f) && Possible(f, Fault(pid, addr))
    ensures Inv(Next(f, Fault(pid, addr)))
  {
    hide Sound;
    hide Grows;
    hide MapRange;
    var st, g := f.stacks[pid], Next(f, Fault(pid, addr));
    StackIsMapped(f, pid);
    OnStackIffInSlot(st, addr);
    if IsOnStack(st, addr) {
      GrowKeepsLive(f.mem, f.held, st, addr, true);
      FaultIsBelowStack(f.mem, st, addr);
      var lo := addr / PAGE_SIZE;
      var done := MapRangeEffect(f.mem, f.held, lo, st.start - lo, USER_FLAGS);
      ExtendsIsGrows(f.mem, g.mem, lo, done, USER_FLAGS);
      forall q, page | q != StackOf(pid) ensures Owns(g, q, page) ==> Owns(f, q, page) {}
      GrowthKeepsInv(f, g, StackOf(pid));
    }
  }

  lemma BreakKeepsInv(f: Family, pid: Pid, newEnd: Option<nat>)
    requires Inv(f)
    ensures Inv(Next(f, Break(pid, newEnd)))
  {
    hide Sound;
    hide Grows;
    hide MapRange;
    var g := Next(f, Break(pid, newEnd));
    if newEnd.Some? && ValidEnd(newEnd.value) && (newEnd.value - f.heapEnd) % WORD_MODULUS != 0 {
      EndPageBounds(f.heapEnd);
      EndPageBounds(newEnd.value);
      var lo, n := EndPage(f.heapEnd), GrowthOf(f.heapEnd, newEnd.value);
      var done := MapRangeEffect(f.mem, f.held, lo, n, USER_FLAGS);
      ExtendsIsGrows(f.mem, g.mem, lo, done, USER_FLAGS);
      forall q, page | q != HeapOwner ensures Owns(g, q, page) ==> Owns(f, q, page) {}
      forall page | Owns(g, HeapOwner, page)
        ensures page in g.mem.pages && (Owns(f, HeapOwner, page) || page !in f.mem.pages)
      {
        assert Owns(f, HeapOwner, page) || lo <= page < lo + n;
      }
      GrowthKeepsInv(f, g, HeapOwner);
    } else if newEnd.Some? && ValidEnd(newEnd.value) {
      assert newEnd.value == f.heapEnd;
    }
  }

  lemma OthersKeepInv(f: Family, step: Step)
    requires Inv(f) && Possible(f, step) && (step.OtherAllocates? || step.OtherFrees?)
    ensures Inv(Next(f, step))
  {
    var g := Next(f, step);
    if step.OtherAllocates? {
      AllocateKeepsSound(f.mem, f.held);
    } else {
      FreeHeldKeepsSound(f.mem, f.held, step.frame);
    }
    SameOwners(f, g);
  }

  lemma SameOwners(f: Family, g: Family)
    requires Inv(f) && Sound(g.mem, g.held)
    requires g == f.(mem := g.mem, held := g.held) && g.mem.pages == f.mem.pages
    ensures Inv(g)
  {
    hide Sound;
    assert forall o, page :: Owns(g, o, page) == Owns(f, o, page);
  }

  lemma FreeHeldKeepsSound(m: Mem, held: set<Frame>, frame: Frame)
    requires Sound(m, held) && frame in held
    ensures Sound(m.(alloc := m.alloc.Deallocate(frame)), held - {frame})
  {
    DeallocateGives(m.alloc, frame);
    var t := m.(alloc := m.alloc.Deallocate(frame));
    assert PageFrames(t) == PageFrames(m) && TableFrames(t) == TableFrames(m);
  }

  // ---- Death ---------------------------------------------------------------------------------

  /** Pages were only removed, and exactly their frames became free. */
  ghost predicate Shrinks(m: Mem, t: Mem) {
    && (forall p | p in t.pages :: p in m.pages && t.pages[p] == m.pages[p])
    && m.alloc.Free() <= t.alloc.Free()
    && (forall p | p in m.pages && p !in t.pages :: m.pages[p].frame in t.alloc.Free())
    && (forall f | f in t.alloc.Free() && f !in m.alloc.Free() ::
          exists p :: p in m.pages && p !in t.pages && m.pages[p].frame == f)
  }

  lemma RetractsIsShrinks(m: Mem, t: Mem, lo: nat, n: nat)
    requires Retracts(m, t, lo, n)
    ensures Shrinks(m, t)
  {
  }

  lemma ShrinksTransitively(m: Mem, u: Mem, t: Mem)
    requires Shrinks(m, u) && Shrinks(u, t)
    ensures Shrinks(m, t)
  {
    forall f | f in t.alloc.Free() && f !in m.alloc.Free()
      ensures exists p :: p in m.pages && p !in t.pages && m.pages[p].frame == f
    {
      if f !in u.alloc.Free() {
        var p :| p in u.pages && p !in t.pages && u.pages[p].frame == f;
        assert p in m.pages && m.pages[p].frame == f;
      } else {
        var p :| p in m.pages && p !in u.pages && m.pages[p].frame == f;
        assert p !in t.pages;
      }
    }
  }

  ghost predicate InCode(code: seq<CodeRange>, page: nat) {
    exists i :: 0 <= i < |code| && code[i].Has(page)
  }

  /** Disjoint mapped ranges are unmapped one after the other. */
  lemma {:induction false} UnmapCodeEffect(m: Mem, held: set<Frame>, code: seq<CodeRange>)
    requires Sound(m, held)
    requires forall p: nat | InCode(code, p) :: p in m.pages
    requires forall i, j, p: nat | 0 <= i < j < |code| :: !(code[i].Has(p) && code[j].Has(p))
    ensures UnmapCode(m, code).1
    ensures Sound(UnmapCode(m, code).0, held) && Shrinks(m, UnmapCode(m, code).0)
    ensures forall p: nat :: p in UnmapCode(m, code).0.pages <==> p in m.pages && !InCode(code, p)
    decreases code
  {
    hide Sound;
    hide Shrinks;
    hide UnmapRange;
    if code == [] {
      ShrinksReflexively(m);
    } else {
      var c, rest := code[0], code[1..];
      assert forall i | 0 <= i < |rest| :: rest[i] == code[i + 1];
      forall p: nat | c.Has(p) ensures p in m.pages {
        assert code[0].Has(p);
      }
      UnmapRangeEffect(m, held, c.lo, c.count);
      var t := UnmapRange(m, c.lo, c.count).0;
      RetractsIsShrinks(m, t, c.lo, c.count);
      forall p: nat ensures InCode(code, p) <==> c.Has(p) || InCode(rest, p) {
        if i :| 0 <= i < |rest| && rest[i].Has(p) {
          assert code[i + 1].Has(p);
        }
      }
      forall p: nat | InCode(rest, p) ensures p in t.pages {
        var i :| 0 <= i < |rest| && rest[i].Has(p);
        assert code[i + 1].Has(p) && !code[0].Has(p);
      }
      UnmapCodeEffect(t, held, rest);
      ShrinksTransitively(m, t, UnmapCode(t, rest).0);
    }
  }

  lemma ShrinksReflexively(m: Mem)
    ensures Shrinks(m, m)
  {
  }

  /** The pages that the death of a member gives back. */
  ghost predicate GivenBack(f: Family, pid: Pid, page: nat) {
    || Owns(f, StackOf(pid), page)
    || (|f.stacks| == 1 && (Owns(f, HeapOwner, page) || (pid == f.loader && InCode(f.code, page))))
  }

  /** The clean-up of a dead member succeeded: exactly the given-back pages are gone and
    * exactly their frames, all of them in use before, have become free. */
  ghost predicate CleanedUp(f: Family, pid: Pid, t: Mem) {
    && Sound(t, f.held) && Shrinks(f.mem, t)
    && (forall p: nat :: p in t.pages <==> p in f.mem.pages && !GivenBack(f, pid, p))
  }

  lemma StackIsGivenBack(f: Family, pid: Pid)
    requires Inv(f) && pid in f.stacks
    ensures var (t, st, ok) := CleanUpStack(f.mem, f.stacks[pid]);
      && ok && Sound(t, f.held) && Shrinks(f.mem, t)
      && (forall p: nat :: p in t.pages <==> p in f.mem.pages && !Owns(f, StackOf(pid), p))
  {
    hide Sound;
    hide Shrinks;
    hide UnmapRange;
    var st := f.stacks[pid];
    StackIsMapped(f, pid);
    UnmapRangeEffect(f.mem, f.held, st.start, st.usage);
    RetractsIsShrinks(f.mem, UnmapRange(f.mem, st.start, st.usage).0, st.start, st.usage);
  }

  lemma HeapIsGivenBack(f: Family, pid: Pid, m: Mem)
    requires Inv(f) && pid in f.stacks && Sound(m, f.held) && Shrinks(f.mem, m)
    requires forall p: nat :: p in m.pages <==> p in f.mem.pages && !Owns(f, StackOf(pid), p)
    ensures var (t, end, ok) := CleanUpHeap(m, f.heapEnd);
      && ok && end == HEAP_START && Sound(t, f.held) && Shrinks(f.mem, t)
      && (forall p: nat :: p in t.pages <==> p in m.pages && !Owns(f, HeapOwner, p))
  {
    hide Sound;
    hide Shrinks;
    hide CleanUpHeap;
    forall p: nat | InHeap(f.heapEnd, p) ensures p in m.pages {
      assert Owns(f, HeapOwner, p);
      assert p in f.mem.pages;
      assert !Owns(f, StackOf(pid), p);
    }
    CleanUpUnmapsHeap(m, f.held, f.heapEnd);
    var t := CleanUpHeap(m, f.heapEnd).0;
    EndPageBounds(f.heapEnd);
    RetractsIsShrinks(m, t, HEAP_START_PAGE, EndPage(f.heapEnd) - HEAP_START_PAGE);
    ShrinksTransitively(f.mem, m, t);
  }

  lemma CodeIsGivenBack(f: Family, pid: Pid, m: Mem)
    requires Inv(f) && pid in f.stacks && Sound(m, f.held) && Shrinks(f.mem, m)
    requires forall p: nat :: p in m.pages <==> p in f.mem.pages && !Owns(f, StackOf(pid), p) && !Owns(f, HeapOwner, p)
    ensures var (t, ok) := UnmapCode(m, f.code);
      && ok && Sound(t, f.held) && Shrinks(f.mem, t)
      && (forall p: nat :: p in t.pages <==> p in m.pages && !InCode(f.code, p))
  {
    hide Sound;
    hide Shrinks;
    hide UnmapCode;
    forall p: nat | InCode(f.code, p) ensures p in m.pages {
      var i :| 0 <= i < |f.code| && f.code[i].Has(p);
      assert Owns(f, CodeOwner(i), p);
      assert p in f.mem.pages;
      assert !Owns(f, StackOf(pid), p) && !Owns(f, HeapOwner, p);
    }
    forall i, j, p: nat | 0 <= i < j < |f.code| ensures !(f.code[i].Has(p) && f.code[j].Has(p)) {
      assert !(Owns(f, CodeOwner(i), p) && Owns(f, CodeOwner(j), p));
    }
    UnmapCodeEffect(m, f.held, f.code);
    ShrinksTransitively(f.mem, m, UnmapCode(m, f.code).0);
  }

  /** A death never fails to clean up. A member that is not the last gives back exactly
    * its stack; the last one also the heap, and the code if it loaded it. */
  lemma DeathGivesBack(f: Family, pid: Pid)
    requires Inv(f) && pid in f.stacks
    ensures var (t, end, ok) := CleanUp(f, pid);
      && ok && CleanedUp(f, pid, t)
      && end == if |f.stacks| == 1 then HEAP_START else f.heapEnd
  {
    hide Sound;
    hide Shrinks;
    hide CleanUpStack;
    hide CleanUpHeap;
    hide UnmapCode;
    hide Inv;
    hide Owns;
    StackIsGivenBack(f, pid);
    var m1 := CleanUpStack(f.mem, f.stacks[pid]).0;
    if |f.stacks| == 1 {
      HeapIsGivenBack(f, pid, m1);
      var m2 := CleanUpHeap(m1, f.heapEnd).0;
      if pid == f.loader {
        CodeIsGivenBack(f, pid, m2);
      } else {
        NoCode(m2);
      }
    }
  }

  lemma NoCode(m: Mem)
    ensures UnmapCode(m, []) == (m, true)
  {
  }

  lemma DeathKeepsInv(f: Family, pid: Pid)
    requires Inv(f) && pid in f.stacks
    ensures Inv(Next(f, Death(pid)))
  {
    hide Sound;
    hide Shrinks;
    hide CleanUp;
    DeathGivesBack(f, pid);
    var g := Next(f, Death(pid));
    if |f.stacks| == 1 {
      LastMember(f.stacks, pid);
      assert forall o, page: nat :: !Owns(g, o, page);
    } else {
      forall o, page: nat | Owns(g, o, page) ensures Owns(f, o, page) && page in g.mem.pages {
        assert Owns(f, o, page);
        assert !Owns(f, StackOf(pid), page);
      }
    }
  }

  lemma LastMember(stacks: map<Pid, Stack>, pid: Pid)
    requires pid in stacks && |stacks| == 1
    ensures stacks - {pid} == map[]
  {
    assert |stacks.Keys - {pid}| == 0;
    assert (stacks - {pid}).Keys == stacks.Keys - {pid};
  }

  // ---- Whole runs ----------------------------------------------------------------------------

  lemma StepKeepsInv(f: Family, step: Step)
    requires Inv(f) && Possible(f, step)
    ensures Inv(Next(f, step))
  {
    hide Inv;
    hide Next;
    match step
    case Fork(parent, child, count) => ForkKeepsInv(f, parent, child, count);
    case Fault(pid, addr) => FaultKeepsInv(f, pid, addr);
    case Break(pid, newEnd) => BreakKeepsInv(f, pid, newEnd);
    case Death(pid) => DeathKeepsInv(f, pid);
    case OtherAllocates => OthersKeepInv(f, step);
    case OtherFrees(_) => OthersKeepInv(f, step);
  }

  ghost predicate Allowed(f: Family, steps: seq<Step>)
    decreases steps
  {
    steps == [] || (Possible(f, steps[0]) && Allowed(Next(f, steps[0]), steps[1..]))
  }

  ghost function Run(f: Family, steps: seq<Step>): Family
    decreases steps
  {
    if steps == [] then f else Run(Next(f, steps[0]), steps[1..])
  }

  /** In every reachable family all frames are in one place each, every live stack ends
    * on a slot boundary, has as many pages as it says, is fully mapped and is alone in
    * its slot. */
  lemma {:induction false} RunKeepsInv(f: Family, steps: seq<Step>)
    requires Inv(f) && Allowed(f, steps)
    ensures Inv(Run(f, steps))
    decreases steps
  {
    hide Inv;
    hide Next;
    hide Possible;
    if steps != [] {
      StepKeepsInv(f, steps[0]);
      RunKeepsInv(Next(f, steps[0]), steps[1..]);
    }
  }

  // ---- What stays mapped ---------------------------------------------------------------------

  ghost predicate OnSomeStack(f: Family, page: nat) { exists pid :: Owns(f, StackOf(pid), page) }

  /** A mapped page that is on no stack, such as a page of the heap or of the code. */
  ghost predicate Shared(f: Family, page: nat, mapping: Mapping) {
    page in f.mem.pages && f.mem.pages[page] == mapping && !OnSomeStack(f, page)
  }

  lemma GrowthKeepsShared(f: Family, g: Family, page: nat, mapping: Mapping, o: Owner)
    requires Shared(f, page, mapping) && Grows(f.mem, g.mem)
    requires forall q, p | q != o :: Owns(g, q, p) ==> Owns(f, q, p)
    requires forall p | Owns(g, o, p) :: Owns(f, o, p) || p !in f.mem.pages
    ensures Shared(g, page, mapping)
  {
    forall pid ensures !Owns(g, StackOf(pid), page) {
      assert !Owns(f, StackOf(pid), page);
    }
  }

  lemma StepKeepsShared(f: Family, step: Step, page: nat, mapping: Mapping)
    requires Inv(f) && Possible(f, step) && Shared(f, page, mapping) && Next(f, step).stacks != map[]
    ensures Shared(Next(f, step), page, mapping)
  {
    hide Sound;
    match step
    case Fork(parent, child, count) => ForkKeepsShared(f, parent, child, count, page, mapping);
    case Fault(pid, addr) => FaultKeepsShared(f, pid, addr, page, mapping);
    case Break(pid, newEnd) => BreakKeepsShared(f, pid, newEnd, page, mapping);
    case Death(pid) => DeathKeepsShared(f, pid, page, mapping);
    case OtherAllocates =>
      assert forall o, p :: Owns(Next(f, step), o, p) == Owns(f, o, p);
    case OtherFrees(_) =>
      assert forall o, p :: Owns(Next(f, step), o, p) == Owns(f, o, p);
  }

  lemma ForkKeepsShared(f: Family, parent: Pid, child: Pid, count: nat, page: nat, mapping: Mapping)
    requires Inv(f) && Possible(f, Fork(parent, child, count)) && Shared(f, page, mapping)
    ensures Shared(Next(f, Fork(parent, child, count)), page, mapping)
  {
    hide Sound;
    hide ForkStack;
    StackIsMapped(f, parent);
    ForkedStackIsLive(f.mem, f.held, f.stacks[parent], count);
    var g := Next(f, Fork(parent, child, count));
    forall q, p | q != StackOf(child) ensures Owns(g, q, p) ==> Owns(f, q, p) {}
    GrowthKeepsShared(f, g, page, mapping, StackOf(child));
  }

  lemma FaultKeepsShared(f: Family, pid: Pid, addr: nat, page: nat, mapping: Mapping)
    requires Inv(f) && Possible(f, Fault(pid, addr)) && Shared(f, page, mapping)
    ensures Shared(Next(f, Fault(pid, addr)), page, mapping)
  {
    hide Sound;
    hide MapRange;
    var st, g := f.stacks[pid], Next(f, Fault(pid, addr));
    StackIsMapped(f, pid);
    OnStackIffInSlot(st, addr);
    if IsOnStack(st, addr) {
      FaultIsBelowStack(f.mem, st, addr);
      var lo := addr / PAGE_SIZE;
      var done := MapRangeEffect(f.mem, f.held, lo, st.start - lo, USER_FLAGS);
      ExtendsIsGrows(f.mem, g.mem, lo, done, USER_FLAGS);
      forall q, p | q != StackOf(pid) ensures Owns(g, q, p) ==> Owns(f, q, p) {}
      GrowthKeepsShared(f, g, page, mapping, StackOf(pid));
    }
  }

  lemma BreakKeepsShared(f: Family, pid: Pid, newEnd: Option<nat>, page: nat, mapping: Mapping)
    requires Inv(f) && Shared(f, page, mapping)
    ensures Shared(Next(f, Break(pid, newEnd)), page, mapping)
  {
    hide Sound;
    hide MapRange;
    var g := Next(f, Break(pid, newEnd));
    forall pid, p ensures Owns(g, StackOf(pid), p) == Owns(f, StackOf(pid), p) {}
    if newEnd.Some? && ValidEnd(newEnd.value) {
      var done := MapRangeEffect(f.mem, f.held, EndPage(f.heapEnd), GrowthOf(f.heapEnd, newEnd.value), USER_FLAGS);
    }
  }

  lemma DeathKeepsShared(f: Family, pid: Pid, page: nat, mapping: Mapping)
    requires Inv(f) && pid in f.stacks && Shared(f, page, mapping) && Next(f, Death(pid)).stacks != map[]
    ensures Shared(Next(f, Death(pid)), page, mapping)
  {
    hide Sound;
    hide CleanUp;
    DeathGivesBack(f, pid);
    var g := Next(f, Death(pid));
    if |f.stacks| == 1 {
      LastMember(f.stacks, pid);
    }
    forall q, p | Owns(g, StackOf(q), p) ensures Owns(f, StackOf(q), p) {}
  }

  /** Somebody is alive after every step. */
  ghost predicate AlwaysAlive(f: Family, steps: seq<Step>)
    decreases steps
  {
    f.stacks != map[] && (steps == [] || AlwaysAlive(Next(f, steps[0]), steps[1..]))
  }

  /** Heap and code pages keep their frames for as long as any sharer lives, whatever
    * the family and others do. */
  lemma {:induction false} SharedPagesStay(f: Family, steps: seq<Step>, page: nat, mapping: Mapping)
    requires Inv(f) && Allowed(f, steps) && AlwaysAlive(f, steps) && Shared(f, page, mapping)
    ensures Shared(Run(f, steps), page, mapping)
    decreases steps
  {
    hide Inv;
    hide Next;
    hide Possible;
    hide Shared;
    if steps != [] {
      assert AlwaysAlive(Next(f, steps[0]), steps[1..]);
      StepKeepsShared(f, steps[0], page, mapping);
      StepKeepsInv(f, steps[0]);
      SharedPagesStay(Next(f, steps[0]), steps[1..], page, mapping);
    }
  }

  lemma HeapAndCodeAreShared(f: Family, page: nat, i: nat)
    requires Inv(f) && (Owns(f, HeapOwner, page) || Owns(f, CodeOwner(i), page))
    ensures page in f.mem.pages && Shared(f, page, f.mem.pages[page])
  {
    hide Sound;
  }

  /** In every reachable family the range that a fault on the stack asks for is not empty,
    * and the subtraction of pages does not underflow. */
  lemma FaultsNeverUnderflow(f: Family, steps: seq<Step>, pid: Pid, addr: nat)
    requires Inv(f) && Allowed(f, steps)
    requires Possible(Run(f, steps), Fault(pid, addr)) && InSlot(Run(f, steps).stacks[pid], addr)
    ensures addr / PAGE_SIZE < Run(f, steps).stacks[pid].start
    ensures !GrowStack(Run(f, steps).mem, Run(f, steps).stacks[pid], addr, true).2.Panicked?
  {
    RunKeepsInv(f, steps);
    StackIsMapped(Run(f, steps), pid);
    FaultIsBelowStack(Run(f, steps).mem, Run(f, steps).stacks[pid], addr);
  }

  /** A freshly loaded process is a family of one: its code ranges are mapped and do not
    * overlap, and its first stack page has just been mapped. */
  lemma FamilyIsBorn(m: Mem, held: set<Frame>, code: seq<CodeRange>, pid: Pid)
    requires Sound(m, held)
    requires forall p: nat | InCode(code, p) :: p in m.pages
    requires forall i, j, p: nat | 0 <= i < j < |code| :: !(code[i].Has(p) && code[j].Has(p))
    requires InitStack(m).2.Mapped?
    ensures Inv(Family(InitStack(m).0, map[pid := InitStack(m).1], HEAP_START, code, pid, held))
  {
    hide Sound;
    hide MapRange;
    var (t, st, r) := InitStack(m);
    var f := Family(t, map[pid := st], HEAP_START, code, pid, held);
    var done := MapRangeEffect(m, held, STACK_MAX_PAGE - 1, 1, USER_FLAGS);
    assert Live(st) by {
      assert STACK_MAX_PAGE == 0x4000 * SLOT_PAGES;
    }
    forall o, page: nat | Owns(f, o, page)
      ensures page in t.pages && (o.CodeOwner? ==> InCode(code, page) && page in m.pages)
        && (o.StackOf? ==> page == STACK_MAX_PAGE - 1 && page !in m.pages && o.pid == pid) && !o.HeapOwner?
    {
      if o.CodeOwner? {
        assert code[o.index].Has(page);
      }
    }
  }

  // ---- The heap of a family ------------------------------------------------------------------

  /** Every live stack lies in a slot above the heap's area. */
  ghost predicate StacksAboveHeap(f: Family) {
    forall pid | pid in f.stacks :: HEAP_START_PAGE + HEAP_PAGES < SlotOf(f.stacks[pid].start) * SLOT_PAGES
  }

  /** A query, a refused address, or a call that succeeds without shrinking. */
  ghost predicate Steady(f: Family, step: Step) {
    step.Break? && step.newEnd.Some? && ValidEnd(step.newEnd.value) ==>
      f.heapEnd <= step.newEnd.value && Brk(f.mem, f.heapEnd, step.newEnd).2.Some?
  }

  lemma SlotStart(page: nat)
    ensures SlotOf(page) * SLOT_PAGES <= page
  {
  }

  lemma FaultKeepsExact(f: Family, pid: Pid, addr: nat)
    requires Inv(f) && Possible(f, Fault(pid, addr)) && Exact(f.mem, f.heapEnd) && StacksAboveHeap(f)
    ensures Exact(Next(f, Fault(pid, addr)).mem, f.heapEnd)
  {
    hide Sound;
    hide MapRange;
    var st := f.stacks[pid];
    StackIsMapped(f, pid);
    OnStackIffInSlot(st, addr);
    if IsOnStack(st, addr) {
      FaultIsBelowStack(f.mem, st, addr);
      var lo := addr / PAGE_SIZE;
      SlotStart(lo);
      var done := MapRangeEffect(f.mem, f.held, lo, st.start - lo, USER_FLAGS);
    }
  }

  lemma ForkKeepsExact(f: Family, parent: Pid, child: Pid, count: nat)
    requires Inv(f) && Possible(f, Fork(parent, child, count)) && Exact(f.mem, f.heapEnd)
    requires StacksAboveHeap(Next(f, Fork(parent, child, count)))
    ensures Exact(Next(f, Fork(parent, child, count)).mem, f.heapEnd)
  {
    hide Sound;
    hide ForkStack;
    StackIsMapped(f, parent);
    ForkedStackIsLive(f.mem, f.held, f.stacks[parent], count);
    var g := Next(f, Fork(parent, child, count));
    SlotStart(g.stacks[child].start);
  }

  lemma DeathKeepsExact(f: Family, pid: Pid)
    requires Inv(f) && pid in f.stacks && Exact(f.mem, f.heapEnd) && StacksAboveHeap(f)
    ensures Exact(Next(f, Death(pid)).mem, Next(f, Death(pid)).heapEnd)
  {
    hide Sound;
    hide CleanUp;
    DeathGivesBack(f, pid);
    SlotStart(f.stacks[pid].start);
    var g := Next(f, Death(pid));
    forall p: nat | HEAP_START_PAGE <= p <= HEAP_START_PAGE + HEAP_PAGES
      ensures p in g.mem.pages <==> InHeap(g.heapEnd, p)
    {
      assert !Owns(f, StackOf(pid), p);
      if p in f.mem.pages {
        assert Owns(f, HeapOwner, p);
        assert |f.stacks| != 1 ==> !GivenBack(f, pid, p);
      }
    }
  }

  lemma BreakKeepsExact(f: Family, step: Step)
    requires Inv(f) && step.Break? && Steady(f, step) && Exact(f.mem, f.heapEnd)
    ensures Exact(Next(f, step).mem, Next(f, step).heapEnd)
  {
    hide Sound;
    hide Exact;
    if step.newEnd.Some? && ValidEnd(step.newEnd.value) {
      BrkKeepsExact(f.mem, f.held, f.heapEnd, step.newEnd.value);
      BrkGrows(f.mem, f.held, f.heapEnd, step.newEnd.value);
    }
  }

  ghost predicate SteadyRun(f: Family, steps: seq<Step>)
    decreases steps
  {
    StacksAboveHeap(f) && (steps == [] || (Steady(f, steps[0]) && SteadyRun(Next(f, steps[0]), steps[1..])))
  }

  /** Through any run with stacks above the heap and no shrinking or failing `brk`, the
    * heap's area is mapped exactly as the shared end says. */
  lemma {:induction false} FamilyHeapStaysExact(f: Family, steps: seq<Step>)
    requires Inv(f) && Allowed(f, steps) && SteadyRun(f, steps) && Exact(f.mem, f.heapEnd)
    ensures Exact(Run(f, steps).mem, Run(f, steps).heapEnd)
    decreases steps
  {
    hide Inv;
    hide Exact;
    hide StacksAboveHeap;
    if steps != [] {
      var g := Next(f, steps[0]);
      assert SteadyRun(g, steps[1..]);
      match steps[0] {
        case Fork(parent, child, count) => ForkKeepsExact(f, parent, child, count);
        case Fault(pid, addr) => FaultKeepsExact(f, pid, addr);
        case Break(_, _) => BreakKeepsExact(f, steps[0]);
        case Death(pid) => DeathKeepsExact(f, pid);
        case OtherAllocates => ExactOfPages(f.mem, g.mem, f.heapEnd);
        case OtherFrees(_) => ExactOfPages(f.mem, g.mem, f.heapEnd);
      }
      StepKeepsInv(f, steps[0]);
      FamilyHeapStaysExact(g, steps[1..]);
    }
  }

  lemma ExactOfPages(m: Mem, t: Mem, end: nat)
    requires Exact(m, end) && t.pages == m.pages
    ensures Exact(t, end)
  {
  }
}
