/** When page faults on stacks are served. A refused one stops the kernel. */
module Faults {
  import opened Common
  import opened Frames
  import opened Paging
  import opened Stacks
  import opened Heaps
  import opened Families

  /** The slots between the heap's area and the top of the stacks. */
  ghost predicate InStackArea(page: nat) { HEAP_START_PAGE + HEAP_PAGES < page < STACK_MAX_PAGE }

  /** Every mapped page of the stack area is on a live stack. */
  ghost predicate Tidy(f: Family) {
    forall p | p in f.mem.pages && InStackArea(p) :: OnSomeStack(f, p)
  }

  ghost predicate SlotInArea(st: Stack) {
    HEAP_START_PAGE + HEAP_PAGES < SlotOf(st.start) * SLOT_PAGES && st.end <= STACK_MAX_PAGE
  }

  /** In a tidy family the mapped pages of a live stack's slot belong to the stack. */
  lemma SlotBelongsToStack(f: Family, pid: Pid, page: nat)
    requires Inv(f) && Tidy(f) && pid in f.stacks && SlotInArea(f.stacks[pid])
    requires page in f.mem.pages && SlotOf(page) == SlotOf(f.stacks[pid].start)
    ensures f.stacks[pid].start <= page < f.stacks[pid].end
  {
    hide Sound;
    LiveEndsSlot(f.stacks[pid]);
    assert InStackArea(page);
    var q :| Owns(f, StackOf(q), page);
    LiveEndsSlot(f.stacks[q]);
    assert SlotOf(f.stacks[q].start) == SlotOf(page) by {
      SameSlot(f.stacks[q], page);
    }
    OneStackPerSlot(f, pid, q);
  }

  lemma SameSlot(st: Stack, page: nat)
    requires Live(st) && st.start <= page < st.end
    ensures SlotOf(page) == SlotOf(st.start)
  {
    LiveEndsSlot(st);
  }

  /** So there a fault is served exactly when there are frames for it. */
  lemma TidyFaultIsServedIff(f: Family, pid: Pid, addr: nat)
    requires Inv(f) && Tidy(f) && Possible(f, Fault(pid, addr))
    requires SlotInArea(f.stacks[pid]) && InSlot(f.stacks[pid], addr)
    ensures var st := f.stacks[pid];
      HandleFault(f.mem, st, addr, true).2.Grown? <==>
        f.mem.alloc.Available() >= FaultNeeds(f.mem, st, addr)
  {
    hide Sound;
    hide HandleFault;
    hide Needed;
    var st, lo := f.stacks[pid], addr / PAGE_SIZE;
    StackIsMapped(f, pid);
    FaultIsBelowStack(f.mem, st, addr);
    FaultIsServedIff(f.mem, st, addr, true);
    forall p | lo <= p < st.start ensures p !in f.mem.pages {
      if p in f.mem.pages {
        BetweenIsInSlot(lo, p, st.start);
        SlotBelongsToStack(f, pid, p);
      }
    }
  }

  lemma BetweenIsInSlot(lo: nat, p: nat, hi: nat)
    requires lo <= p <= hi && SlotOf(lo) == SlotOf(hi)
    ensures SlotOf(p) == SlotOf(hi)
  {
  }

  // ---- Runs that keep a family tidy ----------------------------------------------------------------

  /** The search of fork meets, before the slot it takes, only slots that hold a page at
    * the start of the range: the slots of stacks at least as deep as the parent's. */
  ghost predicate CleanSearch(m: Mem, st: Stack, count: nat, k: nat) {
    var top := FirstTry(st, count);
    && k * SLOT_PAGES <= top
    && (forall j: nat | j < k :: top - j * SLOT_PAGES in m.pages)
    && (forall j: nat | j <= k :: Formable(top - j * SLOT_PAGES, st.usage))
    && (forall p | top - k * SLOT_PAGES <= p < top - k * SLOT_PAGES + st.usage :: p !in m.pages)
    && m.alloc.Available() >= k + Needed(m.tables.Keys, top - k * SLOT_PAGES, st.usage)
  }

  /** Steps that leave no stray pages: forks with a clean search, and faults that are
    * served or are not for the stack. */
  ghost predicate Smooth(f: Family, step: Step) {
    match step
    case Fork(parent, _, count) => parent in f.stacks && exists k: nat :: CleanSearch(f.mem, f.stacks[parent], count, k)
    case Fault(pid, addr) =>
      pid in f.stacks && var r := HandleFault(f.mem, f.stacks[pid], addr, true).2; r.Grown? || r.Elsewhere?
    case _ => true
  }

  lemma ForkStaysTidy(f: Family, parent: Pid, child: Pid, count: nat)
    requires Inv(f) && Tidy(f) && Possible(f, Fork(parent, child, count)) && Smooth(f, Fork(parent, child, count))
    ensures Tidy(Next(f, Fork(parent, child, count)))
  {
    hide Sound;
    hide ForkStack;
    hide CleanSearch;
    var st, g := f.stacks[parent], Next(f, Fork(parent, child, count));
    var k: nat :| CleanSearch(f.mem, st, count, k);
    CleanForkExtends(f.mem, f.held, st, count, k);
    forall p | p in g.mem.pages && InStackArea(p) ensures OnSomeStack(g, p) {
      if p in f.mem.pages {
        var q :| Owns(f, StackOf(q), p);
        assert Owns(g, StackOf(q), p);
      } else {
        assert Owns(g, StackOf(child), p);
      }
    }
  }

  /** A fork with a clean search maps the child's stack and nothing else. */
  lemma CleanForkExtends(m: Mem, held: set<Frame>, st: Stack, count: nat, k: nat)
    requires Sound(m, held) && Live(st) && CleanSearch(m, st, count, k)
    ensures ForkStack(m, st, count).Some?
    ensures var (t, child) := ForkStack(m, st, count).value;
      && child.end == child.start + child.usage && child.usage == st.usage
      && Extends(m, t, child.start, child.usage, USER_FLAGS)
  {
    hide Sound;
    hide FindSlot;
    hide Needed;
    hide Extends;
    hide FirstTry;
    hide Formable;
    FindSlotTakesFirstFree(m, held, st.usage, FirstTry(st, count), k);
  }

  lemma FaultStaysTidy(f: Family, pid: Pid, addr: nat)
    requires Inv(f) && Tidy(f) && Possible(f, Fault(pid, addr)) && Smooth(f, Fault(pid, addr))
    ensures Tidy(Next(f, Fault(pid, addr)))
  {
    hide Sound;
    hide MapRange;
    var st, g := f.stacks[pid], Next(f, Fault(pid, addr));
    StackIsMapped(f, pid);
    OnStackIffInSlot(st, addr);
    if IsOnStack(st, addr) {
      FaultIsBelowStack(f.mem, st, addr);
      var lo := addr / PAGE_SIZE;
      var done := MapRangeEffect(f.mem, f.held, lo, st.start - lo, USER_FLAGS);
      forall p | p in g.mem.pages && InStackArea(p) ensures OnSomeStack(g, p) {
        if p in f.mem.pages {
          var q :| Owns(f, StackOf(q), p);
          assert Owns(g, StackOf(q), p);
        } else {
          assert Owns(g, StackOf(pid), p);
        }
      }
    }
  }

  lemma BreakStaysTidy(f: Family, pid: Pid, newEnd: Option<nat>)
    requires Inv(f) && Tidy(f)
    ensures Tidy(Next(f, Break(pid, newEnd)))
  {
    hide Sound;
    hide MapRange;
    var g := Next(f, Break(pid, newEnd));
    forall p | p in g.mem.pages && InStackArea(p) ensures OnSomeStack(g, p) {
      if newEnd.Some? && ValidEnd(newEnd.value) {
        var lo, n := EndPage(f.heapEnd), GrowthOf(f.heapEnd, newEnd.value);
        EndPageBounds(newEnd.value);
        var done := MapRangeEffect(f.mem, f.held, lo, n, USER_FLAGS);
      }
      var q :| Owns(f, StackOf(q), p);
      assert Owns(g, StackOf(q), p);
    }
  }

  lemma DeathStaysTidy(f: Family, pid: Pid)
    requires Inv(f) && Tidy(f) && pid in f.stacks
    ensures Tidy(Next(f, Death(pid)))
  {
    hide Sound;
    hide CleanUp;
    DeathGivesBack(f, pid);
    var g := Next(f, Death(pid));
    forall p | p in g.mem.pages && InStackArea(p) ensures OnSomeStack(g, p) {
      var q :| Owns(f, StackOf(q), p);
      assert q != pid && Owns(g, StackOf(q), p);
    }
  }

  lemma SmoothStaysTidy(f: Family, step: Step)
    requires Inv(f) && Tidy(f) && Possible(f, step) && Smooth(f, step)
    ensures Tidy(Next(f, step))
  {
    match step
    case Fork(parent, child, count) => ForkStaysTidy(f, parent, child, count);
    case Fault(pid, addr) => FaultStaysTidy(f, pid, addr);
    case Break(pid, newEnd) => BreakStaysTidy(f, pid, newEnd);
    case Death(pid) => DeathStaysTidy(f, pid);
    case OtherAllocates => SameStacksTidy(f, Next(f, step));
    case OtherFrees(_) => SameStacksTidy(f, Next(f, step));
  }

  lemma SameStacksTidy(f: Family, g: Family)
    requires Tidy(f) && g.mem.pages == f.mem.pages && g.stacks == f.stacks
    ensures Tidy(g)
  {
    forall p | p in g.mem.pages && InStackArea(p) ensures OnSomeStack(g, p) {
      var q :| Owns(f, StackOf(q), p);
      assert Owns(g, StackOf(q), p);
    }
  }

  ghost predicate SmoothRun(f: Family, steps: seq<Step>)
    decreases steps
  {
    steps == [] || (Smooth(f, steps[0]) && SmoothRun(Next(f, steps[0]), steps[1..]))
  }

  lemma {:induction false} RunStaysTidy(f: Family, steps: seq<Step>)
    requires Inv(f) && Tidy(f) && Allowed(f, steps) && SmoothRun(f, steps)
    ensures Inv(Run(f, steps)) && Tidy(Run(f, steps))
    decreases steps
  {
    hide Inv;
    hide Tidy;
    hide Next;
    hide Possible;
    hide Smooth;
    if steps != [] {
      SmoothStaysTidy(f, steps[0]);
      StepKeepsInv(f, steps[0]);
      RunStaysTidy(Next(f, steps[0]), steps[1..]);
    }
  }

  /** After every smooth run from a tidy family, every fault on a stack is served as long
    * as there are frames. */
  lemma FaultsAreServed(f: Family, steps: seq<Step>, pid: Pid, addr: nat)
    requires Inv(f) && Tidy(f) && Allowed(f, steps) && SmoothRun(f, steps)
    requires var g := Run(f, steps);
      Possible(g, Fault(pid, addr)) && SlotInArea(g.stacks[pid]) && InSlot(g.stacks[pid], addr)
    ensures var g := Run(f, steps);
      var st := g.stacks[pid];
      HandleFault(g.mem, st, addr, true).2.Grown? <==>
        g.mem.alloc.Available() >= FaultNeeds(g.mem, st, addr)
  {
    RunStaysTidy(f, steps);
    TidyFaultIsServedIff(Run(f, steps), pid, addr);
  }

  /** A freshly loaded process is tidy when nothing else is mapped among the stacks. */
  lemma BornIsTidy(m: Mem, held: set<Frame>, code: seq<CodeRange>, pid: Pid)
    requires Sound(m, held) && InitStack(m).2.Mapped?
    requires forall p | p in m.pages :: !InStackArea(p)
    ensures Tidy(Family(InitStack(m).0, map[pid := InitStack(m).1], HEAP_START, code, pid, held))
  {
    hide Sound;
    hide MapRange;
    var f := Family(InitStack(m).0, map[pid := InitStack(m).1], HEAP_START, code, pid, held);
    var done := MapRangeEffect(m, held, STACK_MAX_PAGE - 1, 1, USER_FLAGS);
    forall p | p in f.mem.pages && InStackArea(p) ensures OnSomeStack(f, p) {
      assert Owns(f, StackOf(pid), p);
    }
  }

  // ---- A fault that is refused ----------------------------------------------------------------------

  const TOP: nat := STACK_MAX_PAGE

  /** The mapped pages of the stack area. */
  ghost predicate AreaIs(m: Mem, s: set<nat>) {
    forall p | InStackArea(p) :: p in m.pages <==> p in s
  }

  lemma ExtendsArea(m: Mem, t: Mem, lo: nat, n: nat, flags: Flags, s: set<nat>, s': set<nat>)
    requires Extends(m, t, lo, n, flags) && AreaIs(m, s) && forall p :: p in s' <==> p in s || lo <= p < lo + n
    ensures AreaIs(t, s')
  {
  }

  /** A family of one with its first stack. */
  lemma FirstArea(f: Family)
    requires Inv(f) && Tidy(f) && f.stacks == map[f.loader := Stack(TOP - 1, TOP, 1)]
    ensures AreaIs(f.mem, {TOP - 1})
  {
    hide Sound;
    assert Owns(f, StackOf(f.loader), TOP - 1);
    forall p | InStackArea(p) && p in f.mem.pages ensures p == TOP - 1 {
      var q :| Owns(f, StackOf(q), p);
    }
  }

  /** The first child gets the slot below, after one lost frame. */
  lemma FirstFork(f: Family, b: Pid)
    requires Inv(f) && f.stacks == map[f.loader := Stack(TOP - 1, TOP, 1)] && b != f.loader
    requires AreaIs(f.mem, {TOP - 1}) && f.mem.alloc.Available() >= 100
    ensures Possible(f, Fork(f.loader, b, 0))
    ensures var g := Next(f, Fork(f.loader, b, 0));
      && g.stacks == f.stacks[b := Stack(TOP - SLOT_PAGES - 1, TOP - SLOT_PAGES, 1)] && g.loader == f.loader
      && g.held == f.held
      && AreaIs(g.mem, {TOP - 1, TOP - SLOT_PAGES - 1}) && g.mem.alloc.Available() >= f.mem.alloc.Available() - 5
  {
    hide Sound;
    hide FindSlot;
    hide Extends;
    hide Needed;
    hide MapRange;
    var m, at := f.mem, TOP - SLOT_PAGES - 1;
    assert InStackArea(TOP - 1) && InStackArea(at);
    NeededAtMost(m.tables.Keys, at, 1);
    assert forall j: nat | j <= 1 :: Formable(TOP - 1 - j * SLOT_PAGES, 1);
    FindSlotTakesFirstFree(m, f.held, 1, TOP - 1, 1);
    ExtendsArea(m, FindSlot(m, 1, TOP - 1).value.0, at, 1, USER_FLAGS, {TOP - 1}, {TOP - 1, at});
  }

  /** The parent's stack grows to three pages. */
  lemma ParentGrows(f: Family, b: Pid)
    requires Inv(f) && f.loader in f.stacks && f.stacks[f.loader] == Stack(TOP - 1, TOP, 1)
    requires AreaIs(f.mem, {TOP - 1, TOP - SLOT_PAGES - 1}) && f.mem.alloc.Available() >= 95
    ensures Possible(f, Fault(f.loader, (TOP - 3) * PAGE_SIZE))
    ensures var g := Next(f, Fault(f.loader, (TOP - 3) * PAGE_SIZE));
      && g.stacks == f.stacks[f.loader := Stack(TOP - 3, TOP, 3)] && g.loader == f.loader && g.held == f.held
      && AreaIs(g.mem, {TOP - 1, TOP - 2, TOP - 3, TOP - SLOT_PAGES - 1})
      && g.mem.alloc.Available() >= f.mem.alloc.Available() - 8
  {
    hide Sound;
    hide Needed;
    hide MapRange;
    var m := f.mem;
    assert InStackArea(TOP - 3) && InStackArea(TOP - 2);
    NeededAtMost(m.tables.Keys, TOP - 3, 2);
    MapRangeSucceeds(m, TOP - 3, 2, USER_FLAGS);
    var done := MapRangeEffect(m, f.held, TOP - 3, 2, USER_FLAGS);
    hide Extends;
    ExtendsArea(m, MapRange(m, TOP - 3, 2, USER_FLAGS).0, TOP - 3, 2, USER_FLAGS,
                {TOP - 1, TOP - SLOT_PAGES - 1}, {TOP - 1, TOP - 2, TOP - 3, TOP - SLOT_PAGES - 1});
  }

  /** The first try of the next fork stops at the first child's only page and leaves two
    * pages below it. */
  lemma StrayPages(m: Mem, held: set<Frame>)
    requires Sound(m, held) && AreaIs(m, {TOP - 1, TOP - 2, TOP - 3, TOP - SLOT_PAGES - 1})
    requires m.alloc.Available() >= 80
    ensures var (t, r) := MapRange(m, TOP - SLOT_PAGES - 3, 3, USER_FLAGS);
      && !r.Mapped? && t.pages != m.pages && Sound(t, held)
      && AreaIs(t, {TOP - 1, TOP - 2, TOP - 3, TOP - SLOT_PAGES - 1, TOP - SLOT_PAGES - 2, TOP - SLOT_PAGES - 3})
      && t.alloc.Available() >= m.alloc.Available() - 9
  {
    hide Sound;
    hide Needed;
    hide MapRange;
    hide Extends;
    var lo := TOP - SLOT_PAGES - 3;
    assert InStackArea(lo) && InStackArea(lo + 1) && InStackArea(lo + 2);
    NeededAtMost(m.tables.Keys, lo, 2);
    MapRangeStopsAt(m, held, lo, 3, 2, USER_FLAGS);
    ExtendsArea(m, MapRange(m, lo, 3, USER_FLAGS).0, lo, 2, USER_FLAGS,
                {TOP - 1, TOP - 2, TOP - 3, TOP - SLOT_PAGES - 1},
                {TOP - 1, TOP - 2, TOP - 3, TOP - SLOT_PAGES - 1, TOP - SLOT_PAGES - 2, TOP - SLOT_PAGES - 3});
  }

  /** The search of the next fork: the first try fails and the second finds its slot. */
  lemma SecondSearch(m: Mem, held: set<Frame>)
    requires Sound(m, held) && AreaIs(m, {TOP - 1, TOP - 2, TOP - 3, TOP - SLOT_PAGES - 1})
    requires m.alloc.Available() >= 80
    ensures var r := FindSlot(m, 3, TOP - SLOT_PAGES - 3);
      && r.Some? && r.value.1 == TOP - 2 * SLOT_PAGES - 3
      && TOP - SLOT_PAGES - 3 in r.value.0.pages && TOP - SLOT_PAGES - 4 !in r.value.0.pages
      && r.value.0.alloc.Available() >= m.alloc.Available() - 21
  {
    hide Sound;
    hide Needed;
    hide MapRange;
    hide Extends;
    var lo, at := TOP - SLOT_PAGES - 3, TOP - 2 * SLOT_PAGES - 3;
    StrayPages(m, held);
    var (t, r) := MapRange(m, lo, 3, USER_FLAGS);
    assert SlotBelow(lo) == at && Formable(lo, 3);
    assert FindSlot(m, 3, lo) == FindSlot(t, 3, at);
    hide FindSlot;
    hide SlotBelow;
    AreaOfSecond(t);
    hide AreaIs;
    NeededAtMost(t.tables.Keys, at, 3);
    assert forall j: nat | j <= 0 :: at - j * SLOT_PAGES == at;
    FindSlotTakesFirstFree(t, held, 3, at, 0);
    ExtendsAt(t, FindSlot(t, 3, at).value.0, at, 3, lo);
    ExtendsAt(t, FindSlot(t, 3, at).value.0, at, 3, lo - 1);
  }

  lemma ExtendsAt(m: Mem, t: Mem, lo: nat, n: nat, page: nat)
    requires Extends(m, t, lo, n, USER_FLAGS)
    ensures page in t.pages <==> page in m.pages || lo <= page < lo + n
  {
  }

  lemma AreaOfSecond(t: Mem)
    requires AreaIs(t, {TOP - 1, TOP - 2, TOP - 3, TOP - SLOT_PAGES - 1, TOP - SLOT_PAGES - 2, TOP - SLOT_PAGES - 3})
    ensures var lo, at := TOP - SLOT_PAGES - 3, TOP - 2 * SLOT_PAGES - 3;
      lo in t.pages && lo - 1 !in t.pages && forall p | at <= p < at + 3 :: p !in t.pages
  {
    var lo, at := TOP - SLOT_PAGES - 3, TOP - 2 * SLOT_PAGES - 3;
    assert InStackArea(lo) && InStackArea(lo - 1);
    forall p | at <= p < at + 3 ensures p !in t.pages {
      assert InStackArea(p);
    }
  }

  lemma SecondFork(f: Family, c: Pid)
    requires Inv(f) && f.loader in f.stacks && f.stacks[f.loader] == Stack(TOP - 3, TOP, 3)
    requires c != f.loader && c !in f.stacks
    requires AreaIs(f.mem, {TOP - 1, TOP - 2, TOP - 3, TOP - SLOT_PAGES - 1}) && f.mem.alloc.Available() >= 80
    ensures Possible(f, Fork(f.loader, c, 1))
    ensures var g := Next(f, Fork(f.loader, c, 1));
      && (forall q | q in f.stacks :: q in g.stacks && g.stacks[q] == f.stacks[q])
      && TOP - SLOT_PAGES - 3 in g.mem.pages && TOP - SLOT_PAGES - 4 !in g.mem.pages
      && g.mem.alloc.Available() >= f.mem.alloc.Available() - 21
  {
    hide Sound;
    hide FindSlot;
    SecondSearch(f.mem, f.held);
    hide AreaIs;
    assert FirstTry(f.stacks[f.loader], 1) == TOP - SLOT_PAGES - 3;
  }

  /** From any such family, two forks and one fault later, with frames to spare, a fault of
    * the first child one page below the stray pages is refused. */
  lemma RefusedFault(f: Family, b: Pid, c: Pid)
    requires Inv(f) && Tidy(f) && f.stacks == map[f.loader := Stack(TOP - 1, TOP, 1)]
    requires b != f.loader && c != f.loader && b != c && f.mem.alloc.Available() >= 100
    ensures var steps := [Fork(f.loader, b, 0), Fault(f.loader, (TOP - 3) * PAGE_SIZE), Fork(f.loader, c, 1)];
      var addr := (TOP - SLOT_PAGES - 4) * PAGE_SIZE;
      Allowed(f, steps) &&
      var g := Run(f, steps);
      && Possible(g, Fault(b, addr)) && InSlot(g.stacks[b], addr)
      && HandleFault(g.mem, g.stacks[b], addr, true).2.Refused?
      && g.mem.alloc.Available() >= FaultNeeds(g.mem, g.stacks[b], addr)
  {
    hide Inv;
    hide Next;
    hide Possible;
    var f1 := Next(f, Fork(f.loader, b, 0));
    var f2 := Next(f1, Fault(f.loader, (TOP - 3) * PAGE_SIZE));
    var f3 := Next(f2, Fork(f.loader, c, 1));
    FirstArea(f);
    FirstFork(f, b);
    StepKeepsInv(f, Fork(f.loader, b, 0));
    ParentGrows(f1, b);
    StepKeepsInv(f1, Fault(f.loader, (TOP - 3) * PAGE_SIZE));
    SecondFork(f2, c);
    StepKeepsInv(f2, Fork(f.loader, c, 1));
    ThreeSteps(f, Fork(f.loader, b, 0), Fault(f.loader, (TOP - 3) * PAGE_SIZE), Fork(f.loader, c, 1));
    LastFault(f3, b);
  }

  lemma LastFault(g: Family, b: Pid)
    requires Inv(g) && b in g.stacks && g.stacks[b] == Stack(TOP - SLOT_PAGES - 1, TOP - SLOT_PAGES, 1)
    requires TOP - SLOT_PAGES - 3 in g.mem.pages && TOP - SLOT_PAGES - 4 !in g.mem.pages
    requires g.mem.alloc.Available() >= 12
    ensures var addr := (TOP - SLOT_PAGES - 4) * PAGE_SIZE;
      && Possible(g, Fault(b, addr)) && InSlot(g.stacks[b], addr)
      && HandleFault(g.mem, g.stacks[b], addr, true).2.Refused?
      && g.mem.alloc.Available() >= FaultNeeds(g.mem, g.stacks[b], addr)
  {
    hide Sound;
    hide Needed;
    hide MapRange;
    var addr := (TOP - SLOT_PAGES - 4) * PAGE_SIZE;
    assert addr / PAGE_SIZE == TOP - SLOT_PAGES - 4;
    StackIsMapped(g, b);
    NeededAtMost(g.mem.tables.Keys, TOP - SLOT_PAGES - 4, 3);
    FaultIsServedIff(g.mem, g.stacks[b], addr, true);
    FaultIsBelowStack(g.mem, g.stacks[b], addr);
  }

  lemma ThreeSteps(f: Family, x: Step, y: Step, z: Step)
    requires Possible(f, x) && Possible(Next(f, x), y) && Possible(Next(Next(f, x), y), z)
    ensures Allowed(f, [x, y, z]) && Run(f, [x, y, z]) == Next(Next(Next(f, x), y), z)
  {
    hide Next;
    hide Possible;
    assert [x, y, z][1..] == [y, z] && [y, z][1..] == [z] && [z][1..] == [];
    assert Run(Next(Next(f, x), y), [z]) == Next(Next(Next(f, x), y), z);
    assert Allowed(Next(Next(f, x), y), [z]);
  }
}
