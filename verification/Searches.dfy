/** When the search of fork for a free slot returns. A search that does not return stops
  * the kernel. */
module Searches {
  import opened Common
  import opened Frames
  import opened Paging
  import opened Stacks
  import opened Families

  // ---- The condition -----------------------------------------------------------------------------

  /** The unmapped pages in front of the first mapped one among `n` pages from `lo`. */
  ghost function Gap(pages: map<nat, Mapping>, lo: nat, n: nat): (d: nat)
    ensures d <= n && forall p | lo <= p < lo + d :: p !in pages
    ensures d < n ==> lo + d in pages
    decreases n
  {
    if n == 0 || lo in pages then 0 else 1 + Gap(pages, lo + 1, n - 1)
  }

  ghost predicate IsFree(pages: map<nat, Mapping>, lo: nat, n: nat) {
    forall p | lo <= p < lo + n :: p !in pages
  }

  /** The place that is tried after `j` failures. */
  ghost function Try(top: nat, j: nat): int { top - j * SLOT_PAGES }

  /** The range is free at the `k`-th place below `top` and at none above that, and it can
    * be formed at all of them. */
  ghost predicate FirstFree(pages: map<nat, Mapping>, usage: nat, top: nat, k: nat) {
    && Try(top, k) >= 0 && IsFree(pages, Try(top, k), usage)
    && (forall j: nat | j < k :: Try(top, j) >= 0 && !IsFree(pages, Try(top, j), usage))
    && (forall j: nat | j <= k :: Try(top, j) >= 0 && Formable(Try(top, j), usage))
  }

  /** The frames that the search takes: for each failed try the gap in front of the first
    * mapped page, with its tables, and one frame that is lost; and then the range itself. */
  ghost function SearchNeeds(have: set<Table>, pages: map<nat, Mapping>, usage: nat, top: nat, k: nat): nat
    requires Try(top, k) >= 0
    decreases k
  {
    if k == 0 then Needed(have, top, usage)
    else
      var d := Gap(pages, top, usage);
      Needed(have, top, d) + 1 + SearchNeeds(have + TablesOn(top, d), pages, usage, top - SLOT_PAGES, k - 1)
  }

  // ---- One try -----------------------------------------------------------------------------------

  lemma FreeTry(m: Mem, held: set<Frame>, usage: nat, top: nat)
    requires Sound(m, held) && IsFree(m.pages, top, usage)
    ensures var (t, r) := MapRange(m, top, usage, USER_FLAGS);
      && (r.Mapped? <==> m.alloc.Available() >= Needed(m.tables.Keys, top, usage))
      && (r.Mapped? ==> t.alloc.Available() == m.alloc.Available() - Needed(m.tables.Keys, top, usage))
      && (!r.Mapped? ==> t.alloc.Available() == 0)
  {
    hide Sound;
    hide MapRange;
    hide Needed;
    MapRangeSucceeds(m, top, usage, USER_FLAGS);
    var done := MapRangeEffect(m, held, top, usage, USER_FLAGS);
    if !MapRange(m, top, usage, USER_FLAGS).1.Mapped? {
      OutOfFrames(m, top, usage, USER_FLAGS);
    }
  }

  /** A try that meets a mapped page behind a gap. */
  lemma TakenTry(m: Mem, held: set<Frame>, usage: nat, top: nat)
    requires Sound(m, held) && Gap(m.pages, top, usage) < usage
    ensures var (t, r) := MapRange(m, top, usage, USER_FLAGS);
      var d := Gap(m.pages, top, usage);
      && !r.Mapped?
      && (m.alloc.Available() <= Needed(m.tables.Keys, top, d) ==> t.alloc.Available() == 0)
      && (m.alloc.Available() > Needed(m.tables.Keys, top, d) ==>
            && Sound(t, held) && Extends(m, t, top, d, USER_FLAGS) && t.tables.Keys == m.tables.Keys + TablesOn(top, d)
            && t.alloc.Available() == m.alloc.Available() - Needed(m.tables.Keys, top, d) - 1)
  {
    hide Sound;
    hide MapRange;
    hide Needed;
    hide Extends;
    hide TablesOn;
    var d := Gap(m.pages, top, usage);
    MapRangeSucceeds(m, top, usage, USER_FLAGS);
    MapRangeSplits(m, top, d, usage, USER_FLAGS);
    MapRangeSucceeds(m, top, d, USER_FLAGS);
    FreeTry(m, held, d, top);
    var (u, r) := MapRange(m, top, d, USER_FLAGS);
    if m.alloc.Available() > Needed(m.tables.Keys, top, d) {
      MapRangeStopsAt(m, held, top, usage, d, USER_FLAGS);
      var done := MapRangeEffect(m, held, top, d, USER_FLAGS);
      MapRangeRefused(u, held, top + d, usage - d, USER_FLAGS);
    } else if r.Mapped? {
      NoFrameForRange(u, top + d, usage - d, USER_FLAGS);
    }
  }

  lemma NoFrameForRange(m: Mem, lo: nat, n: nat, flags: Flags)
    requires m.alloc.Available() == 0 && n > 0
    ensures MapRange(m, lo, n, flags).1.FrameAllocationFailed? && MapRange(m, lo, n, flags).0.alloc.Available() == 0
  {
  }

  // ---- The whole search --------------------------------------------------------------------------

  /** Without a free frame the search goes on until no range can be formed. */
  lemma {:induction false} NoFramesStopTheKernel(m: Mem, usage: nat, top: nat)
    requires m.alloc.Available() == 0 && usage >= 1
    ensures FindSlot(m, usage, top).None?
    decreases SearchRank(top)
  {
    if Formable(top, usage) {
      NoFrameForRange(m, top, usage, USER_FLAGS);
      NoFramesStopTheKernel(MapRange(m, top, usage, USER_FLAGS).0, usage, SlotBelow(top));
    }
  }

  lemma FirstFreeBelow(pages: map<nat, Mapping>, usage: nat, top: nat, k: nat)
    requires k > 0
    ensures FirstFree(pages, usage, top, k) <==>
        && top >= SLOT_PAGES && Formable(top, usage) && !IsFree(pages, top, usage)
        && FirstFree(pages, usage, top - SLOT_PAGES, k - 1)
  {
    hide IsFree;
    hide Formable;
    if top >= SLOT_PAGES {
      var low := top - SLOT_PAGES;
      assert Try(top, 0) == top && Try(top, 1) == low;
      assert forall j: nat :: Try(low, j) == Try(top, j + 1);
      assert forall j: nat | j > 0 :: Try(top, j) == Try(low, j - 1);
    } else {
      assert Try(top, k) < 0;
    }
  }

  lemma {:induction false} SameGap(pages: map<nat, Mapping>, pages': map<nat, Mapping>, lo: nat, n: nat)
    requires forall p | p < lo + n :: p in pages <==> p in pages'
    ensures Gap(pages, lo, n) == Gap(pages', lo, n)
    decreases n
  {
    if n > 0 {
      SameGap(pages, pages', lo + 1, n - 1);
    }
  }

  /** The search depends on the pages below the end of its first range only. */
  lemma {:induction false} SameSearch(have: set<Table>, pages: map<nat, Mapping>, pages': map<nat, Mapping>,
                                      usage: nat, top: nat, k: nat)
    requires forall p | p < top + usage :: p in pages <==> p in pages'
    ensures FirstFree(pages, usage, top, k) <==> FirstFree(pages', usage, top, k)
    ensures Try(top, k) >= 0 ==>
        SearchNeeds(have, pages, usage, top, k) == SearchNeeds(have, pages', usage, top, k)
    decreases k
  {
    hide Needed;
    hide TablesOn;
    hide Gap;
    hide Formable;
    SameGap(pages, pages', top, usage);
    if k == 0 {
      assert IsFree(pages, top, usage) <==> IsFree(pages', top, usage);
    } else {
      hide FirstFree;
      FirstFreeBelow(pages, usage, top, k);
      FirstFreeBelow(pages', usage, top, k);
      if top >= SLOT_PAGES {
        SameSearch(have + TablesOn(top, Gap(pages, top, usage)), pages, pages', usage, top - SLOT_PAGES, k - 1);
      }
    }
  }

  lemma GapOfTaken(pages: map<nat, Mapping>, lo: nat, n: nat)
    ensures Gap(pages, lo, n) < n <==> !IsFree(pages, lo, n)
  {
  }

  /** The search at a range with a mapped page: it goes on below, or has run out of frames. */
  lemma TakenSearch(m: Mem, held: set<Frame>, usage: nat, top: nat)
    requires Sound(m, held) && 1 <= usage <= SLOT_PAGES && Formable(top, usage) && !IsFree(m.pages, top, usage)
    ensures var t := MapRange(m, top, usage, USER_FLAGS).0;
      var d := Gap(m.pages, top, usage);
      && FindSlot(m, usage, top) == FindSlot(t, usage, SlotBelow(top))
      && (m.alloc.Available() <= Needed(m.tables.Keys, top, d) ==> FindSlot(m, usage, top).None?)
      && (m.alloc.Available() > Needed(m.tables.Keys, top, d) ==>
            && Sound(t, held) && t.tables.Keys == m.tables.Keys + TablesOn(top, d)
            && (forall p | p < top :: p in t.pages <==> p in m.pages)
            && t.alloc.Available() == m.alloc.Available() - Needed(m.tables.Keys, top, d) - 1)
  {
    hide Sound;
    hide MapRange;
    hide Needed;
    hide TablesOn;
    GapOfTaken(m.pages, top, usage);
    hide Gap;
    TakenTry(m, held, usage, top);
    if m.alloc.Available() <= Needed(m.tables.Keys, top, Gap(m.pages, top, usage)) {
      NoFramesStopTheKernel(MapRange(m, top, usage, USER_FLAGS).0, usage, SlotBelow(top));
    }
  }

  /** Where the first free range is at the `k`-th place, the search ends there exactly when
    * there are frames for it. */
  lemma {:induction false} SearchEndsAt(m: Mem, held: set<Frame>, usage: nat, top: nat, k: nat)
    requires Sound(m, held) && 1 <= usage <= SLOT_PAGES && FirstFree(m.pages, usage, top, k)
    ensures var r := FindSlot(m, usage, top);
      var needs := SearchNeeds(m.tables.Keys, m.pages, usage, top, k);
      && (r.Some? <==> m.alloc.Available() >= needs)
      && (r.Some? ==> r.value.1 == Try(top, k) && r.value.0.alloc.Available() == m.alloc.Available() - needs)
    decreases k
  {
    hide Sound;
    hide MapRange;
    hide Needed;
    hide TablesOn;
    hide Gap;
    hide IsFree;
    if k == 0 {
      assert Try(top, 0) == top;
      FreeTry(m, held, usage, top);
      NoFramesAfterFreeTry(m, held, usage, top);
    } else {
      FirstFreeBelow(m.pages, usage, top, k);
      hide FirstFree;
      TakenSearch(m, held, usage, top);
      hide FindSlot;
      var t, d := MapRange(m, top, usage, USER_FLAGS).0, Gap(m.pages, top, usage);
      assert Try(top, k) == Try(top - SLOT_PAGES, k - 1);
      if m.alloc.Available() > Needed(m.tables.Keys, top, d) {
        assert SlotBelow(top) == top - SLOT_PAGES;
        SameSearch(m.tables.Keys + TablesOn(top, d), m.pages, t.pages, usage, top - SLOT_PAGES, k - 1);
        SearchEndsAt(t, held, usage, top - SLOT_PAGES, k - 1);
      }
    }
  }

  lemma NoFramesAfterFreeTry(m: Mem, held: set<Frame>, usage: nat, top: nat)
    requires Sound(m, held) && 1 <= usage && IsFree(m.pages, top, usage)
    ensures !MapRange(m, top, usage, USER_FLAGS).1.Mapped? ==> FindSlot(m, usage, top).None?
  {
    hide Sound;
    hide MapRange;
    hide Needed;
    FreeTry(m, held, usage, top);
    if !MapRange(m, top, usage, USER_FLAGS).1.Mapped? {
      NoFramesStopTheKernel(MapRange(m, top, usage, USER_FLAGS).0, usage, SlotBelow(top));
    }
  }

  /** A search that returns had a first free range. */
  lemma {:induction false} SearchFinds(m: Mem, held: set<Frame>, usage: nat, top: nat) returns (k: nat)
    requires Sound(m, held) && 1 <= usage <= SLOT_PAGES && (top + usage) % SLOT_PAGES == 0
    requires FindSlot(m, usage, top).Some?
    ensures FirstFree(m.pages, usage, top, k)
    decreases SearchRank(top)
  {
    hide Sound;
    hide MapRange;
    hide Needed;
    hide TablesOn;
    hide Gap;
    if IsFree(m.pages, top, usage) {
      k := 0;
      assert Try(top, 0) == top;
    } else {
      hide IsFree;
      hide FirstFree;
      TakenSearch(m, held, usage, top);
      var t := MapRange(m, top, usage, USER_FLAGS).0;
      SearchStaysInHalf(t, usage, top);
      hide FindSlot;
      var j := SearchFinds(t, held, usage, top - SLOT_PAGES);
      k := j + 1;
      SameSearch({}, m.pages, t.pages, usage, top - SLOT_PAGES, j);
      FirstFreeBelow(m.pages, usage, top, k);
    }
  }

  /** The search of a stack that ends a slot returns exactly when, going down by slots, it
    * meets a free range before one that cannot be formed, and there are frames for it and
    * for what the failed tries take. In all other cases the kernel stops. */
  lemma SearchReturnsIff(m: Mem, held: set<Frame>, usage: nat, top: nat)
    requires Sound(m, held) && 1 <= usage <= SLOT_PAGES && (top + usage) % SLOT_PAGES == 0
    ensures FindSlot(m, usage, top).Some? <==>
        exists k: nat :: FirstFree(m.pages, usage, top, k)
          && m.alloc.Available() >= SearchNeeds(m.tables.Keys, m.pages, usage, top, k)
  {
    hide Sound;
    hide FindSlot;
    hide FirstFree;
    hide SearchNeeds;
    FirstFreeIsInReach(m.pages, usage, top);
    if FindSlot(m, usage, top).Some? {
      var k := SearchFinds(m, held, usage, top);
      SearchEndsAt(m, held, usage, top, k);
    } else {
      forall k: nat | FirstFree(m.pages, usage, top, k)
        ensures m.alloc.Available() < SearchNeeds(m.tables.Keys, m.pages, usage, top, k)
      {
        SearchEndsAt(m, held, usage, top, k);
      }
    }
  }

  lemma FirstFreeIsInReach(pages: map<nat, Mapping>, usage: nat, top: nat)
    ensures forall k: nat | FirstFree(pages, usage, top, k) :: Try(top, k) >= 0
  {
    hide IsFree;
    hide Formable;
  }

  // ---- With frames to spare ----------------------------------------------------------------------

  /** Some range in reach is free: all down to it can be formed. */
  ghost predicate FreeInReach(pages: map<nat, Mapping>, usage: nat, top: nat, k: nat) {
    && Try(top, k) >= 0 && IsFree(pages, Try(top, k), usage)
    && (forall j: nat | j <= k :: Try(top, j) >= 0 && Formable(Try(top, j), usage))
  }

  lemma {:induction false} FirstOf(pages: map<nat, Mapping>, usage: nat, top: nat, k: nat) returns (first: nat)
    requires FreeInReach(pages, usage, top, k)
    ensures first <= k && FirstFree(pages, usage, top, first)
    decreases k
  {
    hide IsFree;
    hide Formable;
    hide Try;
    if j: nat :| j < k && IsFree(pages, Try(top, j), usage) {
      first := FirstOf(pages, usage, top, j);
    } else {
      first := k;
    }
  }

  /** Every try takes at most four frames for each page. */
  lemma {:induction false} SearchNeedsAtMost(have: set<Table>, pages: map<nat, Mapping>, usage: nat, top: nat, k: nat)
    requires FirstFree(pages, usage, top, k)
    ensures SearchNeeds(have, pages, usage, top, k) <= 4 * usage * (k + 1)
    decreases k
  {
    hide Needed;
    hide TablesOn;
    hide IsFree;
    if k == 0 {
      NeededAtMost(have, top, usage);
    } else {
      FirstFreeBelow(pages, usage, top, k);
      hide FirstFree;
      var d := Gap(pages, top, usage);
      GapOfTaken(pages, top, usage);
      NeededAtMost(have, top, d);
      SearchNeedsAtMost(have + TablesOn(top, d), pages, usage, top - SLOT_PAGES, k - 1);
      assert 4 * usage * (k + 1) == 4 * usage * k + 4 * usage;
    }
  }

  /** With frames for as many tries as there are slots, free ranges are all that matters. */
  lemma SearchReturnsIffFree(m: Mem, held: set<Frame>, usage: nat, top: nat)
    requires Sound(m, held) && 1 <= usage <= SLOT_PAGES && (top + usage) % SLOT_PAGES == 0
    requires m.alloc.Available() >= 4 * usage * (top / SLOT_PAGES + 1)
    ensures FindSlot(m, usage, top).Some? <==> exists k: nat :: FreeInReach(m.pages, usage, top, k)
  {
    hide Sound;
    hide FindSlot;
    hide SearchNeeds;
    hide IsFree;
    hide Formable;
    if FindSlot(m, usage, top).Some? {
      var k := SearchFinds(m, held, usage, top);
      assert FreeInReach(m.pages, usage, top, k);
    } else if k: nat :| FreeInReach(m.pages, usage, top, k) {
      var first := FirstOf(m.pages, usage, top, k);
      SearchNeedsAtMost(m.tables.Keys, m.pages, usage, top, first);
      assert Try(top, first) >= 0;
      assert first <= top / SLOT_PAGES;
      TriesAreMonotone(usage, first, top / SLOT_PAGES);
      SearchEndsAt(m, held, usage, top, first);
    }
  }

  lemma TriesAreMonotone(usage: nat, k: nat, n: nat)
    requires k <= n
    ensures 4 * usage * (k + 1) <= 4 * usage * (n + 1)
  {
  }

  // ---- Fork --------------------------------------------------------------------------------------

  /** When fork returns at all. */
  ghost predicate ForkReturns(m: Mem, st: Stack, count: nat) {
    exists k: nat :: FirstFree(m.pages, st.usage, FirstTry(st, count), k)
      && m.alloc.Available() >= SearchNeeds(m.tables.Keys, m.pages, st.usage, FirstTry(st, count), k)
  }

  lemma ForkReturnsIff(m: Mem, held: set<Frame>, st: Stack, count: nat)
    requires Sound(m, held) && Live(st)
    ensures ForkStack(m, st, count).Some? <==> ForkReturns(m, st, count)
  {
    hide Sound;
    hide FindSlot;
    hide FirstFree;
    hide SearchNeeds;
    FirstTryIsAligned(st, count);
    hide FirstTry;
    FirstFreeIsInReach(m.pages, st.usage, FirstTry(st, count));
    SearchReturnsIff(m, held, st.usage, FirstTry(st, count));
  }

  const FIRST_STACK: Stack := Stack(STACK_MAX_PAGE - 1, STACK_MAX_PAGE, 1)

  /** A process with the first stack and 0x4000 children stops the kernel by forking. */
  lemma ManyChildrenStopTheKernel(m: Mem)
    ensures ForkStack(m, FIRST_STACK, 0x4000).None?
  {
    assert STACK_MAX_PAGE == 0x4000 * SLOT_PAGES;
    FirstTryIs(FIRST_STACK, 0x4000);
  }

  /** With one child more, and its page free in the last slot where a range can be formed,
    * the child gets a stack above its parent's. */
  lemma ChildAboveItsParent(m: Mem, held: set<Frame>)
    requires Sound(m, held) && m.alloc.Available() >= 4 && PAGE_MODULUS - SLOT_PAGES - 1 !in m.pages
    ensures var r := ForkStack(m, FIRST_STACK, 0x4001);
      r.Some? && r.value.1 == Stack(PAGE_MODULUS - SLOT_PAGES - 1, PAGE_MODULUS - SLOT_PAGES, 1)
  {
    hide Sound;
    hide FindSlot;
    hide Needed;
    var top := PAGE_MODULUS - SLOT_PAGES - 1;
    assert STACK_MAX_PAGE == 0x4000 * SLOT_PAGES;
    FirstTryIs(FIRST_STACK, 0x4001);
    assert FirstTry(FIRST_STACK, 0x4001) == top;
    NeededAtMost(m.tables.Keys, top, 1);
    assert Try(top, 0) == top && Formable(top, 1);
    SearchEndsAt(m, held, 1, top, 0);
  }

  // ---- Families ----------------------------------------------------------------------------------

  /** In every reachable family a fork returns exactly under this condition; otherwise the
    * kernel stops. */
  lemma FamilyForkReturnsIff(f: Family, steps: seq<Step>, parent: Pid, count: nat)
    requires Inv(f) && Allowed(f, steps) && parent in Run(f, steps).stacks
    ensures var g := Run(f, steps);
      ForkStack(g.mem, g.stacks[parent], count).Some? <==> ForkReturns(g.mem, g.stacks[parent], count)
  {
    hide ForkStack;
    hide ForkReturns;
    RunKeepsInv(f, steps);
    ForkReturnsIff(Run(f, steps).mem, Run(f, steps).held, Run(f, steps).stacks[parent], count);
  }

  /** `n` forks of one process in a row; it has `count` children before. */
  ghost function Forks(parent: Pid, child: Pid, count: nat, n: nat): seq<Step>
    decreases n
  {
    if n == 0 then [] else [Fork(parent, child, count)] + Forks(parent, child + 1, count + 1, n - 1)
  }

  /** A fork that returns has taken a frame. */
  lemma ForkTakesFrames(m: Mem, held: set<Frame>, st: Stack, count: nat)
    requires Sound(m, held) && Live(st) && ForkStack(m, st, count).Some?
    ensures ForkStack(m, st, count).value.0.alloc.Available() < m.alloc.Available()
  {
    hide Sound;
    hide FindSlot;
    hide FirstFree;
    FirstTryIsAligned(st, count);
    hide FirstTry;
    var k := SearchFinds(m, held, st.usage, FirstTry(st, count));
    SearchEndsAt(m, held, st.usage, FirstTry(st, count), k);
    assert SearchNeeds(m.tables.Keys, m.pages, st.usage, FirstTry(st, count), k) >= 1;
  }

  /** A process that only forks stops the kernel: after as many forks as there were free
    * frames at most, and with as many children as slots up to its own at most. */
  lemma {:induction false} ForkingStopsTheKernel(f: Family, parent: Pid, child: Pid, count: nat) returns (n: nat)
    requires Inv(f) && parent in f.stacks && f.stacks[parent].end <= LOW_END
    requires (forall pid | pid in f.stacks :: pid < child) && f.loader < child
    requires count <= SlotsUpTo(f.stacks[parent])
    ensures n <= f.mem.alloc.Available() && count + n <= SlotsUpTo(f.stacks[parent])
    ensures Allowed(f, Forks(parent, child, count, n))
    ensures var g := Run(f, Forks(parent, child, count, n));
      parent in g.stacks && ForkStack(g.mem, g.stacks[parent], count + n).None?
    decreases f.mem.alloc.Available()
  {
    hide ForkStack;
    hide Inv;
    var step, st := Fork(parent, child, count), f.stacks[parent];
    if ForkStack(f.mem, st, count).None? {
      n := 0;
    } else {
      FamilyForkTakesFrames(f, parent, count);
      StepKeepsInv(f, step);
      var rest := ForkingStopsTheKernel(Next(f, step), parent, child + 1, count + 1);
      n := rest + 1;
      assert Forks(parent, child, count, n)[0] == step;
      assert Forks(parent, child, count, n)[1..] == Forks(parent, child + 1, count + 1, rest);
    }
  }

  lemma FamilyForkTakesFrames(f: Family, parent: Pid, count: nat)
    requires Inv(f) && parent in f.stacks && f.stacks[parent].end <= LOW_END
    requires ForkStack(f.mem, f.stacks[parent], count).Some? && count < 0x1_0000
    ensures ForkStack(f.mem, f.stacks[parent], count).value.0.alloc.Available() < f.mem.alloc.Available()
    ensures count != SlotsUpTo(f.stacks[parent])
  {
    hide ForkStack;
    StackIsMapped(f, parent);
    ForkTakesFrames(f.mem, f.held, f.stacks[parent], count);
    ForkGoesBelowIff(f.mem, f.held, f.stacks[parent], count);
  }
}
