/** User stacks: one 4 GiB slot per process, grown downwards by page faults and
  * copied by fork into the next free slot below. */
module Stacks {
  import opened Common
  import opened Frames
  import opened Paging

  const SLOT_PAGES: nat := 0x10_0000
  const SLOT_SIZE: nat := 0x1_0000_0000
  const STACK_MAX_PAGE: nat := 0x4_0000_0000

  /** Page numbers of 64-bit addresses, and the ends of the two halves of canonical ones. */
  const PAGE_MODULUS: nat := 0x10_0000_0000_0000
  const LOW_END: nat := 0x8_0000_0000
  const HIGH_START: nat := 0xF_FFF8_0000_0000

  /** The page range `[start, end)` and the page count kept beside it. */
  datatype Stack = Stack(start: nat, end: nat, usage: nat)

  const USER_FLAGS: Flags := Flags(true, true, false)

  /** A live user stack: not empty, as many pages as it says, ending on a slot
    * boundary and inside one slot of the address space. */
  ghost predicate Live(st: Stack) {
    && 1 <= st.usage <= SLOT_PAGES && st.end == st.start + st.usage
    && st.end % SLOT_PAGES == 0 && st.end <= PAGE_MODULUS
  }

  ghost predicate FullyMapped(st: Stack, m: Mem) {
    forall p | st.start <= p < st.end :: p in m.pages
  }

  function SlotOf(page: nat): nat { page / SLOT_PAGES }

  /** `stack.init`: the one page below the top of the stack area. */
  function InitStack(m: Mem): (r: (Mem, Stack, MapResult)) {
    var (t, r) := MapRange(m, STACK_MAX_PAGE - 1, 1, USER_FLAGS);
    (t, Stack(STACK_MAX_PAGE - 1, STACK_MAX_PAGE, 1), r)
  }

  predicate IsOnStack(st: Stack, addr: nat) {
    addr / SLOT_SIZE == st.start * PAGE_SIZE / SLOT_SIZE
  }

  /** The length of a page range. */
  function PageCount(start: nat, end: nat): nat { if start <= end then end - start else 0 }

  datatype GrowResult = Grown | Refused(error: MapResult) | Elsewhere | Panicked

  function StackFlags(user: bool): Flags { Flags(true, user, false) }

  /** Map from the faulting page up to the stack. The distance is a subtraction of
    * pages, which panics when it would be negative. */
  function GrowStack(m: Mem, st: Stack, addr: nat, user: bool): (r: (Mem, Stack, GrowResult)) {
    var newStart := addr / PAGE_SIZE;
    if st.start < newStart then (m, st, Panicked)
    else
      var (t, r) := MapRange(m, newStart, st.start - newStart, StackFlags(user));
      if r.Mapped? then (t, Stack(newStart, st.end, PageCount(newStart, st.end)), Grown) else (t, st, Refused(r))
  }

  /** A fault is served when the answer is `Grown`. Any other answer stops the kernel. */
  function HandleFault(m: Mem, st: Stack, addr: nat, user: bool): (r: (Mem, Stack, GrowResult)) {
    if IsOnStack(st, addr) then GrowStack(m, st, addr, user) else (m, st, Elsewhere)
  }

  /** Addresses for which the range of `n` pages can be formed: start and end are
    * canonical, and the end is not beyond the address space. For other addresses the
    * kernel stops. */
  predicate Formable(lo: nat, n: nat) {
    lo + n < LOW_END || (HIGH_START <= lo && lo + n < PAGE_MODULUS)
  }

  /** One slot down, in wrapping arithmetic. */
  function SlotBelow(page: nat): nat { (page - SLOT_PAGES) % PAGE_MODULUS }

  /** What is left of a search that goes down, wraps around once and ends in the gap of
    * addresses that are not canonical. */
  function SearchRank(top: nat): nat { if top < LOW_END then PAGE_MODULUS + top else top }

  /** The retry loop of `fork`: one slot further down after every failure. `None`
    * means that the kernel has stopped. */
  function FindSlot(m: Mem, usage: nat, top: nat): (r: Option<(Mem, nat)>)
    decreases SearchRank(top)
  {
    if !Formable(top, usage) then None
    else
      var (t, r) := MapRange(m, top, usage, USER_FLAGS);
      if r.Mapped? then Some((t, top)) else FindSlot(t, usage, SlotBelow(top))
  }

  /** The first slot that fork tries. */
  function FirstTry(st: Stack, count: nat): nat { (st.start - count * SLOT_PAGES) % PAGE_MODULUS }

  function ForkStack(m: Mem, st: Stack, count: nat): (r: Option<(Mem, Stack)>) {
    match FindSlot(m, st.usage, FirstTry(st, count))
    case None => None
    case Some((t, at)) => Some((t, Stack(at, at + st.usage, st.usage)))
  }

  function CleanUpStack(m: Mem, st: Stack): (r: (Mem, Stack, bool)) {
    if st.usage == 0 then (m, st, true)
    else
      var (t, ok) := UnmapRange(m, st.start, st.usage);
      (t, if ok then st.(usage := 0) else st, ok)
  }

  /** Wrapping arithmetic on addresses. */
  function Distance(to: nat, from: nat): nat { (to - from) % WORD_MODULUS }

  function Moved(addr: nat, offset: nat): nat { (addr + offset) % WORD_MODULUS }

  /** `stack_offset`: the distance between two stacks. */
  function StackOffset(new_: Stack, old_: Stack): nat {
    Distance(new_.start * PAGE_SIZE, old_.start * PAGE_SIZE)
  }

  // ---- Page faults ---------------------------------------------------------------------

  lemma SlotOfAddress(addr: nat)
    ensures addr / SLOT_SIZE == SlotOf(addr / PAGE_SIZE)
  {
    assert SLOT_SIZE == PAGE_SIZE * SLOT_PAGES;
    var p := addr / PAGE_SIZE;
    var q := p / SLOT_PAGES;
    assert SLOT_SIZE * q <= addr < SLOT_SIZE * (q + 1);
  }

  /** The addresses of the stack's slot: the 4 GiB below the end of the stack. */
  ghost predicate InSlot(st: Stack, addr: nat) {
    st.end * PAGE_SIZE - SLOT_SIZE <= addr < st.end * PAGE_SIZE
  }

  lemma OnStackIffInSlot(st: Stack, addr: nat)
    requires Live(st)
    ensures IsOnStack(st, addr) <==> InSlot(st, addr)
  {
    var q := st.end / SLOT_PAGES;
    assert st.end == q * SLOT_PAGES && st.end * PAGE_SIZE == q * SLOT_SIZE;
    assert st.start * PAGE_SIZE / SLOT_SIZE == q - 1 by {
      assert (q - 1) * SLOT_SIZE <= st.start * PAGE_SIZE < q * SLOT_SIZE;
    }
    assert addr / SLOT_SIZE == q - 1 <==> (q - 1) * SLOT_SIZE <= addr < q * SLOT_SIZE;
  }

  /** A fault is passed on unserved, with nothing changed, exactly when its address is not
    * in the slot of the stack, however deep below the stack it may be. */
  lemma FaultIsElsewhereIff(m: Mem, st: Stack, addr: nat, user: bool)
    requires Live(st)
    ensures HandleFault(m, st, addr, user).2.Elsewhere? <==> !InSlot(st, addr)
    ensures !InSlot(st, addr) ==> HandleFault(m, st, addr, user) == (m, st, Elsewhere)
  {
    hide MapRange;
    OnStackIffInSlot(st, addr);
  }

  /** On a fault at an unmapped address of the stack's slot the page count of
    * `grow_stack` is positive: no underflow, and not an empty mapping. */
  lemma FaultIsBelowStack(m: Mem, st: Stack, addr: nat)
    requires Live(st) && FullyMapped(st, m) && InSlot(st, addr) && addr / PAGE_SIZE !in m.pages
    ensures addr / PAGE_SIZE < st.start
    ensures SlotOf(addr / PAGE_SIZE) == SlotOf(st.start)
    ensures forall user :: !GrowStack(m, st, addr, user).2.Panicked?
  {
    OnStackIffInSlot(st, addr);
    SlotOfAddress(addr);
    SlotOfAddress(st.start * PAGE_SIZE);
    assert st.start * PAGE_SIZE / PAGE_SIZE == st.start;
    assert st.end == SLOT_PAGES * (st.end / SLOT_PAGES);
    assert SlotOf(st.start) == st.end / SLOT_PAGES - 1;
  }

  /** The pages from `lo` up to the stack can be written, and by the user if asked. */
  ghost predicate Usable(pages: map<nat, Mapping>, lo: nat, hi: nat, user: bool) {
    forall p | lo <= p < hi ::
      p in pages && pages[p].flags.writable && (pages[p].flags.user <==> user) && !pages[p].flags.noExecute
  }

  /** A grown stack is live and fully mapped again, keeps its end, and can be used down to
    * the faulting page. */
  lemma GrowKeepsLive(m: Mem, held: set<Frame>, st: Stack, addr: nat, user: bool)
    requires Sound(m, held) && Live(st) && FullyMapped(st, m) && InSlot(st, addr) && addr / PAGE_SIZE !in m.pages
    ensures var (t, st', r) := HandleFault(m, st, addr, user);
      && Live(st') && FullyMapped(st', t) && st'.end == st.end && st'.start <= st.start
      && (r.Grown? ==> addr / PAGE_SIZE == st'.start && Usable(t.pages, st'.start, st.start, user))
      && (!r.Grown? ==> st' == st)
  {
    hide Sound;
    hide MapRange;
    FaultIsElsewhereIff(m, st, addr, user);
    FaultIsBelowStack(m, st, addr);
    DeeperIsLive(st, addr / PAGE_SIZE);
    hide Live;
    hide InSlot;
    hide IsOnStack;
    hide SlotOf;
    hide Extends;
    hide FullyMapped;
    hide Usable;
    var newStart := addr / PAGE_SIZE;
    var done := MapRangeEffect(m, held, newStart, st.start - newStart, StackFlags(user));
    NewPagesAreUsable(m, MapRange(m, newStart, st.start - newStart, StackFlags(user)).0, st, newStart, done, user);
  }

  lemma NewPagesAreUsable(m: Mem, t: Mem, st: Stack, lo: nat, done: nat, user: bool)
    requires lo < st.start && FullyMapped(st, m) && Extends(m, t, lo, done, StackFlags(user))
    ensures FullyMapped(st, t)
    ensures done == st.start - lo ==>
        Usable(t.pages, lo, st.start, user) && FullyMapped(Stack(lo, st.end, PageCount(lo, st.end)), t)
  {
  }

  lemma DeeperIsLive(st: Stack, newStart: nat)
    requires Live(st) && newStart < st.start && SlotOf(newStart) == SlotOf(st.start)
    ensures Live(Stack(newStart, st.end, PageCount(newStart, st.end)))
  {
    assert st.end == SLOT_PAGES * (st.end / SLOT_PAGES);
    assert SlotOf(st.start) == st.end / SLOT_PAGES - 1;
  }

  /** The frames that serving a fault takes. */
  ghost function FaultNeeds(m: Mem, st: Stack, addr: nat): nat {
    Needed(m.tables.Keys, addr / PAGE_SIZE, PageCount(addr / PAGE_SIZE, st.start))
  }

  /** A fault on the stack is served exactly when no page between the faulting one and
    * the stack is mapped and there are frames for all of them and their tables. */
  lemma FaultIsServedIff(m: Mem, st: Stack, addr: nat, user: bool)
    requires Live(st) && FullyMapped(st, m) && InSlot(st, addr) && addr / PAGE_SIZE !in m.pages
    ensures HandleFault(m, st, addr, user).2.Grown? <==>
        && (forall p | addr / PAGE_SIZE <= p < st.start :: p !in m.pages)
        && m.alloc.Available() >= FaultNeeds(m, st, addr)
  {
    hide MapRange;
    hide Needed;
    FaultIsElsewhereIff(m, st, addr, user);
    FaultIsBelowStack(m, st, addr);
    MapRangeSucceeds(m, addr / PAGE_SIZE, st.start - addr / PAGE_SIZE, StackFlags(user));
  }

  /** A stack that has been cleaned up is empty: cleaning it up again does nothing. */
  lemma CleanUpIsOnce(m: Mem, st: Stack)
    ensures var (t, st', ok) := CleanUpStack(m, st); ok ==> CleanUpStack(t, st') == (t, st', true) && st'.usage == 0
  {
    hide UnmapRange;
  }

  // ---- Fork ----------------------------------------------------------------------------

  /** Nothing mapped was changed, and what is new got frames that were free. */
  ghost predicate Grows(m: Mem, t: Mem) {
    && (forall p | p in m.pages :: p in t.pages && t.pages[p] == m.pages[p])
    && (forall p | p in t.pages && p !in m.pages :: t.pages[p].frame in m.alloc.Free())
    && t.alloc.Free() <= m.alloc.Free()
    && m.tables.Keys <= t.tables.Keys && (forall k | k in m.tables :: t.tables[k] == m.tables[k])
  }

  lemma ExtendsIsGrows(m: Mem, t: Mem, lo: nat, done: nat, flags: Flags)
    requires Extends(m, t, lo, done, flags)
    ensures Grows(m, t)
  {
  }

  lemma GrowsTransitively(m: Mem, u: Mem, t: Mem)
    requires Grows(m, u) && Grows(u, t)
    ensures Grows(m, t)
  {
  }

  lemma ExtendsIsUnmapped(m: Mem, t: Mem, lo: nat, n: nat, flags: Flags)
    requires Extends(m, t, lo, n, flags)
    ensures forall p | lo <= p < lo + n :: p !in m.pages && p in t.pages
  {
  }

  /** A failed try added only pages of its own range. */
  lemma ExtendsElsewhere(m: Mem, t: Mem, lo: nat, done: nat, at: nat, usage: nat, flags: Flags)
    requires Extends(m, t, lo, done, flags) && at + usage <= lo
    requires forall p | at <= p < at + usage :: p !in t.pages
    ensures forall p | at <= p < at + usage :: p !in m.pages
  {
  }

  /** The search ends `k` slots below its start, in a range where nothing was mapped
    * before; failed tries may only have added pages elsewhere. */
  lemma {:induction false} FindSlotEffect(m: Mem, held: set<Frame>, usage: nat, top: nat) returns (k: nat)
    requires Sound(m, held) && 1 <= usage <= SLOT_PAGES && (top + usage) % SLOT_PAGES == 0
    requires FindSlot(m, usage, top).Some?
    ensures var (t, at) := FindSlot(m, usage, top).value;
      && at == top - k * SLOT_PAGES && Formable(at, usage) && (at < LOW_END <==> top < LOW_END)
      && Sound(t, held) && Grows(m, t)
      && (forall p | at <= p < at + usage :: p !in m.pages && p in t.pages)
      && OnlyAbove(m, t, at)
    decreases SearchRank(top)
  {
    hide Sound;
    hide MapRange;
    hide Extends;
    hide Grows;
    hide OnlyAbove;
    var done := MapRangeEffect(m, held, top, usage, USER_FLAGS);
    var (t, r) := MapRange(m, top, usage, USER_FLAGS);
    ExtendsIsGrows(m, t, top, done, USER_FLAGS);
    if r.Mapped? {
      k := 0;
      ExtendsIsUnmapped(m, t, top, usage, USER_FLAGS);
      ExtendsIsAbove(m, t, t, top, done, top, USER_FLAGS);
    } else {
      SearchStaysInHalf(t, usage, top);
      var j := FindSlotEffect(t, held, usage, top - SLOT_PAGES);
      k := j + 1;
      var (u, at) := FindSlot(t, usage, top - SLOT_PAGES).value;
      GrowsTransitively(m, t, u);
      ExtendsElsewhere(m, t, top, done, at, usage, USER_FLAGS);
      ExtendsIsAbove(m, t, u, top, done, at, USER_FLAGS);
    }
  }

  /** The search of a stack that ends a slot never goes on past address zero: the range
    * there would end at 2^64. */
  lemma SearchStaysInHalf(m: Mem, usage: nat, top: nat)
    requires 1 <= usage <= SLOT_PAGES && (top + usage) % SLOT_PAGES == 0 && top < PAGE_MODULUS
    requires FindSlot(m, usage, SlotBelow(top)).Some?
    ensures top >= SLOT_PAGES && SlotBelow(top) == top - SLOT_PAGES && (top - SLOT_PAGES + usage) % SLOT_PAGES == 0
  {
    RangeBelow(usage, top);
  }

  lemma RangeBelow(usage: nat, top: nat)
    requires 1 <= usage <= SLOT_PAGES && (top + usage) % SLOT_PAGES == 0 && top < PAGE_MODULUS
    ensures top < SLOT_PAGES ==> !Formable(SlotBelow(top), usage)
    ensures top >= SLOT_PAGES ==>
        SlotBelow(top) == top - SLOT_PAGES && (top - SLOT_PAGES + usage) % SLOT_PAGES == 0
  {
    if top < SLOT_PAGES {
      assert top + usage == SLOT_PAGES;
      assert SlotBelow(top) == top - SLOT_PAGES + PAGE_MODULUS;
    }
  }

  /** No page below `at` was added. */
  ghost predicate OnlyAbove(m: Mem, t: Mem, at: nat) {
    forall p | p in t.pages && p !in m.pages :: at <= p
  }

  lemma ExtendsIsAbove(m: Mem, t: Mem, u: Mem, lo: nat, done: nat, at: nat, flags: Flags)
    requires Extends(m, t, lo, done, flags) && at <= lo && (u == t || OnlyAbove(t, u, at))
    ensures OnlyAbove(m, u, at)
  {
  }

  lemma ExtendsFrom(m: Mem, u: Mem, t: Mem, lo: nat, n: nat, flags: Flags)
    requires Extends(u, t, lo, n, flags) && u.pages == m.pages && u.tables == m.tables
    requires u.alloc.Free() <= m.alloc.Free()
    ensures Extends(m, t, lo, n, flags)
  {
  }

  /** A slot with a page at the start of the range. */
  lemma RefusedTry(m: Mem, held: set<Frame>, usage: nat, top: nat)
    requires Sound(m, held) && 1 <= usage && top in m.pages && m.alloc.Available() > 0
    requires SLOT_PAGES <= top < PAGE_MODULUS && Formable(top, usage)
    ensures var t := MapRange(m, top, usage, USER_FLAGS).0;
      && FindSlot(m, usage, top) == FindSlot(t, usage, top - SLOT_PAGES)
      && t.pages == m.pages && t.tables == m.tables && Sound(t, held)
      && t.alloc.Available() == m.alloc.Available() - 1 && t.alloc.Free() <= m.alloc.Free()
  {
    hide Sound;
    hide MapRange;
    MapRangeRefused(m, held, top, usage, USER_FLAGS);
    var done := MapRangeEffect(m, held, top, usage, USER_FLAGS);
    assert SlotBelow(top) == top - SLOT_PAGES;
    hide SlotBelow;
  }

  /** When the tried slots hold a page at the start of the range, each try changes
    * nothing but loses one frame, and the search ends at the first free slot. */
  lemma {:induction false} FindSlotTakesFirstFree(m: Mem, held: set<Frame>, usage: nat, top: nat, k: nat)
    requires Sound(m, held) && 1 <= usage && k * SLOT_PAGES <= top
    requires forall j: nat | j < k :: top - j * SLOT_PAGES in m.pages
    requires forall j: nat | j <= k :: Formable(top - j * SLOT_PAGES, usage)
    requires forall p | top - k * SLOT_PAGES <= p < top - k * SLOT_PAGES + usage :: p !in m.pages
    requires m.alloc.Available() >= k + Needed(m.tables.Keys, top - k * SLOT_PAGES, usage)
    ensures var r := FindSlot(m, usage, top);
      && r.Some? && r.value.1 == top - k * SLOT_PAGES
      && r.value.0.alloc.Available() == m.alloc.Available() - k - Needed(m.tables.Keys, top - k * SLOT_PAGES, usage)
      && Extends(m, r.value.0, top - k * SLOT_PAGES, usage, USER_FLAGS)
    decreases k
  {
    hide Sound;
    hide MapRange;
    hide Extends;
    hide Needed;
    var t := MapRange(m, top, usage, USER_FLAGS).0;
    assert Formable(top - 0 * SLOT_PAGES, usage);
    if k == 0 {
      MapRangeSucceeds(m, top, usage, USER_FLAGS);
      var done := MapRangeEffect(m, held, top, usage, USER_FLAGS);
    } else {
      assert top - 0 * SLOT_PAGES in m.pages;
      RefusedTry(m, held, usage, top);
      var low := top - SLOT_PAGES;
      assert low - (k - 1) * SLOT_PAGES == top - k * SLOT_PAGES;
      forall j: nat | j < k - 1 ensures low - j * SLOT_PAGES in t.pages {
        assert low - j * SLOT_PAGES == top - (j + 1) * SLOT_PAGES;
      }
      forall j: nat | j <= k - 1 ensures Formable(low - j * SLOT_PAGES, usage) {
        assert low - j * SLOT_PAGES == top - (j + 1) * SLOT_PAGES;
      }
      FindSlotTakesFirstFree(t, held, usage, low, k - 1);
      ExtendsFrom(m, t, FindSlot(t, usage, low).value.0, top - k * SLOT_PAGES, usage, USER_FLAGS);
    }
  }

  /** A failed try leaves the page map as it was exactly when the first page of the
    * range was mapped already or there was no frame for it and its tables. */
  lemma FailedTryKeepsMap(m: Mem, held: set<Frame>, lo: nat, n: nat)
    requires Sound(m, held) && n > 0 && !MapRange(m, lo, n, USER_FLAGS).1.Mapped?
    ensures MapRange(m, lo, n, USER_FLAGS).0.pages == m.pages
       <==> lo in m.pages || m.alloc.Available() <= MissingTables(m.tables.Keys, TablesOf(lo))
  {
    hide MapTo;
    hide MissingTables;
    hide TablesOf;
    hide Sound;
    AllocateKeepsSound(m, held);
    AllocateTakesOne(m.alloc);
    var (alloc, f) := m.alloc.Allocate();
    if f.Some? {
      var u := m.(alloc := alloc);
      MapToCount(u, lo, f.value, USER_FLAGS);
      MapToEffect(u, held, lo, f.value, USER_FLAGS);
      var (t, r) := MapTo(u, lo, f.value, USER_FLAGS);
      if r.Mapped? {
        var done := MapRangeEffect(t, held, lo + 1, n - 1, USER_FLAGS);
        assert lo in MapRange(t, lo + 1, n - 1, USER_FLAGS).0.pages;
      }
    }
  }

  lemma AllocateTakesOne(a: Alloc)
    ensures var (b, f) := a.Allocate();
      && (f.None? <==> a.Available() == 0)
      && (f.Some? ==> b.Available() == a.Available() - 1)
  {
  }

  // ---- The child's stack pointer -----------------------------------------------------------

  /** The first try lies whole slots below the stack, modulo 2^64. */
  lemma FirstTryIsAligned(st: Stack, count: nat)
    requires Live(st)
    ensures FirstTry(st, count) < PAGE_MODULUS && (FirstTry(st, count) + st.usage) % SLOT_PAGES == 0
    ensures count * SLOT_PAGES <= st.start ==> FirstTry(st, count) == st.start - count * SLOT_PAGES
  {
    var top, q := FirstTry(st, count), (st.start - count * SLOT_PAGES) / PAGE_MODULUS;
    assert st.start - count * SLOT_PAGES == q * PAGE_MODULUS + top;
    assert PAGE_MODULUS == 0x1_0000_0000 * SLOT_PAGES && st.end == st.end / SLOT_PAGES * SLOT_PAGES;
    assert top + st.usage == (st.end / SLOT_PAGES - count - q * 0x1_0000_0000) * SLOT_PAGES;
  }

  lemma SameOffsetInSlot(a: int, b: int, usage: nat)
    requires (a + usage) % SLOT_PAGES == 0 && (b + usage) % SLOT_PAGES == 0
    ensures (a - b) % SLOT_PAGES == 0
  {
    assert a - b == ((a + usage) / SLOT_PAGES - (b + usage) / SLOT_PAGES) * SLOT_PAGES;
  }

  /** The child's stack is live, has its parent's size, lies in pages that were not mapped
    * before, and is apart from its parent's by whole slots. It lies below its parent's
    * when the parent has no more children than slots below it. */
  lemma ForkedStackIsLive(m: Mem, held: set<Frame>, st: Stack, count: nat)
    requires Sound(m, held) && Live(st) && FullyMapped(st, m) && ForkStack(m, st, count).Some?
    ensures var (t, child) := ForkStack(m, st, count).value;
      && Live(child) && child.usage == st.usage && Formable(child.start, child.usage)
      && child.start != st.start && (st.start - child.start) % SLOT_PAGES == 0
      && (count * SLOT_PAGES <= st.start ==> child.start < st.start)
      && (forall p | child.start <= p < child.end :: p !in m.pages && p in t.pages)
      && Sound(t, held) && Grows(m, t) && OnlyAbove(m, t, child.start)
  {
    hide Sound;
    hide Grows;
    hide OnlyAbove;
    hide FindSlot;
    hide FirstTry;
    var top := FirstTry(st, count);
    FirstTryIsAligned(st, count);
    var k := FindSlotEffect(m, held, st.usage, top);
    var at := FindSlot(m, st.usage, top).value.1;
    assert (at + st.usage) % SLOT_PAGES == 0 by {
      assert at + st.usage == ((top + st.usage) / SLOT_PAGES - k) * SLOT_PAGES;
    }
    SameOffsetInSlot(st.start, at, st.usage);
    assert at != st.start by {
      assert st.start in m.pages;
    }
  }

  /** The slots from the bottom of the address space up to and with the stack's own. */
  function SlotsUpTo(st: Stack): nat { st.end / SLOT_PAGES }

  const HIGH_SLOTS: nat := 0x8000

  /** Where a process of the lower half with so many children first looks for a slot: below
    * its own stack, at the end of the address space, or nowhere. Pids have 16 bits. */
  lemma FirstTryIs(st: Stack, count: nat)
    requires Live(st) && st.end <= LOW_END && count < 0x1_0000
    ensures var top, slots := FirstTry(st, count), SlotsUpTo(st);
      && (count < slots ==> top == st.start - count * SLOT_PAGES)
      && (count < slots ==> (Formable(top, st.usage) <==> count > 0 || st.end < LOW_END))
      && (count == slots ==> !Formable(top, st.usage))
      && (count > slots ==> top == PAGE_MODULUS + st.start - count * SLOT_PAGES && top >= LOW_END)
      && (count > slots ==> (Formable(top, st.usage) <==> count < slots + HIGH_SLOTS))
  {
    assert st.end == SlotsUpTo(st) * SLOT_PAGES;
    if count >= SlotsUpTo(st) {
      assert st.start - count * SLOT_PAGES < 0;
      WrapOnce(st.start - count * SLOT_PAGES);
    }
  }

  /** The child of a process in the lower half has its stack below its parent's exactly when
    * the parent has no more children than slots below it. With one more child the kernel
    * stops; with still more the child's stack is in the upper half, until the slots there
    * are out as well and the kernel stops again. */
  lemma ForkGoesBelowIff(m: Mem, held: set<Frame>, st: Stack, count: nat)
    requires Sound(m, held) && Live(st) && FullyMapped(st, m) && st.end <= LOW_END && count < 0x1_0000
    ensures var r := ForkStack(m, st, count);
      && (count == SlotsUpTo(st) || SlotsUpTo(st) + HIGH_SLOTS <= count ==> r.None?)
      && (r.Some? ==> (r.value.1.start < st.start <==> count < SlotsUpTo(st)))
      && (r.Some? ==> (r.value.1.start >= HIGH_START <==> SlotsUpTo(st) < count))
  {
    hide Sound;
    hide Grows;
    hide OnlyAbove;
    hide FirstTry;
    FirstTryIs(st, count);
    UnformableStops(m, st.usage, FirstTry(st, count));
    hide FindSlot;
    if ForkStack(m, st, count).Some? {
      FirstTryIsAligned(st, count);
      ForkedStackIsLive(m, held, st, count);
      var k := FindSlotEffect(m, held, st.usage, FirstTry(st, count));
      SlotsBelow(st, count);
      hide Live;
      hide SlotsUpTo;
    }
  }

  lemma UnformableStops(m: Mem, usage: nat, top: nat)
    ensures !Formable(top, usage) ==> FindSlot(m, usage, top).None?
  {
    hide MapRange;
  }

  lemma SlotsBelow(st: Stack, count: nat)
    requires Live(st) && st.end <= LOW_END
    ensures st.start < LOW_END
    ensures count * SLOT_PAGES <= st.start <==> count < SlotsUpTo(st)
  {
    assert st.end == SlotsUpTo(st) * SLOT_PAGES;
  }

  lemma WrapOnce(x: int)
    requires 0 - PAGE_MODULUS <= x < 0
    ensures x % PAGE_MODULUS == x + PAGE_MODULUS
  {
  }

  /** Adding the stack offset moves a stack pointer of the parent to the same place in
    * the child's stack. */
  lemma ForkedPointer(st: Stack, child: Stack, rsp: nat)
    requires Live(st) && Live(child) && child.usage == st.usage
    requires st.start * PAGE_SIZE <= rsp < st.end * PAGE_SIZE
    ensures Moved(rsp, StackOffset(child, st)) - child.start * PAGE_SIZE == rsp - st.start * PAGE_SIZE
  {
    PointerHasRoom(st, child, rsp);
    hide Live;
    hide Moved;
    hide Distance;
    MovedPointer(rsp, st.start * PAGE_SIZE, child.start * PAGE_SIZE);
  }

  lemma PointerHasRoom(st: Stack, child: Stack, rsp: nat)
    requires Live(st) && Live(child) && child.usage == st.usage
    requires st.start * PAGE_SIZE <= rsp < st.end * PAGE_SIZE
    ensures rsp - st.start * PAGE_SIZE + child.start * PAGE_SIZE < WORD_MODULUS
  {
  }

  /** The page and the offset of a moved address. */
  lemma ForkedAddress(st: Stack, child: Stack, addr: nat)
    requires Live(st) && Live(child) && child.usage == st.usage
    requires st.start * PAGE_SIZE <= addr < st.end * PAGE_SIZE
    ensures var moved := Moved(addr, StackOffset(child, st));
      moved / PAGE_SIZE == child.start + (addr / PAGE_SIZE - st.start) && moved % PAGE_SIZE == addr % PAGE_SIZE
  {
    hide Moved;
    hide StackOffset;
    ForkedPointer(st, child, addr);
    hide Live;
    var apart := st.start - child.start;
    assert Moved(addr, StackOffset(child, st)) == addr - apart * PAGE_SIZE;
    assert (addr - apart * PAGE_SIZE) / PAGE_SIZE == addr / PAGE_SIZE - apart;
  }

  lemma MovedPointer(rsp: nat, old_: nat, new_: nat)
    requires old_ <= rsp && rsp - old_ + new_ < WORD_MODULUS
    ensures Moved(rsp, Distance(new_, old_)) == rsp - old_ + new_
  {
    var q := (new_ - old_) / WORD_MODULUS;
    assert (new_ - old_) % WORD_MODULUS == new_ - old_ - q * WORD_MODULUS;
    assert rsp + (new_ - old_) % WORD_MODULUS == (rsp - old_ + new_) + (-q) * WORD_MODULUS;
    assert ((rsp - old_ + new_) + (-q) * WORD_MODULUS) % WORD_MODULUS == (rsp - old_ + new_) % WORD_MODULUS;
  }
}
