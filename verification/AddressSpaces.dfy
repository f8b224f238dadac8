/** The objects behind a process's memory: its stack, its handle on the shared heap,
  * and the address space that holds both beside the shared page table. */
module AddressSpaces {
  import opened Common
  import opened Frames
  import opened P = Paging
  import opened PageTables
  import opened S = Stacks
  import opened H = Heaps
  import opened F = Families
  import opened PhysicalMemory
  import opened ElfLoader
  import E = ElfPrograms

  /** A counter that several owners share. */
  class Cell {
    var value: nat

    constructor (v: nat)
      ensures value == v
    {
      value := v;
    }
  }

  class UserStack {
    var start: nat
    var end: nat
    var usage: nat

    ghost function View(): Stack
      reads this
    {
      Stack(start, end, usage)
    }

    constructor (from: nat, to: nat, pages: nat)
      ensures View() == Stack(from, to, pages)
    {
      start, end, usage := from, to, pages;
    }

    /** Answers false where the kernel would stop. */
    method Init(table: PageTable, a: FrameAllocator) returns (ok: bool)
      modifies this, table, a
      ensures var (m, st, r) := InitStack(old(table.View(a)));
        table.View(a) == m && ok == r.Mapped? && View() == if ok then st else old(View())
    {
      var r := table.MapRange(STACK_MAX_PAGE - 1, 1, true, a);
      ok := r.Mapped?;
      if ok {
        start, end, usage := STACK_MAX_PAGE - 1, STACK_MAX_PAGE, 1;
      }
    }

    method GrowStack(addr: nat, user: bool, table: PageTable, a: FrameAllocator) returns (r: GrowResult)
      modifies this, table, a
      ensures (table.View(a), View(), r) == S.GrowStack(old(table.View(a)), old(View()), addr, user)
    {
      hide P.MapRange;
      var newStart := addr / PAGE_SIZE;
      if start < newStart {
        return Panicked;
      }
      var result := table.MapRange(newStart, start - newStart, user, a);
      if !result.Mapped? {
        return Refused(result);
      }
      start := newStart;
      usage := PageCount(start, end);
      r := Grown;
    }

    /** The source answers whether the result is `Grown`, unless the kernel stops. */
    method HandlePageFault(addr: nat, user: bool, table: PageTable, a: FrameAllocator) returns (r: GrowResult)
      modifies this, table, a
      ensures (table.View(a), View(), r) == HandleFault(old(table.View(a)), old(View()), addr, user)
      ensures Live(old(View())) ==> (r.Elsewhere? <==> !InSlot(old(View()), addr))
    {
      if Live(View()) {
        FaultIsElsewhereIff(table.View(a), View(), addr, user);
      }
      if !S.IsOnStack(Stack(start, end, usage), addr) {
        return Elsewhere;
      }
      r := GrowStack(addr, user, table, a);
    }

    /** Try slot after slot, then copy the whole stack. */
    method Fork(table: PageTable, a: FrameAllocator, ram: array2<Byte>, count: nat, ghost held: set<Frame>)
      returns (child: UserStack?)
      requires ram.Length1 == PAGE_SIZE && Live(View()) && FullyMapped(View(), table.View(a))
      requires Sound(table.View(a), held) && Backed(table.View(a), ram.Length0)
      modifies table, a, ram
      ensures child == null <==> ForkStack(old(table.View(a)), View(), count).None?
      ensures child != null ==>
          fresh(child) && (table.View(a), child.View()) == ForkStack(old(table.View(a)), View(), count).value
      ensures child != null ==>
          && Accessible(table.pages, ram.Length0, start, usage)
          && Accessible(table.pages, ram.Length0, child.start, usage)
          && Cloned(old(Contents(ram)), Contents(ram), table.pages, start, child.start, usage)
    {
      hide Sound;
      hide Backed;
      hide S.FindSlot;
      hide InRange;
      hide Accessible;
      hide Cloned;
      hide Contents;
      hide FullyMapped;
      hide Live;
      ghost var m := table.View(a);
      var at := SearchSlot(usage, (start - count * SLOT_PAGES) % PAGE_MODULUS, table, a);
      if at.None? {
        return null;
      }
      ForkedRangesAreApart(m, held, View(), count, ram.Length0);
      CloneRange(table.pages, ram, start, at.value, usage);
      child := new UserStack(at.value, at.value + usage, usage);
    }

    method CleanUp(table: PageTable, a: FrameAllocator) returns (ok: bool)
      modifies this, table, a
      ensures (table.View(a), View(), ok) == CleanUpStack(old(table.View(a)), old(View()))
    {
      hide P.UnmapRange;
      if usage == 0 {
        return true;
      }
      ok := table.UnmapRange(start, usage, a);
      if ok {
        usage := 0;
      }
    }
  }

  /** The handle on a heap whose end its sharers move. */
  class UserHeap {
    const end: Cell

    constructor (shared: Cell)
      ensures end == shared
    {
      end := shared;
    }

    /** The copy shares the end. */
    method Fork() returns (copy: UserHeap)
      ensures fresh(copy) && copy.end == end
    {
      copy := new UserHeap(end);
    }

    method Brk(newEnd: Option<nat>, table: PageTable, a: FrameAllocator) returns (r: Option<nat>)
      modifies end, table, a
      ensures (table.View(a), end.value, r) == H.Brk(old(table.View(a)), old(end.value), newEnd)
    {
      hide P.MapRange;
      if newEnd.None? {
        return Some(end.value);
      }
      var to := newEnd.value;
      if HEAP_START + HEAP_SIZE < to || to < HEAP_START {
        return None;
      }
      var diff := (to - end.value) % WORD_MODULUS;
      var currentPage, newPage := end.value / PAGE_SIZE, to / PAGE_SIZE;
      if end.value != HEAP_START {
        currentPage := currentPage + 1;
      }
      if to != HEAP_START {
        newPage := newPage + 1;
      }
      if diff > 0 {
        var result := table.MapRange(currentPage, PageCount(currentPage, newPage), true, a);
        if !result.Mapped? {
          return None;
        }
      }
      end.value := to;
      r := Some(to);
    }

    method CleanUp(table: PageTable, a: FrameAllocator) returns (ok: bool)
      modifies end, table, a
      ensures (table.View(a), end.value, ok) == CleanUpHeap(old(table.View(a)), old(end.value))
    {
      if (end.value - HEAP_START) % WORD_MODULUS == 0 {
        return true;
      }
      var last := end.value / PAGE_SIZE;
      end.value := HEAP_START;
      ok := table.UnmapRange(HEAP_START_PAGE, PageCount(HEAP_START_PAGE, last + 1), a);
    }
  }

  /** The memory of one process. The page table, its reference count and the end of the
    * heap are shared with its relatives. */
  class ProcessVm {
    const table: PageTable
    const users: Cell
    const stack: UserStack
    const heap: UserHeap
    var code: seq<CodeRange>

    ghost predicate Valid()
    {
      users != heap.end
    }

    constructor (t: PageTable, count: Cell, st: UserStack, h: UserHeap, loaded: seq<CodeRange>)
      ensures table == t && users == count && stack == st && heap == h && code == loaded
    {
      table, users, stack, heap, code := t, count, st, h, loaded;
    }

    /** Load a program and give it its first stack, which succeeds exactly when both fit;
      * otherwise the kernel stops. On success every aligned segment reads as the file
      * says, and the process starts a family. */
    method LoadElf(input: seq<Byte>, segs: seq<Segment>, a: FrameAllocator, ram: array2<Byte>,
                   ghost held: set<Frame>, ghost pid: Pid)
      returns (ok: bool)
      requires Valid() && ram.Length1 == PAGE_SIZE && E.Complete(input, segs)
      requires Sound(table.View(a), held) && Backed(table.View(a), ram.Length0)
      requires heap.end.value == HEAP_START && users.value == 1
      modifies this, stack, table, a, ram
      ensures ok <==> E.FitsWithStack(old(table.View(a)), segs)
      ensures ok ==>
          var f := Family(table.View(a), map[pid := stack.View()], HEAP_START, code, pid, held);
          Inv(f) && Represents(map[pid := this], Handles(table, users, heap.end), a, f)
      ensures ok ==> forall i | 0 <= i < |segs| && segs[i].load && E.Aligned(segs[i])
          && segs[i].fileSize < WORD_MODULUS && segs[i].offset + segs[i].fileSize <= |input| ::
            E.Reads(table.pages, Contents(ram), input, segs[i])
      ensures ok ==> forall i | 0 <= i < |segs| :: E.Protected(table.pages, segs[i], true)
      ensures ok ==> FirstStackIsUsable(table.pages, stack.View())
      ensures ok ==> (forall s | s in segs && s.load :: E.Loadable(s)) && code == E.AllRecorded(segs)
    {
      hide Sound;
      hide Backed;
      hide E.Complete;
      hide Contents;
      hide E.Ready;
      hide E.Keeps;
      hide E.Reads;
      hide E.Aligned;
      hide E.AllRecorded;
      hide E.Fits;
      hide E.FitsWithStack;
      hide E.MapProgram;
      hide E.Protected;
      hide FirstStackIsUsable;
      hide InitStack;
      hide Inv;
      var ranges;
      ghost var m := table.View(a);
      E.ProgramAndStackIff(m, segs, true);
      ok, ranges := E.LoadElf(input, segs, true, table, a, ram, held);
      if !ok {
        return;
      }
      code := ranges;
      ghost var t, rows := table.View(a), Contents(ram);
      ok := stack.Init(table, a);
      if !ok {
        return;
      }
      E.LoadedProgramStartsFamily(input, segs, true, m, t, rows, held, pid);
      FirstStackIsMapped(t, held);
      E.ReadyIsLoadable(input, segs, true, m, t, rows);
      forall i | 0 <= i < |segs| ensures E.Protected(table.pages, segs[i], true) {
        E.StackLeavesProtection(t, held, segs[i], true);
      }
      forall i | 0 <= i < |segs| && segs[i].load && E.Aligned(segs[i])
          && segs[i].fileSize < WORD_MODULUS && segs[i].offset + segs[i].fileSize <= |input|
        ensures E.Reads(table.pages, rows, input, segs[i])
      {
        E.LoadedProgramReads(input, segs, true, m, t, rows, i);
        E.StackLeavesProgram(t, held, rows, input, segs[i]);
      }
    }

    /** The child shares the page table and the heap, records no code, and reads in its
      * own stack, at every moved address, what its parent reads at the original one.
      * Nothing that was mapped reads differently. */
    method Fork(count: nat, a: FrameAllocator, ram: array2<Byte>, ghost held: set<Frame>) returns (child: ProcessVm?)
      requires Valid() && ram.Length1 == PAGE_SIZE && Live(stack.View()) && FullyMapped(stack.View(), table.View(a))
      requires Sound(table.View(a), held) && Backed(table.View(a), ram.Length0)
      modifies table, users, a, ram
      ensures child == null <==> ForkStack(old(table.View(a)), stack.View(), count).None?
      ensures child != null ==>
          && fresh(child) && fresh(child.stack) && fresh(child.heap) && child.Valid()
          && (table.View(a), child.stack.View()) == ForkStack(old(table.View(a)), stack.View(), count).value
          && child.table == table && child.users == users && users.value == old(users.value) + 1
          && child.heap.end == heap.end && child.code == []
      ensures child != null ==>
          SameStack(old(table.pages), old(Contents(ram)), table.pages, Contents(ram), stack.View(), child.stack.View())
      ensures child != null ==> SameReads(old(table.pages), old(Contents(ram)), table.pages, Contents(ram))
    {
      hide Sound;
      hide Backed;
      var childStack := stack.Fork(table, a, ram, count, held);
      if childStack == null {
        return null;
      }
      ForkCopiesStack(old(table.View(a)), held, stack.View(), count, old(Contents(ram)), Contents(ram));
      var childHeap := heap.Fork();
      users.value := users.value + 1;
      child := new ProcessVm(table, users, childStack, childHeap, []);
    }

    method Brk(newEnd: Option<nat>, a: FrameAllocator) returns (r: Option<nat>)
      modifies heap.end, table, a
      ensures (table.View(a), heap.end.value, r) == H.Brk(old(table.View(a)), old(heap.end.value), newEnd)
    {
      r := heap.Brk(newEnd, table, a);
    }

    method HandlePageFault(addr: nat, user: bool, a: FrameAllocator) returns (r: GrowResult)
      modifies stack, table, a
      ensures (table.View(a), stack.View(), r) == HandleFault(old(table.View(a)), old(stack.View()), addr, user)
    {
      r := stack.HandlePageFault(addr, user, table, a);
    }

    /** The clean-up of a dropped address space, after which its share of the page table
      * is given up. */
    method Drop(a: FrameAllocator) returns (ok: bool)
      requires Valid() && users.value > 0
      modifies stack, heap.end, users, table, a
      ensures (table.View(a), heap.end.value, ok) ==
          CleanUpSpace(old(table.View(a)), old(stack.View()), old(users.value) == 1, old(heap.end.value), code)
      ensures users.value == old(users.value) - 1
    {
      ok := CleanUp(a);
      users.value := users.value - 1;
    }

    method CleanUp(a: FrameAllocator) returns (ok: bool)
      requires Valid()
      modifies stack, heap.end, table, a
      ensures (table.View(a), heap.end.value, ok) ==
          CleanUpSpace(old(table.View(a)), old(stack.View()), users.value == 1, old(heap.end.value), code)
    {
      ok := stack.CleanUp(table, a);
      if !ok || users.value != 1 {
        return;
      }
      ok := heap.CleanUp(table, a);
      if !ok {
        return;
      }
      ok := UnmapSegments(code, table, a);
    }
  }

  /** The page below the top of the stack area, where a new process has its stack pointer,
    * eight bytes below that top, is the stack's and can be written by the user. */
  ghost predicate FirstStackIsUsable(pages: map<nat, Mapping>, st: Stack) {
    var page := (STACK_MAX_PAGE * PAGE_SIZE - 8) / PAGE_SIZE;
    && st.start <= page < st.end && page in pages
    && pages[page].flags.writable && pages[page].flags.user
  }

  lemma FirstStackIsMapped(m: Mem, held: set<Frame>)
    requires Sound(m, held) && InitStack(m).2.Mapped?
    ensures FirstStackIsUsable(InitStack(m).0.pages, InitStack(m).1)
  {
    hide Sound;
    hide MapRange;
    var done := MapRangeEffect(m, held, STACK_MAX_PAGE - 1, 1, USER_FLAGS);
    assert STACK_MAX_PAGE - 1 in InitStack(m).0.pages;
  }

  /** What the members of a family share. */
  datatype Handles = Handles(table: PageTable, users: Cell, end: Cell)

  /** The address spaces of the live members, as objects, are the family: they share the
    * page table, the end of the heap and the reference count, which is the number of live
    * members; each has its own stack; only the loader has recorded code. */
  ghost predicate Represents(vms: map<Pid, ProcessVm>, h: Handles, a: FrameAllocator, f: Family)
    reads h.table, h.users, h.end, a, vms.Values, set pid | pid in vms :: vms[pid].stack
  {
    && h.users != h.end && h.users.value == |vms|
    && f.mem == h.table.View(a) && f.heapEnd == h.end.value
    && Members(vms, h, f)
  }

  ghost predicate Members(vms: map<Pid, ProcessVm>, h: Handles, f: Family)
    reads vms.Values, set pid | pid in vms :: vms[pid].stack
  {
    && vms.Keys == f.stacks.Keys
    && (forall pid | pid in vms ::
          && vms[pid].table == h.table && vms[pid].users == h.users && vms[pid].heap.end == h.end
          && vms[pid].stack.View() == f.stacks[pid]
          && vms[pid].code == if pid == f.loader then f.code else [])
    && (forall p, q | p in vms && q in vms && p != q :: vms[p].stack != vms[q].stack)
  }

  method UnmapSegments(code: seq<CodeRange>, table: PageTable, a: FrameAllocator) returns (ok: bool)
    modifies table, a
    ensures (table.View(a), ok) == UnmapCode(old(table.View(a)), code)
  {
    for i := 0 to |code|
      invariant UnmapCode(table.View(a), code[i..]) == UnmapCode(old(table.View(a)), code)
    {
      ghost var m := table.View(a);
      assert code[i..][0] == code[i] && code[i..][1..] == code[i + 1..];
      ok := table.UnmapRange(code[i].lo, code[i].count, a);
      assert UnmapCode(m, code[i..]) == if ok then UnmapCode(table.View(a), code[i + 1..]) else (table.View(a), false);
      if !ok {
        return;
      }
    }
    ok := true;
  }

  /** The retry loop of fork. */
  method SearchSlot(usage: nat, first: nat, table: PageTable, a: FrameAllocator) returns (at: Option<nat>)
    modifies table, a
    ensures at.None? <==> S.FindSlot(old(table.View(a)), usage, first).None?
    ensures at.Some? ==> S.FindSlot(old(table.View(a)), usage, first) == Some((table.View(a), at.value))
  {
    hide P.MapRange;
    var top: nat := first;
    while Formable(top, usage)
      invariant S.FindSlot(table.View(a), usage, top) == S.FindSlot(old(table.View(a)), usage, first)
      decreases SearchRank(top)
    {
      var r := table.MapRange(top, usage, true, a);
      if r.Mapped? {
        return Some(top);
      }
      top := SlotBelow(top);
    }
    at := None;
  }

  /** At every moved address of the stack the child reads what its parent read. */
  ghost predicate SameStack(was: map<nat, Mapping>, before: Rows, now: map<nat, Mapping>, after: Rows,
                            st: Stack, child: Stack) {
    forall addr | st.start * PAGE_SIZE <= addr < st.end * PAGE_SIZE ::
      ReadAt(now, after, Moved(addr, StackOffset(child, st))) == ReadAt(was, before, addr) != None
  }

  /** Every address that could be read before reads the same. */
  ghost predicate SameReads(was: map<nat, Mapping>, before: Rows, now: map<nat, Mapping>, after: Rows) {
    forall addr | ReadAt(was, before, addr).Some? :: ReadAt(now, after, addr) == ReadAt(was, before, addr)
  }

  /** Fork gives the child the contents of the parent's stack, at addresses shifted by
    * the stack offset, and disturbs nothing that was mapped. */
  lemma ForkCopiesStack(m: Mem, held: set<Frame>, st: Stack, count: nat, was: Rows, now: Rows)
    requires Sound(m, held) && Live(st) && FullyMapped(st, m) && ForkStack(m, st, count).Some?
    requires Backed(m, |was|) && (forall f | 0 <= f < |was| :: |was[f]| == PAGE_SIZE)
    requires var (t, child) := ForkStack(m, st, count).value;
      && Accessible(t.pages, |was|, st.start, st.usage) && Accessible(t.pages, |was|, child.start, st.usage)
      && Cloned(was, now, t.pages, st.start, child.start, st.usage)
    ensures var (t, child) := ForkStack(m, st, count).value;
      && SameStack(m.pages, was, t.pages, now, st, child)
      && SameReads(m.pages, was, t.pages, now)
  {
    hide Sound;
    hide ForkStack;
    hide Live;
    hide FullyMapped;
    hide StackOffset;
    ForkedRangesAreApart(m, held, st, count, |was|);
    var (t, child) := ForkStack(m, st, count).value;
    forall addr | st.start * PAGE_SIZE <= addr < st.end * PAGE_SIZE
      ensures ReadAt(t.pages, now, Moved(addr, StackOffset(child, st))) == ReadAt(m.pages, was, addr) != None
    {
      ForkedAddress(st, child, addr);
      var i := addr / PAGE_SIZE - st.start;
      assert now[FrameAt(t.pages, child.start, i)] == was[FrameAt(m.pages, st.start, i)];
    }
  }

  /** After a successful search the two stacks can be read and written, and the new
    * one shares no frame with anything that was mapped before. */
  lemma ForkedRangesAreApart(m: Mem, held: set<Frame>, st: Stack, count: nat, frames: nat)
    requires Sound(m, held) && Live(st) && FullyMapped(st, m) && ForkStack(m, st, count).Some? && Backed(m, frames)
    ensures var (t, child) := ForkStack(m, st, count).value;
      && Backed(t, frames) && Live(child) && child.usage == st.usage && st.end == st.start + st.usage
      && (forall p | p in m.pages :: p in t.pages && t.pages[p] == m.pages[p])
      && Accessible(m.pages, frames, st.start, st.usage)
      && Accessible(t.pages, frames, st.start, st.usage) && Accessible(t.pages, frames, child.start, st.usage)
      && (forall p | p in m.pages ::
            m.pages[p].frame < frames && !InRange(t.pages, child.start, st.usage, m.pages[p].frame))
      && (forall i | 0 <= i < st.usage :: !InRange(t.pages, child.start, st.usage, FrameAt(t.pages, st.start, i)))
      && (forall i | 0 <= i < st.usage :: FrameAt(t.pages, st.start, i) == FrameAt(m.pages, st.start, i))
  {
    hide Sound;
    hide ForkStack;
    hide Accessible;
    hide InRange;
    ForkedStackIsLive(m, held, st, count);
    var (t, child) := ForkStack(m, st, count).value;
    RangeIsAccessible(m, held, st.start, st.usage, frames);
    RangeIsAccessible(t, held, st.start, st.usage, frames);
    RangeIsAccessible(t, held, child.start, st.usage, frames);
    forall p | p in m.pages ensures !InRange(t.pages, child.start, st.usage, m.pages[p].frame) {
      NewFramesAreNew(m, t, held, child.start, st.usage, p);
    }
    forall i | 0 <= i < st.usage ensures FrameAt(t.pages, st.start, i) == FrameAt(m.pages, st.start, i) {
      assert st.start + i in m.pages;
    }
  }

  lemma RangeIsAccessible(m: Mem, held: set<Frame>, lo: nat, n: nat, frames: nat)
    requires Sound(m, held) && Backed(m, frames) && forall p | lo <= p < lo + n :: p in m.pages
    ensures Accessible(m.pages, frames, lo, n)
  {
  }

  lemma NewFramesAreNew(m: Mem, t: Mem, held: set<Frame>, lo: nat, n: nat, page: nat)
    requires Sound(m, held) && Grows(m, t) && page in m.pages
    requires forall p | lo <= p < lo + n :: p !in m.pages && p in t.pages
    ensures !InRange(t.pages, lo, n, m.pages[page].frame)
  {
    assert m.pages[page].frame in PageFrames(m);
    forall i | 0 <= i < n ensures FrameAt(t.pages, lo, i) in m.alloc.Free() {
      assert lo + i in t.pages;
    }
  }
}
