/** The user heap: one shared end address, moved by `brk`. */
module Heaps {
  import opened Common
  import opened Frames
  import opened Paging
  import opened Stacks

  const HEAP_START: nat := 0x2000_0000_0000
  const HEAP_PAGES: nat := 0x10_0000
  const HEAP_SIZE: nat := 0x1_0000_0000
  const HEAP_START_PAGE: nat := 0x2_0000_0000

  /** The page after the last one that belongs to a heap with this end. */
  function EndPage(end: nat): nat {
    if end == HEAP_START then HEAP_START_PAGE else end / PAGE_SIZE + 1
  }

  predicate ValidEnd(end: nat) { HEAP_START <= end <= HEAP_START + HEAP_SIZE }

  /** The pages that a call to `brk` maps. Their number comes from an inclusive range,
    * which is empty when it runs backwards. */
  function GrowthOf(end: nat, newEnd: nat): nat { PageCount(EndPage(end), EndPage(newEnd)) }

  /** `brk`: the new memory, the new end, and the answer. The difference of the two
    * addresses is unsigned, so the shrinking branch of the source is never taken: a
    * shrinking call maps and unmaps nothing and still moves the end. */
  function Brk(m: Mem, end: nat, newEnd: Option<nat>): (r: (Mem, nat, Option<nat>)) {
    if newEnd.None? then (m, end, Some(end))
    else if !ValidEnd(newEnd.value) then (m, end, None)
    else if (newEnd.value - end) % WORD_MODULUS == 0 then (m, newEnd.value, newEnd)
    else
      var (t, r) := MapRange(m, EndPage(end), GrowthOf(end, newEnd.value), USER_FLAGS);
      if r.Mapped? then (t, newEnd.value, newEnd) else (t, end, None)
  }

  /** `clean_up`: unmap everything and reset the end. */
  function CleanUpHeap(m: Mem, end: nat): (r: (Mem, nat, bool)) {
    if (end - HEAP_START) % WORD_MODULUS == 0 then (m, end, true)
    else
      var (t, ok) := UnmapRange(m, HEAP_START_PAGE, PageCount(HEAP_START_PAGE, end / PAGE_SIZE + 1));
      (t, HEAP_START, ok)
  }

  /** The pages of a heap with this end: none, or all from the base through the page of
    * the end address. */
  ghost predicate InHeap(end: nat, page: nat) {
    HEAP_START_PAGE <= page < EndPage(end)
  }

  /** In the heap's area exactly the pages of the heap are mapped. */
  ghost predicate Exact(m: Mem, end: nat) {
    forall p | HEAP_START_PAGE <= p <= HEAP_START_PAGE + HEAP_PAGES :: p in m.pages <==> InHeap(end, p)
  }

  lemma EndPageBounds(end: nat)
    requires ValidEnd(end)
    ensures HEAP_START_PAGE <= EndPage(end) <= HEAP_START_PAGE + HEAP_PAGES + 1
    ensures end > HEAP_START ==> EndPage(end) > HEAP_START_PAGE
    ensures forall e: nat | ValidEnd(e) && e <= end :: EndPage(e) <= EndPage(end)
  {
  }

  /** A successful call that does not shrink the heap extends it by exactly the missing
    * pages and changes no mapping that existed. */
  lemma BrkGrows(m: Mem, held: set<Frame>, end: nat, newEnd: nat)
    requires Sound(m, held) && ValidEnd(end) && end <= newEnd && Brk(m, end, Some(newEnd)).2.Some?
    ensures var (t, end', r) := Brk(m, end, Some(newEnd));
      && end' == newEnd && ValidEnd(newEnd) && r == Some(newEnd)
      && Sound(t, held) && Extends(m, t, EndPage(end), GrowthOf(end, newEnd), USER_FLAGS)
  {
    hide Sound;
    hide Extends;
    hide MapRange;
    EndPageBounds(newEnd);
    if newEnd == end {
      ExtendsNothing(m, EndPage(end), USER_FLAGS);
    } else {
      assert (newEnd - end) % WORD_MODULUS == newEnd - end;
      var done := MapRangeEffect(m, held, EndPage(end), GrowthOf(end, newEnd), USER_FLAGS);
    }
  }

  /** A call succeeds exactly when the address is within the 4 GiB of the heap, both ends
    * included, and it does not grow the heap or the missing pages are unmapped and there
    * are frames for them and their tables. */
  lemma BrkSucceedsIff(m: Mem, end: nat, newEnd: nat)
    requires ValidEnd(end)
    ensures Brk(m, end, Some(newEnd)).2.Some? <==>
        && 0x2000_0000_0000 <= newEnd <= 0x2001_0000_0000
        && (newEnd > end ==>
              && (forall p | EndPage(end) <= p < EndPage(newEnd) :: p !in m.pages)
              && m.alloc.Available() >= Needed(m.tables.Keys, EndPage(end), PageCount(EndPage(end), EndPage(newEnd))))
    ensures Brk(m, end, Some(newEnd)).2.None? ==> Brk(m, end, Some(newEnd)).1 == end
  {
    hide MapRange;
    hide Needed;
    if ValidEnd(newEnd) {
      EndPageBounds(end);
      EndPageBounds(newEnd);
      MapRangeSucceeds(m, EndPage(end), GrowthOf(end, newEnd), USER_FLAGS);
      if newEnd <= end {
        NothingNeeded(m.tables.Keys, EndPage(end));
      } else {
        assert (newEnd - end) % WORD_MODULUS == newEnd - end;
      }
    }
  }

  lemma NothingNeeded(have: set<Table>, lo: nat)
    ensures Needed(have, lo, 0) == 0
  {
  }

  /** Exactness is kept by every successful call that does not shrink. */
  lemma BrkKeepsExact(m: Mem, held: set<Frame>, end: nat, newEnd: nat)
    requires Sound(m, held) && ValidEnd(end) && Exact(m, end)
    requires end <= newEnd && Brk(m, end, Some(newEnd)).2.Some?
    ensures Exact(Brk(m, end, Some(newEnd)).0, newEnd)
  {
    hide Sound;
    hide Brk;
    BrkGrows(m, held, end, newEnd);
    EndPageBounds(end);
    EndPageBounds(newEnd);
  }

  /** A shrinking call always succeeds without touching the memory, so exactness
    * survives it exactly when both ends lie on the same page of the heap. */
  lemma ShrinkKeepsExactOnSamePage(m: Mem, end: nat, newEnd: nat)
    requires ValidEnd(end) && ValidEnd(newEnd) && newEnd < end && Exact(m, end)
    ensures Brk(m, end, Some(newEnd)) == (m, newEnd, Some(newEnd))
    ensures Exact(m, newEnd) <==> EndPage(newEnd) == EndPage(end)
  {
    EndPageBounds(end);
    EndPageBounds(newEnd);
    assert (newEnd - end) % WORD_MODULUS == newEnd - end + WORD_MODULUS;
    assert GrowthOf(end, newEnd) == 0;
    if EndPage(newEnd) < EndPage(end) {
      assert EndPage(newEnd) in m.pages;
    }
  }

  /** A failed call keeps the mapped prefix of its range, so exactness survives it
    * exactly when not even the first page got its frames. */
  lemma FailedBrkKeepsExact(m: Mem, held: set<Frame>, end: nat, newEnd: nat)
    requires Sound(m, held) && ValidEnd(end) && ValidEnd(newEnd) && Exact(m, end)
    requires end <= newEnd && Brk(m, end, Some(newEnd)).2.None?
    ensures Exact(Brk(m, end, Some(newEnd)).0, end)
       <==> m.alloc.Available() <= MissingTables(m.tables.Keys, TablesOf(EndPage(end)))
  {
    hide Sound;
    hide MapRange;
    hide MissingTables;
    hide TablesOf;
    EndPageBounds(end);
    EndPageBounds(newEnd);
    assert newEnd != end;
    assert (newEnd - end) % WORD_MODULUS == newEnd - end;
    var lo, n := EndPage(end), GrowthOf(end, newEnd);
    assert n > 0 by {
      if n == 0 { MapRangeSucceeds(m, lo, 0, USER_FLAGS); }
    }
    FailedTryKeepsMap(m, held, lo, n);
    var done := MapRangeEffect(m, held, lo, n, USER_FLAGS);
    var t := MapRange(m, lo, n, USER_FLAGS).0;
    assert lo !in m.pages;
    if done > 0 {
      assert lo in t.pages;
    } else {
      assert t.pages == m.pages;
    }
  }

  /** A failing input: a fresh memory with frames for one page and its three tables, and
    * a call that asks for more. The heap then has a page beyond its end. */
  lemma FailedBrkLeavesPage()
    ensures var m, newEnd := Mem(Alloc(0, [1, 2, 3, 4], []), map[], map[]), HEAP_START + PAGE_SIZE;
      && Sound(m, {}) && Exact(m, HEAP_START) && Brk(m, HEAP_START, Some(newEnd)).2.None?
      && !Exact(Brk(m, HEAP_START, Some(newEnd)).0, HEAP_START)
  {
    var m, newEnd := Mem(Alloc(0, [1, 2, 3, 4], []), map[], map[]), HEAP_START + PAGE_SIZE;
    FreshIsSound(m);
    OnePageNeedsFour(HEAP_START_PAGE);
    hide Sound;
    hide MapRange;
    hide TablesOf;
    hide MissingTables;
    assert GrowthOf(HEAP_START, newEnd) == 2;
    MapRangeSucceeds(m, HEAP_START_PAGE, 2, USER_FLAGS);
    FailedBrkKeepsExact(m, {}, HEAP_START, newEnd);
  }

  lemma FreshIsSound(m: Mem)
    requires m == Mem(Alloc(0, [1, 2, 3, 4], []), map[], map[])
    ensures Sound(m, {}) && m.alloc.Available() == 4 && m.tables.Keys == {}
  {
  }

  lemma OnePageNeedsFour(page: nat)
    ensures MissingTables({}, TablesOf(page)) == 3 && Needed({}, page, 2) > 4
  {
    var t := TablesOf(page);
    assert t[1..] == [t[1], t[2]] && [t[1], t[2]][1..] == [t[2]] && [t[2]][1..] == [];
    var one: set<Table> := {} + {t[0]};
    assert MissingTables(one + {t[1]}, [t[2]]) == 1;
    assert MissingTables(one, [t[1], t[2]]) == 2;
  }

  /** `clean_up` unmaps exactly the heap. */
  lemma CleanUpUnmapsHeap(m: Mem, held: set<Frame>, end: nat)
    requires Sound(m, held) && ValidEnd(end) && forall p | InHeap(end, p) :: p in m.pages
    ensures var (t, end', ok) := CleanUpHeap(m, end);
      ok && end' == HEAP_START && Sound(t, held)
      && Retracts(m, t, HEAP_START_PAGE, EndPage(end) - HEAP_START_PAGE)
  {
    hide Sound;
    hide Retracts;
    hide UnmapRange;
    EndPageBounds(end);
    assert (end - HEAP_START) % WORD_MODULUS == end - HEAP_START;
    if end == HEAP_START {
      RetractsNothing(m, HEAP_START_PAGE);
    } else {
      forall p | HEAP_START_PAGE <= p < EndPage(end) ensures p in m.pages {
        assert InHeap(end, p);
      }
      UnmapRangeEffect(m, held, HEAP_START_PAGE, EndPage(end) - HEAP_START_PAGE);
    }
  }

  // ---- What brk answers --------------------------------------------------------------------

  /** The pages of the heap can be written by the user. */
  ghost predicate Granted(m: Mem, end: nat) { Usable(m.pages, HEAP_START_PAGE, EndPage(end), true) }

  /** Any call, whatever its outcome, leaves the heap up to the end it leaves granted. */
  lemma BrkGrants(m: Mem, held: set<Frame>, end: nat, newEnd: Option<nat>)
    requires Sound(m, held) && ValidEnd(end) && Granted(m, end)
    ensures var (t, end', r) := Brk(m, end, newEnd);
      Sound(t, held) && ValidEnd(end') && Granted(t, end') && (r.Some? ==> r == Some(end')) && (r.None? ==> end' == end)
  {
    hide Sound;
    hide MapRange;
    if newEnd.Some? && ValidEnd(newEnd.value) {
      EndPageBounds(end);
      EndPageBounds(newEnd.value);
      var done := MapRangeEffect(m, held, EndPage(end), GrowthOf(end, newEnd.value), USER_FLAGS);
    }
  }

  /** The memory and the end after calls of any kind and outcome. */
  ghost function AfterAny(m: Mem, end: nat, calls: seq<Option<nat>>): (Mem, nat)
    decreases calls
  {
    if calls == [] then (m, end)
    else
      var (t, end', _) := Brk(m, end, calls[0]);
      AfterAny(t, end', calls[1..])
  }

  /** The last answer of these calls that was not an error, or the end before them. */
  ghost function LastAnswer(m: Mem, end: nat, calls: seq<Option<nat>>): nat
    decreases calls
  {
    if calls == [] then end
    else
      var (t, end', r) := Brk(m, end, calls[0]);
      LastAnswer(t, if r.Some? then r.value else end, calls[1..])
  }

  /** After any calls of any sharers, a query changes nothing and answers the last address
    * that was answered; and every address below it can be written by the user. */
  lemma {:induction false} QueryAnswersGrantedEnd(m: Mem, held: set<Frame>, end: nat, calls: seq<Option<nat>>)
    requires Sound(m, held) && ValidEnd(end) && Granted(m, end)
    ensures var (t, last) := AfterAny(m, end, calls);
      && last == LastAnswer(m, end, calls) && Brk(t, last, None) == (t, last, Some(last))
      && forall addr | HEAP_START <= addr < last ::
           addr / PAGE_SIZE in t.pages
           && t.pages[addr / PAGE_SIZE].flags.writable && t.pages[addr / PAGE_SIZE].flags.user
    decreases calls
  {
    hide Sound;
    if calls == [] {
      forall addr | HEAP_START <= addr < end ensures HEAP_START_PAGE <= addr / PAGE_SIZE < EndPage(end) {}
    } else {
      BrkGrants(m, held, end, calls[0]);
      var (t, end', _) := Brk(m, end, calls[0]);
      hide Brk;
      QueryAnswersGrantedEnd(t, held, end', calls[1..]);
    }
  }

  // ---- Runs of brk -------------------------------------------------------------------------

  /** Calls by any mix of sharers, all successful and none of them shrinking. */
  ghost predicate Growing(m: Mem, end: nat, calls: seq<nat>)
    decreases calls
  {
    calls == [] ||
    (end <= calls[0] && Brk(m, end, Some(calls[0])).2.Some?
     && Growing(Brk(m, end, Some(calls[0])).0, calls[0], calls[1..]))
  }

  ghost function AfterCalls(m: Mem, end: nat, calls: seq<nat>): Mem
    decreases calls
  {
    if calls == [] then m else AfterCalls(Brk(m, end, Some(calls[0])).0, calls[0], calls[1..])
  }

  ghost function LastEnd(end: nat, calls: seq<nat>): nat {
    if calls == [] then end else calls[|calls| - 1]
  }

  /** After any such run the heap's area is mapped exactly up to the end, and mapped
    * pages have kept their frames. */
  lemma {:induction false} HeapStaysExact(m: Mem, held: set<Frame>, end: nat, calls: seq<nat>)
    requires Sound(m, held) && ValidEnd(end) && Exact(m, end) && Growing(m, end, calls)
    ensures var t := AfterCalls(m, end, calls);
      Sound(t, held) && ValidEnd(LastEnd(end, calls)) && Exact(t, LastEnd(end, calls)) && Grows(m, t)
    decreases calls
  {
    hide Sound;
    hide Grows;
    hide Exact;
    hide Brk;
    if calls == [] {
      GrowsReflexively(m);
    } else {
      var t := Brk(m, end, Some(calls[0])).0;
      BrkGrows(m, held, end, calls[0]);
      BrkKeepsExact(m, held, end, calls[0]);
      ExtendsIsGrows(m, t, EndPage(end), GrowthOf(end, calls[0]), USER_FLAGS);
      HeapStaysExact(t, held, calls[0], calls[1..]);
      GrowsTransitively(m, t, AfterCalls(t, calls[0], calls[1..]));
    }
  }

  lemma GrowsReflexively(m: Mem)
    ensures Grows(m, m)
  {
  }
}
