/** The physical frame allocator: frames come from the boot memory map and, once
  * freed, from a stack of recycled frames. */
module Frames {
  import opened Common

  type Frame = nat

  const PAGE_SIZE: nat := 4096

  /** Wrapping arithmetic on the 64-bit counter. */
  function Wrap(x: int): nat { x % WORD_MODULUS }

  /** A region of the memory map, starting at a physical address. */
  datatype Region = Region(conventional: bool, physStart: nat, pageCount: nat) {
    ghost predicate Has(f: Frame) {
      conventional && physStart / PAGE_SIZE <= f < physStart / PAGE_SIZE + pageCount
    }
  }

  function RegionFrames(r: Region): seq<Frame> {
    seq(r.pageCount, v requires 0 <= v => (v * PAGE_SIZE + r.physStart) / PAGE_SIZE)
  }

  /** The usable frames in the order in which they are handed out. */
  function FrameIter(regions: seq<Region>): seq<Frame> {
    if regions == [] then []
    else (if regions[0].conventional then RegionFrames(regions[0]) else []) + FrameIter(regions[1..])
  }

  /** The fields of the allocator that change: the counter, the rest of the iterator
    * and the recycled frames. */
  datatype Alloc = Alloc(used: nat, frames: seq<Frame>, recycle: seq<Frame>) {

    /** A recycled frame does not raise `used`; a failed call does. */
    function Allocate(): (r: (Alloc, Option<Frame>)) {
      if recycle != [] then
        (Alloc(used, frames, recycle[..|recycle| - 1]), Some(recycle[|recycle| - 1]))
      else if frames != [] then
        (Alloc(Wrap(used + 1), frames[1..], recycle), Some(frames[0]))
      else
        (Alloc(Wrap(used + 1), frames, recycle), None)
    }

    function Deallocate(f: Frame): (r: Alloc) {
      Alloc(Wrap(used - 1), frames, recycle + [f])
    }

    /** The frames that can still be handed out. */
    ghost function Free(): set<Frame> {
      (set f | f in frames) + (set f | f in recycle)
    }

    ghost function Available(): nat { |frames| + |recycle| }

    ghost predicate Distinct() {
      NoDuplicates(frames) && NoDuplicates(recycle) && forall f | f in frames :: f !in recycle
    }
  }

  lemma NoDuplicatesConcat(a: seq<Frame>, b: seq<Frame>)
    requires NoDuplicates(a) && NoDuplicates(b) && forall f | f in a :: f !in b
    ensures NoDuplicates(a + b)
  {
    forall i, j | 0 <= i < j < |a + b| ensures (a + b)[i] != (a + b)[j] {
      if i < |a| <= j {
        assert a[i] in a && b[j - |a|] in b;
      }
    }
  }

  class FrameAllocator {
    var size: nat
    var used: nat
    var frames: seq<Frame>
    var recycle: seq<Frame>

    ghost function View(): Alloc
      reads this
    {
      Alloc(used, frames, recycle)
    }

    constructor (memoryMap: seq<Region>, total: nat)
      ensures View() == Alloc(0, FrameIter(memoryMap), []) && size == total
    {
      size, used, frames, recycle := total, 0, FrameIter(memoryMap), [];
    }

    method AllocateFrame() returns (r: Option<Frame>)
      modifies this
      ensures (View(), r) == old(View()).Allocate() && size == old(size)
    {
      if recycle != [] {
        r := Some(recycle[|recycle| - 1]);
        recycle := recycle[..|recycle| - 1];
      } else {
        used := Wrap(used + 1);
        if frames == [] {
          return None;
        }
        r := Some(frames[0]);
        frames := frames[1..];
      }
    }

    method DeallocateFrame(f: Frame)
      modifies this
      ensures View() == old(View()).Deallocate(f) && size == old(size)
    {
      used := Wrap(used - 1);
      recycle := recycle + [f];
    }
  }

  // ---- Single calls ----------------------------------------------------------------

  /** An allocation takes one of the free frames, and fails only when there is none. */
  lemma AllocateTakes(a: Alloc)
    requires a.Distinct()
    ensures var (b, r) := a.Allocate();
      && b.Distinct()
      && (r.None? <==> a.Available() == 0)
      && (r.Some? ==> r.value in a.Free() && b.Free() == a.Free() - {r.value} && b.Available() == a.Available() - 1)
      && (r.None? ==> b.Free() == a.Free() == {} && b.Available() == 0)
  {
    var (b, r) := a.Allocate();
    if a.recycle != [] {
      var n := |a.recycle| - 1;
      assert a.recycle == a.recycle[..n] + [a.recycle[n]];
      assert a.recycle[n] !in a.recycle[..n];
    } else if a.frames != [] {
      assert a.frames == [a.frames[0]] + a.frames[1..];
      assert a.frames[0] !in a.frames[1..];
    }
  }

  /** A frame that is not free may be given back. */
  lemma DeallocateGives(a: Alloc, f: Frame)
    requires a.Distinct() && f !in a.Free()
    ensures a.Deallocate(f).Distinct() && a.Deallocate(f).Free() == a.Free() + {f}
    ensures a.Deallocate(f).Available() == a.Available() + 1
  {
  }

  /** The frame that was freed last is handed out first. */
  lemma FreedComesFirst(a: Alloc, f: Frame)
    ensures a.Deallocate(f).Allocate() == (a.(used := Wrap(a.used - 1)), Some(f))
  {
    assert (a.recycle + [f])[..|a.recycle|] == a.recycle;
  }

  /** What `n` allocations in a row hand out. */
  ghost function Handed(a: Alloc, n: nat): seq<Option<Frame>>
    decreases n
  {
    if n == 0 then [] else [a.Allocate().1] + Handed(a.Allocate().0, n - 1)
  }

  /** With nothing to recycle the frames come in the order of the memory map, and then none. */
  lemma {:induction false} FreshFramesInOrder(a: Alloc, n: nat)
    requires a.recycle == []
    ensures |Handed(a, n)| == n
    ensures forall i | 0 <= i < n :: Handed(a, n)[i] == if i < |a.frames| then Some(a.frames[i]) else None
    decreases n
  {
    if n > 0 {
      FreshFramesInOrder(a.Allocate().0, n - 1);
    }
  }

  // ---- The memory map --------------------------------------------------------------

  ghost predicate DisjointRegions(regions: seq<Region>) {
    forall i, j, f: Frame | 0 <= i < j < |regions| :: !(regions[i].Has(f) && regions[j].Has(f))
  }

  lemma RegionFrameAt(r: Region, v: nat)
    requires v < r.pageCount
    ensures RegionFrames(r)[v] == r.physStart / PAGE_SIZE + v
  {
  }

  lemma RegionFramesAreExact(r: Region, f: Frame)
    requires r.conventional
    ensures f in RegionFrames(r) <==> r.Has(f)
    ensures NoDuplicates(RegionFrames(r))
  {
    var first, fs := r.physStart / PAGE_SIZE, RegionFrames(r);
    forall v: nat | v < r.pageCount ensures fs[v] == first + v {
      RegionFrameAt(r, v);
    }
    if r.Has(f) {
      assert fs[f - first] == f;
    }
  }

  /** The iterator yields exactly the frames of the conventional regions. */
  lemma {:induction false} FrameIterIsExact(regions: seq<Region>, f: Frame)
    ensures f in FrameIter(regions) <==> exists i :: 0 <= i < |regions| && regions[i].Has(f)
  {
    if regions != [] {
      var head, tail := regions[0], regions[1..];
      FrameIterIsExact(tail, f);
      if head.conventional {
        RegionFramesAreExact(head, f);
      }
      assert forall i | 0 <= i < |tail| :: tail[i] == regions[i + 1];
      if i :| 0 <= i < |tail| && tail[i].Has(f) {
        assert regions[i + 1].Has(f);
      }
      if i :| 0 <= i < |regions| && regions[i].Has(f) {
        assert i == 0 || tail[i - 1].Has(f);
      }
    }
  }

  /** Each frame comes once when the regions do not overlap. */
  lemma {:induction false} FrameIterHasNoDuplicates(regions: seq<Region>)
    requires DisjointRegions(regions)
    ensures NoDuplicates(FrameIter(regions))
  {
    if regions != [] {
      var head, tail := regions[0], regions[1..];
      assert forall i | 0 <= i < |tail| :: tail[i] == regions[i + 1];
      FrameIterHasNoDuplicates(tail);
      if !head.conventional {
        assert FrameIter(regions) == FrameIter(tail);
      } else {
        RegionFramesAreExact(head, 0);
        forall f: Frame | f in RegionFrames(head) ensures f !in FrameIter(tail) {
          RegionFramesAreExact(head, f);
          FrameIterIsExact(tail, f);
          forall i | 0 <= i < |tail| ensures !tail[i].Has(f) {
            assert regions[0].Has(f) && tail[i] == regions[i + 1];
          }
        }
        NoDuplicatesConcat(RegionFrames(head), FrameIter(tail));
      }
    }
  }

  // ---- Whole traces ----------------------------------------------------------------

  datatype Call = AllocateFrame | DeallocateFrame(frame: Frame)

  /** The allocator with what its users hold and a count of the two kinds of calls
    * that the counter `used` treats differently. */
  datatype Ledger = Ledger(alloc: Alloc, outstanding: set<Frame>, reuses: nat, failures: nat)

  ghost function After(l: Ledger, c: Call): Ledger {
    match c
    case AllocateFrame =>
      var (b, r) := l.alloc.Allocate();
      if r.None? then Ledger(b, l.outstanding, l.reuses, l.failures + 1)
      else Ledger(b, l.outstanding + {r.value}, l.reuses + (if l.alloc.recycle != [] then 1 else 0), l.failures)
    case DeallocateFrame(f) => Ledger(l.alloc.Deallocate(f), l.outstanding - {f}, l.reuses, l.failures)
  }

  /** Users free only what they hold. */
  ghost predicate Honest(l: Ledger, calls: seq<Call>)
    decreases calls
  {
    calls == [] ||
    ((calls[0].DeallocateFrame? ==> calls[0].frame in l.outstanding) && Honest(After(l, calls[0]), calls[1..]))
  }

  ghost function AfterAll(l: Ledger, calls: seq<Call>): Ledger
    decreases calls
  {
    if calls == [] then l else AfterAll(After(l, calls[0]), calls[1..])
  }

  /** The counter in terms of what its users see. */
  ghost function Expected(l: Ledger): int { |l.outstanding| - l.reuses + l.failures }

  /** Remaining, recycled and outstanding frames partition the usable ones, and the
    * counter is the outstanding frames less the reuses plus the failed calls. */
  ghost predicate Consistent(l: Ledger, usable: set<Frame>) {
    Partitioned(l, usable) && l.alloc.used == Wrap(Expected(l))
  }

  ghost predicate Partitioned(l: Ledger, usable: set<Frame>) {
    && l.alloc.Distinct()
    && l.alloc.Free() !! l.outstanding
    && l.alloc.Free() + l.outstanding == usable
  }

  lemma WrapAdd(x: int, d: int)
    ensures Wrap(Wrap(x) + d) == Wrap(x + d)
  {
    assert x == WORD_MODULUS * (x / WORD_MODULUS) + Wrap(x);
  }

  /** A fresh frame and a failed call count up, a freed frame counts down. */
  ghost function Delta(l: Ledger, c: Call): int {
    if c.DeallocateFrame? then -1 else if l.alloc.recycle != [] then 0 else 1
  }

  lemma ExpectedFollows(l: Ledger, c: Call, usable: set<Frame>)
    requires Consistent(l, usable)
    requires c.DeallocateFrame? ==> c.frame in l.outstanding
    ensures Expected(After(l, c)) == Expected(l) + Delta(l, c)
  {
    if c.AllocateFrame? {
      AllocateTakes(l.alloc);
    }
  }

  lemma UsedFollows(l: Ledger, c: Call, e: int)
    requires l.alloc.used == Wrap(e)
    ensures After(l, c).alloc.used == Wrap(e + Delta(l, c))
  {
    WrapAdd(e, Delta(l, c));
  }

  /** In particular a frame is never handed out while it is outstanding. */
  lemma CallKeepsPartition(l: Ledger, c: Call, usable: set<Frame>)
    requires Partitioned(l, usable)
    requires c.DeallocateFrame? ==> c.frame in l.outstanding
    ensures Partitioned(After(l, c), usable)
    ensures c.AllocateFrame? && l.alloc.Allocate().1.Some? ==> l.alloc.Allocate().1.value !in l.outstanding
  {
    match c
    case AllocateFrame => AllocateTakes(l.alloc);
    case DeallocateFrame(f) => DeallocateGives(l.alloc, f);
  }

  lemma CallKeepsCount(l: Ledger, c: Call, usable: set<Frame>)
    requires Consistent(l, usable)
    requires c.DeallocateFrame? ==> c.frame in l.outstanding
    ensures After(l, c).alloc.used == Wrap(Expected(After(l, c)))
  {
    ExpectedFollows(l, c, usable);
    UsedFollows(l, c, Expected(l));
  }

  lemma {:induction false} RunKeepsConsistent(l: Ledger, calls: seq<Call>, usable: set<Frame>)
    requires Consistent(l, usable) && Honest(l, calls)
    ensures Consistent(AfterAll(l, calls), usable)
    decreases calls
  {
    if calls != [] {
      CallKeepsPartition(l, calls[0], usable);
      CallKeepsCount(l, calls[0], usable);
      RunKeepsConsistent(After(l, calls[0]), calls[1..], usable);
    }
  }

  /** Every trace from boot, over any memory map whose conventional regions do not
    * overlap. */
  lemma FramesArePartitioned(memoryMap: seq<Region>, calls: seq<Call>)
    requires DisjointRegions(memoryMap)
    requires Honest(Ledger(Alloc(0, FrameIter(memoryMap), []), {}, 0, 0), calls)
    ensures Consistent(
      AfterAll(Ledger(Alloc(0, FrameIter(memoryMap), []), {}, 0, 0), calls),
      set f | f in FrameIter(memoryMap))
  {
    FrameIterHasNoDuplicates(memoryMap);
    RunKeepsConsistent(Ledger(Alloc(0, FrameIter(memoryMap), []), {}, 0, 0), calls, set f | f in FrameIter(memoryMap));
  }
}
