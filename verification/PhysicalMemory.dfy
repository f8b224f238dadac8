/** Physical memory as rows of bytes, one row per frame, and the word-by-word copy
  * between two virtual ranges that fork makes. */
module PhysicalMemory {
  import opened Common
  import opened Frames
  import opened Paging

  type Byte = bv8

  const WORD: nat := 8

  /** All frames that the address space uses or may still get are in memory. */
  ghost predicate Backed(m: Mem, frames: nat) {
    && (forall p | p in m.pages :: m.pages[p].frame < frames)
    && (forall f | f in m.alloc.Free() :: f < frames)
  }

  /** The contents of memory as a value: one row of bytes per frame. */
  type Rows = seq<seq<Byte>>

  ghost function Contents(ram: array2<Byte>): (rows: Rows)
    reads ram
    ensures |rows| == ram.Length0
    ensures forall f | 0 <= f < |rows| :: |rows[f]| == ram.Length1
    ensures forall f, o | 0 <= f < |rows| && 0 <= o < ram.Length1 :: rows[f][o] == ram[f, o]
  {
    seq(ram.Length0, f requires 0 <= f < ram.Length0 reads ram =>
      seq(ram.Length1, o requires 0 <= o < ram.Length1 reads ram => ram[f, o]))
  }

  /** The byte that a process reads at a virtual address. */
  ghost function ReadAt(pages: map<nat, Mapping>, rows: Rows, addr: nat): Option<Byte> {
    var page, offset := addr / PAGE_SIZE, addr % PAGE_SIZE;
    if page in pages && pages[page].frame < |rows| && offset < |rows[pages[page].frame]|
    then Some(rows[pages[page].frame][offset]) else None
  }

  /** The frame behind the page at this distance from `lo`. */
  function FrameAt(pages: map<nat, Mapping>, lo: nat, i: nat): Frame
    requires lo + i in pages
  {
    pages[lo + i].frame
  }

  /** The pages `[lo, lo + n)` are mapped to different frames of this memory. */
  ghost predicate Accessible(pages: map<nat, Mapping>, frames: nat, lo: nat, n: nat) {
    && (forall p | lo <= p < lo + n :: p in pages)
    && (forall i | 0 <= i < n :: FrameAt(pages, lo, i) < frames)
    && (forall i, j | 0 <= i < j < n :: FrameAt(pages, lo, i) != FrameAt(pages, lo, j))
  }

  ghost predicate InRange(pages: map<nat, Mapping>, lo: nat, n: nat, f: Frame)
    requires forall p | lo <= p < lo + n :: p in pages
  {
    exists i :: 0 <= i < n && FrameAt(pages, lo, i) == f
  }

  /** The rows of one range went into the rows of the other; no other row changed. */
  ghost predicate Cloned(was: Rows, now: Rows, pages: map<nat, Mapping>, src: nat, dst: nat, n: nat)
    requires Accessible(pages, |was|, src, n) && Accessible(pages, |was|, dst, n)
  {
    && |now| == |was|
    && (forall i | 0 <= i < n :: now[FrameAt(pages, dst, i)] == was[FrameAt(pages, src, i)])
    && (forall f | 0 <= f < |was| && !InRange(pages, dst, n, f) :: now[f] == was[f])
  }

  /** Copy `n` pages, eight bytes at a time. */
  method CloneRange(pages: map<nat, Mapping>, ram: array2<Byte>, src: nat, dst: nat, n: nat)
    requires ram.Length1 == PAGE_SIZE
    requires Accessible(pages, ram.Length0, src, n) && Accessible(pages, ram.Length0, dst, n)
    requires forall i | 0 <= i < n :: !InRange(pages, dst, n, FrameAt(pages, src, i))
    modifies ram
    ensures Cloned(old(Contents(ram)), Contents(ram), pages, src, dst, n)
  {
    CopyWords(pages, ram, src, dst, n);
  }

  method CopyWords(pages: map<nat, Mapping>, ram: array2<Byte>, src: nat, dst: nat, n: nat)
    requires ram.Length1 == PAGE_SIZE
    requires Accessible(pages, ram.Length0, src, n) && Accessible(pages, ram.Length0, dst, n)
    requires forall i | 0 <= i < n :: !InRange(pages, dst, n, FrameAt(pages, src, i))
    modifies ram
    ensures forall i, o | 0 <= i < n && 0 <= o < PAGE_SIZE ::
        ram[FrameAt(pages, dst, i), o] == old(ram[FrameAt(pages, src, i), o])
    ensures forall f, o | 0 <= f < ram.Length0 && 0 <= o < PAGE_SIZE && !InRange(pages, dst, n, f) ::
        ram[f, o] == old(ram[f, o])
  {
    ghost var page: nat, offset: nat := 0, 0;
    for w := 0 to n * PAGE_SIZE / WORD
      invariant WORD * w == PAGE_SIZE * page + offset && offset < PAGE_SIZE && offset % WORD == 0
      invariant forall i, o | 0 <= i < n && 0 <= o < PAGE_SIZE && (i < page || (i == page && o < offset)) ::
          ram[FrameAt(pages, dst, i), o] == old(ram[FrameAt(pages, src, i), o])
      invariant forall f, o | 0 <= f < ram.Length0 && 0 <= o < PAGE_SIZE && !InRange(pages, dst, n, f) ::
          ram[f, o] == old(ram[f, o])
    {
      Place(w, n, page, offset);
      CopyWord(ram, FrameAt(pages, src, WORD * w / PAGE_SIZE), FrameAt(pages, dst, WORD * w / PAGE_SIZE),
               WORD * w % PAGE_SIZE);
      offset := offset + WORD;
      if offset == PAGE_SIZE {
        page, offset := page + 1, 0;
      }
    }
  }

  lemma Place(w: nat, n: nat, page: nat, offset: nat)
    requires w < n * PAGE_SIZE / WORD && WORD * w == PAGE_SIZE * page + offset && offset < PAGE_SIZE
    ensures page < n && WORD * w / PAGE_SIZE == page && WORD * w % PAGE_SIZE == offset
  {
    assert w < n * 512;
  }

  method CopyWord(ram: array2<Byte>, from: Frame, to: Frame, offset: nat)
    requires ram.Length1 == PAGE_SIZE && from < ram.Length0 && to < ram.Length0 && offset + WORD <= PAGE_SIZE
    requires from != to
    modifies ram
    ensures forall o | offset <= o < offset + WORD :: ram[to, o] == old(ram[from, o])
    ensures forall f, o | 0 <= f < ram.Length0 && 0 <= o < PAGE_SIZE && !(f == to && offset <= o < offset + WORD) ::
        ram[f, o] == old(ram[f, o])
  {
    forall o | offset <= o < offset + WORD {
      ram[to, o] := ram[from, o];
    }
  }
}
