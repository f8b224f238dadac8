/** The loader of ELF segments: file bytes and zeros go into fresh frames, page by page. */
module ElfLoader {
  import opened Common
  import opened Frames
  import opened Paging
  import opened PageTables
  import opened PhysicalMemory
  import opened Stacks
  import opened Families

  /** The fields of a program header that the loader reads. */
  datatype Segment = Segment(
    load: bool, offset: nat, vaddr: nat, fileSize: nat, memSize: nat, writable: bool, executable: bool)

  function SegmentFlags(s: Segment, user: bool): Flags {
    Flags(s.writable, user, !s.executable)
  }

  function AlignUp(x: nat): nat { (x + PAGE_SIZE - 1) / PAGE_SIZE * PAGE_SIZE }

  function FirstPage(s: Segment): nat { s.vaddr / PAGE_SIZE }

  /** The file is read from the page boundary below the segment's offset. */
  function FileStart(s: Segment): nat { s.offset / PAGE_SIZE * PAGE_SIZE }

  function FilePages(s: Segment): nat
    requires s.vaddr + s.fileSize > 0
  {
    PageCount(FirstPage(s), (s.vaddr + s.fileSize - 1) / PAGE_SIZE + 1)
  }

  function ZeroPages(s: Segment): nat {
    if s.memSize > s.fileSize
    then PageCount(AlignUp(s.vaddr + s.fileSize) / PAGE_SIZE, (s.vaddr + s.memSize) / PAGE_SIZE + 1)
    else 0
  }

  /** All pages that a segment gets, from its first one. */
  function PagesOf(s: Segment): nat
    requires s.vaddr + s.fileSize > 0
  {
    FilePages(s) + ZeroPages(s)
  }

  /** The range that the loader reports for a segment. */
  function Recorded(s: Segment): CodeRange
    requires s.vaddr + s.memSize > 0
  {
    CodeRange(FirstPage(s), PageCount(FirstPage(s), (s.vaddr + s.memSize - 1) / PAGE_SIZE + 1))
  }

  /** The file bytes that go into one page. The subtraction wraps around. */
  function CountAt(s: Segment, index: nat): nat {
    var rest := (s.fileSize - index * PAGE_SIZE) % WORD_MODULUS;
    if rest < PAGE_SIZE then rest else PAGE_SIZE
  }

  function Zeros(n: nat): (z: seq<Byte>)
    ensures |z| == n && forall o | 0 <= o < n :: z[o] == 0
  {
    seq(n, _ => 0)
  }

  /** Where the file bytes of a page start. */
  function SourceOf(s: Segment, index: nat): nat { FileStart(s) + index * PAGE_SIZE }

  /** No byte is taken from behind the end of the file. */
  ghost predicate InFile(input: seq<Byte>, s: Segment) {
    s.vaddr + s.fileSize > 0 ==>
      forall index: nat | index < FilePages(s) :: SourceOf(s, index) + CountAt(s, index) <= |input|
  }

  /** `count` bytes of the file and then zeros. */
  ghost function Image(input: seq<Byte>, from: nat, count: nat): (page: seq<Byte>)
    requires from + count <= |input| && count <= PAGE_SIZE
    ensures |page| == PAGE_SIZE
  {
    input[from..from + count] + Zeros(PAGE_SIZE)[count..]
  }

  ghost function FileImage(input: seq<Byte>, s: Segment, index: nat): seq<Byte>
    requires s.vaddr + s.fileSize > 0 && InFile(input, s) && index < FilePages(s)
  {
    Image(input, SourceOf(s, index), CountAt(s, index))
  }

  /** All pages of a segment, the file's and then the zero ones. */
  ghost function Images(input: seq<Byte>, s: Segment): seq<seq<Byte>>
    requires s.vaddr + s.fileSize > 0 && InFile(input, s)
  {
    FileImages(input, s, FilePages(s)) + ZeroImages(ZeroPages(s))
  }

  ghost function FileImages(input: seq<Byte>, s: Segment, n: nat): (images: seq<seq<Byte>>)
    requires s.vaddr + s.fileSize > 0 && InFile(input, s) && n <= FilePages(s)
    ensures |images| == n
    ensures forall i | 0 <= i < n :: images[i] == FileImage(input, s, i)
  {
    if n == 0 then [] else FileImages(input, s, n - 1) + [FileImage(input, s, n - 1)]
  }

  ghost function ZeroImages(n: nat): (images: seq<seq<Byte>>)
    ensures |images| == n
    ensures forall i | 0 <= i < n :: images[i] == Zeros(PAGE_SIZE)
  {
    if n == 0 then [] else ZeroImages(n - 1) + [Zeros(PAGE_SIZE)]
  }

  // ---- What placing pages does ------------------------------------------------------------------

  ghost predicate HoldsAt(pages: map<nat, Mapping>, rows: Rows, page: nat, image: seq<Byte>) {
    page in pages && pages[page].frame < |rows| && rows[pages[page].frame] == image
  }

  ghost predicate Holds(pages: map<nat, Mapping>, rows: Rows, lo: nat, images: seq<seq<Byte>>) {
    forall i | 0 <= i < |images| :: HoldsAt(pages, rows, lo + i, images[i])
  }

  /** The pages from `lo` are new and hold the images; no frame in use has changed. */
  ghost predicate Placed(m: Mem, was: Rows, t: Mem, now: Rows, lo: nat, images: seq<seq<Byte>>, flags: Flags) {
    && Extends(m, t, lo, |images|, flags)
    && |now| == |was|
    && (forall f | 0 <= f < |was| && f !in m.alloc.Free() :: now[f] == was[f])
    && Holds(t.pages, now, lo, images)
  }

  /** These pages are writable exactly if the segment is writable, closed to execution exactly
    * if it is not executable, and open to the user as the caller asks. */
  ghost predicate AsAsked(pages: map<nat, Mapping>, lo: nat, n: nat, s: Segment, user: bool) {
    forall p | lo <= p < lo + n ::
      && p in pages
      && (pages[p].flags.writable <==> s.writable)
      && (pages[p].flags.noExecute <==> !s.executable)
      && (pages[p].flags.user <==> user)
  }

  lemma PlacedIsAsAsked(m: Mem, was: Rows, t: Mem, now: Rows, lo: nat, images: seq<seq<Byte>>, s: Segment, user: bool)
    requires Placed(m, was, t, now, lo, images, SegmentFlags(s, user))
    ensures AsAsked(t.pages, lo, |images|, s, user)
  {
    hide Holds;
  }

  lemma PlacedNothing(m: Mem, was: Rows, lo: nat, flags: Flags)
    ensures Placed(m, was, m, was, lo, [], flags)
  {
    ExtendsNothing(m, lo, flags);
  }

  lemma UsedIsNotFree(m: Mem, held: set<Frame>, page: nat)
    requires Sound(m, held) && page in m.pages
    ensures m.pages[page].frame !in m.alloc.Free()
  {
    assert m.pages[page].frame in PageFrames(m);
  }

  /** Images stay in place while other pages are placed. */
  lemma HoldsOn(m: Mem, held: set<Frame>, was: Rows, t: Mem, now: Rows, lo: nat, more: seq<seq<Byte>>, flags: Flags,
                at: nat, images: seq<seq<Byte>>)
    requires Sound(m, held) && Placed(m, was, t, now, lo, more, flags) && Holds(m.pages, was, at, images)
    ensures Holds(t.pages, now, at, images)
  {
    hide Sound;
    forall i | 0 <= i < |images| ensures HoldsAt(t.pages, now, at + i, images[i]) {
      assert HoldsAt(m.pages, was, at + i, images[i]);
      UsedIsNotFree(m, held, at + i);
    }
  }

  lemma PlacedInTurn(m: Mem, held: set<Frame>, was: Rows, u: Mem, mid: Rows, t: Mem, now: Rows, lo: nat,
                     images: seq<seq<Byte>>, more: seq<seq<Byte>>, flags: Flags)
    requires Sound(u, held)
    requires Placed(m, was, u, mid, lo, images, flags) && Placed(u, mid, t, now, lo + |images|, more, flags)
    ensures Placed(m, was, t, now, lo, images + more, flags)
  {
    hide Sound;
    HoldsOn(u, held, mid, t, now, lo + |images|, more, flags, lo, images);
    assert Extends(m, t, lo, |images + more|, flags);
    forall i | 0 <= i < |images + more| ensures HoldsAt(t.pages, now, lo + i, (images + more)[i]) {
      if i < |images| {
        assert HoldsAt(t.pages, now, lo + i, images[i]);
      } else {
        assert HoldsAt(t.pages, now, lo + |images| + (i - |images|), more[i - |images|]);
      }
    }
  }

  /** One allocated frame, filled and mapped. */
  lemma PlacedOne(m: Mem, held: set<Frame>, was: Rows, now: Rows, page: nat, flags: Flags)
    requires Sound(m, held) && Backed(m, |was|) && m.alloc.Allocate().1.Some?
    requires |now| == |was| && m.alloc.Allocate().1.value < |was|
    requires forall f | 0 <= f < |was| && f != m.alloc.Allocate().1.value :: now[f] == was[f]
    ensures var (alloc, f) := m.alloc.Allocate();
      var (t, r) := MapTo(m.(alloc := alloc), page, f.value, flags);
      && Sound(t, held) && Backed(t, |was|)
      && (r.Mapped? ==> Placed(m, was, t, now, page, [now[f.value]], flags))
      && (!r.Mapped? ==> Placed(m, was, t, now, page, [], flags))
  {
    hide Sound;
    hide MapTo;
    AllocateKeepsSound(m, held);
    var (alloc, f) := m.alloc.Allocate();
    MapToEffect(m.(alloc := alloc), held, page, f.value, flags);
  }

  // ---- The loader -----------------------------------------------------------------------------

  /** A row after a write. */
  ghost function Overwritten(row: seq<Byte>, from: nat, data: seq<Byte>): (r: seq<Byte>)
    requires from + |data| <= |row|
    ensures |r| == |row|
    ensures forall o | 0 <= o < |row| :: r[o] == if from <= o < from + |data| then data[o - from] else row[o]
  {
    row[..from] + data + row[from + |data|..]
  }

  method WriteBytes(ram: array2<Byte>, f: Frame, from: nat, data: seq<Byte>)
    requires ram.Length1 == PAGE_SIZE && f < ram.Length0 && from + |data| <= PAGE_SIZE
    modifies ram
    ensures Contents(ram)[f] == Overwritten(old(Contents(ram))[f], from, data)
    ensures forall g | 0 <= g < ram.Length0 && g != f :: Contents(ram)[g] == old(Contents(ram))[g]
  {
    hide Overwritten;
    hide Contents;
    forall o | from <= o < from + |data| {
      ram[f, o] := data[o - from];
    }
    assert Contents(ram)[f] == Overwritten(old(Contents(ram))[f], from, data);
  }

  /** One page of file bytes: they are copied first, and the rest of the page is zeroed
    * once the page is mapped. */
  method LoadFilePage(page: nat, data: seq<Byte>, flags: Flags, table: PageTable, a: FrameAllocator,
                      ram: array2<Byte>, ghost held: set<Frame>)
    returns (r: MapResult)
    requires |data| <= PAGE_SIZE && ram.Length1 == PAGE_SIZE
    requires Sound(table.View(a), held) && Backed(table.View(a), ram.Length0)
    modifies table, a, ram
    ensures Sound(table.View(a), held) && Backed(table.View(a), ram.Length0)
    ensures Placed(old(table.View(a)), old(Contents(ram)), table.View(a), Contents(ram), page,
                   if r.Mapped? then [data + Zeros(PAGE_SIZE)[|data|..]] else [], flags)
    ensures (table.View(a), r) == MapRange(old(table.View(a)), page, 1, flags)
  {
    hide Sound;
    hide Backed;
    hide Placed;
    hide Contents;
    hide Overwritten;
    hide MapTo;
    ghost var m, was := table.View(a), Contents(ram);
    var f := a.AllocateFrame();
    if f.None? {
      PlacedNothingMore(m, held, was, page, flags);
      return FrameAllocationFailed;
    }
    AllocatedIsBacked(m, held, ram.Length0);
    WriteBytes(ram, f.value, 0, data);
    r := table.MapTo(page, f.value, flags, a);
    if r.Mapped? && |data| < PAGE_SIZE {
      WriteBytes(ram, f.value, |data|, Zeros(PAGE_SIZE - |data|));
    }
    assert r.Mapped? ==> Contents(ram)[f.value] == data + Zeros(PAGE_SIZE)[|data|..];
    PlacedOne(m, held, was, Contents(ram), page, flags);
  }

  method MapZeroPage(page: nat, flags: Flags, table: PageTable, a: FrameAllocator,
                     ram: array2<Byte>, ghost held: set<Frame>)
    returns (r: MapResult)
    requires ram.Length1 == PAGE_SIZE
    requires Sound(table.View(a), held) && Backed(table.View(a), ram.Length0)
    modifies table, a, ram
    ensures Sound(table.View(a), held) && Backed(table.View(a), ram.Length0)
    ensures Placed(old(table.View(a)), old(Contents(ram)), table.View(a), Contents(ram), page,
                   if r.Mapped? then [Zeros(PAGE_SIZE)] else [], flags)
    ensures (table.View(a), r) == MapRange(old(table.View(a)), page, 1, flags)
  {
    hide Sound;
    hide Backed;
    hide Placed;
    hide Contents;
    hide Overwritten;
    hide MapTo;
    ghost var m, was := table.View(a), Contents(ram);
    var f := a.AllocateFrame();
    if f.None? {
      PlacedNothingMore(m, held, was, page, flags);
      return FrameAllocationFailed;
    }
    AllocatedIsBacked(m, held, ram.Length0);
    r := table.MapTo(page, f.value, flags, a);
    if r.Mapped? {
      WriteBytes(ram, f.value, 0, Zeros(PAGE_SIZE));
    }
    assert r.Mapped? ==> Contents(ram)[f.value] == Zeros(PAGE_SIZE);
    PlacedOne(m, held, was, Contents(ram), page, flags);
  }

  lemma AllocatedIsBacked(m: Mem, held: set<Frame>, frames: nat)
    requires Sound(m, held) && Backed(m, frames) && m.alloc.Allocate().1.Some?
    ensures m.alloc.Allocate().1.value < frames
  {
    AllocateKeepsSound(m, held);
  }

  lemma PlacedNothingMore(m: Mem, held: set<Frame>, was: Rows, page: nat, flags: Flags)
    requires Sound(m, held) && Backed(m, |was|) && m.alloc.Allocate().1.None?
    ensures var t := m.(alloc := m.alloc.Allocate().0);
      Sound(t, held) && Backed(t, |was|) && Placed(m, was, t, was, page, [], flags)
  {
    hide Sound;
    AllocateKeepsSound(m, held);
  }

  datatype LoadResult = Loaded(range: CodeRange) | Failed(error: MapResult) | Stopped

  lemma ZeroPagesFollow(s: Segment)
    requires s.vaddr + s.fileSize > 0
    ensures AlignUp(s.vaddr + s.fileSize) / PAGE_SIZE == FirstPage(s) + FilePages(s)
  {
  }

  /** The pages placed before a failure among the file's pages. */
  lemma FileImagesPrefix(input: seq<Byte>, s: Segment, k: nat)
    requires s.vaddr + s.fileSize > 0 && InFile(input, s) && k <= FilePages(s)
    ensures |Images(input, s)| == FilePages(s) + ZeroPages(s)
    ensures Images(input, s)[..k] == FileImages(input, s, k)
  {
  }

  lemma ImagesPrefix(input: seq<Byte>, s: Segment, k: nat)
    requires s.vaddr + s.fileSize > 0 && InFile(input, s) && k <= ZeroPages(s)
    ensures |Images(input, s)| == FilePages(s) + ZeroPages(s)
    ensures Images(input, s)[..FilePages(s) + k] == FileImages(input, s, FilePages(s)) + ZeroImages(k)
  {
  }

  /** Load one segment. `done` counts the pages that were placed before the end or the
    * first failure. The loader stops on an address below zero. */
  method LoadSegment(input: seq<Byte>, s: Segment, user: bool, table: PageTable, a: FrameAllocator,
                     ram: array2<Byte>, ghost held: set<Frame>)
    returns (r: LoadResult, ghost done: nat)
    requires InFile(input, s) && ram.Length1 == PAGE_SIZE
    requires Sound(table.View(a), held) && Backed(table.View(a), ram.Length0)
    modifies table, a, ram
    ensures Sound(table.View(a), held) && Backed(table.View(a), ram.Length0)
    ensures s.vaddr + s.fileSize == 0 ==>
        r.Stopped? && table.View(a) == old(table.View(a)) && Contents(ram) == old(Contents(ram))
    ensures s.vaddr + s.fileSize > 0 ==>
        && done <= |Images(input, s)|
        && Placed(old(table.View(a)), old(Contents(ram)), table.View(a), Contents(ram), FirstPage(s),
                  Images(input, s)[..done], SegmentFlags(s, user))
        && (r.Failed? <==> done < |Images(input, s)|)
        && var (t, e) := MapRange(old(table.View(a)), FirstPage(s), PagesOf(s), SegmentFlags(s, user));
        && table.View(a) == t && r.Failed? == !e.Mapped? && (r.Failed? ==> r.error == e)
        && (r.Loaded? ==> s.vaddr + s.memSize > 0 && r.range == Recorded(s))
        && (r.Stopped? ==> s.vaddr + s.memSize == 0)
        && AsAsked(table.pages, FirstPage(s), done, s, user)
  {
    hide Sound;
    hide Backed;
    hide Placed;
    hide Images;
    hide FileImages;
    hide ZeroImages;
    hide FilePages;
    hide InFile;
    hide Contents;
    hide MapRange;
    hide AlignUp;
    hide FirstPage;
    hide PageCount;
    hide AsAsked;
    done := 0;
    if s.vaddr + s.fileSize == 0 {
      return Stopped, 0;
    }
    MapRangeSplits(table.View(a), FirstPage(s), FilePages(s), PagesOf(s), SegmentFlags(s, user));
    var error;
    error, done := LoadFilePages(input, s, user, table, a, ram, held);
    FileImagesPrefix(input, s, done);
    PlacedIsAsAsked(old(table.View(a)), old(Contents(ram)), table.View(a), Contents(ram), FirstPage(s),
                    FileImages(input, s, done), s, user);
    if !error.Mapped? {
      return Failed(error), done;
    }
    ghost var u, mid := table.View(a), Contents(ram);
    if s.memSize > s.fileSize {
      ZeroPagesFollow(s);
      ghost var more;
      error, more := MapZeroPages(AlignUp(s.vaddr + s.fileSize) / PAGE_SIZE, (s.vaddr + s.memSize) / PAGE_SIZE + 1,
                                  SegmentFlags(s, user), table, a, ram, held);
      ImagesPrefix(input, s, more);
      PlacedInTurn(old(table.View(a)), held, old(Contents(ram)), u, mid, table.View(a), Contents(ram), FirstPage(s),
                   FileImages(input, s, FilePages(s)), ZeroImages(more), SegmentFlags(s, user));
      PlacedIsAsAsked(old(table.View(a)), old(Contents(ram)), table.View(a), Contents(ram), FirstPage(s),
                      FileImages(input, s, FilePages(s)) + ZeroImages(more), s, user);
      done := done + more;
      if !error.Mapped? {
        return Failed(error), done;
      }
    }
    if s.vaddr + s.memSize == 0 {
      return Stopped, done;
    }
    var end := (s.vaddr + s.memSize - 1) / PAGE_SIZE + 1;
    r := Loaded(CodeRange(FirstPage(s), PageCount(FirstPage(s), end)));
  }

  lemma MapNothing()
    ensures forall m, lo, flags :: MapRange(m, lo, 0, flags) == (m, Mapped)
  {
  }

  method LoadFilePages(input: seq<Byte>, s: Segment, user: bool, table: PageTable, a: FrameAllocator,
                       ram: array2<Byte>, ghost held: set<Frame>)
    returns (r: MapResult, ghost done: nat)
    requires s.vaddr + s.fileSize > 0 && InFile(input, s) && ram.Length1 == PAGE_SIZE
    requires Sound(table.View(a), held) && Backed(table.View(a), ram.Length0)
    modifies table, a, ram
    ensures Sound(table.View(a), held) && Backed(table.View(a), ram.Length0)
    ensures done <= FilePages(s) && (r.Mapped? <==> done == FilePages(s))
    ensures (table.View(a), r) == MapRange(old(table.View(a)), FirstPage(s), FilePages(s), SegmentFlags(s, user))
    ensures Placed(old(table.View(a)), old(Contents(ram)), table.View(a), Contents(ram), FirstPage(s),
                   FileImages(input, s, done), SegmentFlags(s, user))
  {
    hide Sound;
    hide Backed;
    hide Placed;
    hide MapRange;
    done := 0;
    MapNothing();
    PlacedNothing(table.View(a), Contents(ram), FirstPage(s), SegmentFlags(s, user));
    var pages := FilePages(s);
    for index := 0 to pages
      invariant done == index
      invariant MapRange(table.View(a), FirstPage(s) + index, pages - index, SegmentFlags(s, user))
             == MapRange(old(table.View(a)), FirstPage(s), pages, SegmentFlags(s, user))
      invariant Sound(table.View(a), held) && Backed(table.View(a), ram.Length0)
      invariant Placed(old(table.View(a)), old(Contents(ram)), table.View(a), Contents(ram), FirstPage(s),
                       FileImages(input, s, index), SegmentFlags(s, user))
    {
      ghost var u, mid := table.View(a), Contents(ram);
      MapRangeSplits(u, FirstPage(s) + index, 1, pages - index, SegmentFlags(s, user));
      var from, count := SourceOf(s, index), CountAt(s, index);
      r := LoadFilePage(FirstPage(s) + index, input[from..from + count], SegmentFlags(s, user), table, a, ram, held);
      ghost var more := if r.Mapped? then [FileImage(input, s, index)] else [];
      PlacedInTurn(old(table.View(a)), held, old(Contents(ram)), u, mid, table.View(a), Contents(ram), FirstPage(s),
                   FileImages(input, s, index), more, SegmentFlags(s, user));
      if !r.Mapped? {
        assert FileImages(input, s, index) + more == FileImages(input, s, index);
        return;
      }
      done := done + 1;
    }
    r := Mapped;
  }

  method MapZeroPages(lo: nat, hi: nat, flags: Flags, table: PageTable, a: FrameAllocator,
                      ram: array2<Byte>, ghost held: set<Frame>)
    returns (r: MapResult, ghost done: nat)
    requires ram.Length1 == PAGE_SIZE
    requires Sound(table.View(a), held) && Backed(table.View(a), ram.Length0)
    modifies table, a, ram
    ensures Sound(table.View(a), held) && Backed(table.View(a), ram.Length0)
    ensures done <= PageCount(lo, hi) && (r.Mapped? <==> done == PageCount(lo, hi))
    ensures (table.View(a), r) == MapRange(old(table.View(a)), lo, PageCount(lo, hi), flags)
    ensures Placed(old(table.View(a)), old(Contents(ram)), table.View(a), Contents(ram), lo, ZeroImages(done), flags)
  {
    hide Sound;
    hide Backed;
    hide Placed;
    hide MapRange;
    done := 0;
    MapNothing();
    PlacedNothing(table.View(a), Contents(ram), lo, flags);
    var page := lo;
    while page < hi
      invariant page == lo + done && done <= PageCount(lo, hi)
      invariant MapRange(table.View(a), page, PageCount(page, hi), flags)
             == MapRange(old(table.View(a)), lo, PageCount(lo, hi), flags)
      invariant Sound(table.View(a), held) && Backed(table.View(a), ram.Length0)
      invariant Placed(old(table.View(a)), old(Contents(ram)), table.View(a), Contents(ram), lo,
                       ZeroImages(done), flags)
    {
      ghost var u, mid := table.View(a), Contents(ram);
      MapRangeSplits(u, page, 1, PageCount(page, hi), flags);
      r := MapZeroPage(page, flags, table, a, ram, held);
      ghost var more := if r.Mapped? then [Zeros(PAGE_SIZE)] else [];
      PlacedInTurn(old(table.View(a)), held, old(Contents(ram)), u, mid, table.View(a), Contents(ram), lo,
                   ZeroImages(done), more, flags);
      if !r.Mapped? {
        assert ZeroImages(done) + more == ZeroImages(done);
        return;
      }
      done := done + 1;
      page := page + 1;
    }
    r := Mapped;
  }
}
