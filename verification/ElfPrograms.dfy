/** Whole programs: all segments of a file, what the process reads afterwards, and for
  * which segments the loader is right. */
module ElfPrograms {
  import opened Common
  import opened Frames
  import opened Paging
  import opened PageTables
  import opened PhysicalMemory
  import opened Stacks
  import opened Heaps
  import opened Families
  import opened ElfLoader

  // ---- One segment --------------------------------------------------------------------------

  /** Both addresses are on a page boundary, and the file part fits. */
  ghost predicate Aligned(s: Segment) {
    s.vaddr % PAGE_SIZE == 0 && s.offset % PAGE_SIZE == 0 && s.fileSize <= s.memSize
  }

  /** The loader finds all bytes of the segments it loads. */
  ghost predicate Complete(input: seq<Byte>, segs: seq<Segment>) {
    forall s | s in segs && s.load :: InFile(input, s)
  }

  /** The process reads the file bytes and then zeros. */
  ghost predicate Reads(pages: map<nat, Mapping>, rows: Rows, input: seq<Byte>, s: Segment)
    requires s.offset + s.fileSize <= |input|
  {
    forall addr | s.vaddr <= addr < s.vaddr + s.memSize ::
      ReadAt(pages, rows, addr) == Some(if addr < s.vaddr + s.fileSize then input[s.offset + addr - s.vaddr] else 0)
  }

  lemma AlignedCount(s: Segment, index: nat)
    requires Aligned(s) && s.vaddr + s.fileSize > 0 && index < FilePages(s) && s.fileSize < WORD_MODULUS
    ensures var rest := s.fileSize - index * PAGE_SIZE;
      CountAt(s, index) == if rest < PAGE_SIZE then rest else PAGE_SIZE
    ensures index * PAGE_SIZE < s.fileSize
    ensures SourceOf(s, index) == s.offset + index * PAGE_SIZE
  {
    assert (s.vaddr + s.fileSize - 1) / PAGE_SIZE - s.vaddr / PAGE_SIZE == (s.fileSize - 1) / PAGE_SIZE;
  }

  lemma AlignedIsInFile(input: seq<Byte>, s: Segment)
    requires Aligned(s) && s.offset + s.fileSize <= |input| && s.fileSize < WORD_MODULUS
    ensures InFile(input, s)
  {
    if s.vaddr + s.fileSize > 0 {
      forall index: nat | index < FilePages(s) ensures SourceOf(s, index) + CountAt(s, index) <= |input| {
        AlignedCount(s, index);
      }
    }
  }

  /** A file whose loaded segments are aligned and complete meets what the loader needs. */
  lemma AlignedFileIsComplete(input: seq<Byte>, segs: seq<Segment>)
    requires forall s | s in segs && s.load ::
        Aligned(s) && s.offset + s.fileSize <= |input| && s.fileSize < WORD_MODULUS
    ensures Complete(input, segs)
  {
    forall s | s in segs && s.load ensures InFile(input, s) {
      AlignedIsInFile(input, s);
    }
  }

  /** Which page of the segment a byte is in, and what the page holds there. */
  lemma AlignedByte(input: seq<Byte>, s: Segment, j: nat)
    requires Aligned(s) && s.vaddr + s.fileSize > 0 && s.fileSize < WORD_MODULUS && InFile(input, s)
    requires j < s.memSize && s.offset + s.fileSize <= |input|
    ensures (s.vaddr + j) / PAGE_SIZE == FirstPage(s) + j / PAGE_SIZE && (s.vaddr + j) % PAGE_SIZE == j % PAGE_SIZE
    ensures j / PAGE_SIZE < |Images(input, s)|
    ensures |Images(input, s)[j / PAGE_SIZE]| == PAGE_SIZE
    ensures Images(input, s)[j / PAGE_SIZE][j % PAGE_SIZE] == if j < s.fileSize then input[s.offset + j] else 0
  {
    var index := j / PAGE_SIZE;
    ImagesPrefix(input, s, 0);
    ZeroPagesFollow(s);
    if index < FilePages(s) {
      AlignedCount(s, index);
      assert Images(input, s)[index] == FileImage(input, s, index);
      hide CountAt;
      hide SourceOf;
    } else {
      assert Images(input, s)[index] == Zeros(PAGE_SIZE);
    }
  }

  /** A loaded aligned segment reads as the file says. */
  lemma AlignedReads(pages: map<nat, Mapping>, rows: Rows, input: seq<Byte>, s: Segment)
    requires Aligned(s) && s.vaddr + s.fileSize > 0 && s.fileSize < WORD_MODULUS && s.offset + s.fileSize <= |input|
    requires InFile(input, s) && Holds(pages, rows, FirstPage(s), Images(input, s))
    ensures Reads(pages, rows, input, s)
  {
    hide InFile;
    hide Images;
    forall addr | s.vaddr <= addr < s.vaddr + s.memSize
      ensures ReadAt(pages, rows, addr)
           == Some(if addr < s.vaddr + s.fileSize then input[s.offset + addr - s.vaddr] else 0)
    {
      var j := addr - s.vaddr;
      AlignedByte(input, s, j);
      assert HoldsAt(pages, rows, FirstPage(s) + j / PAGE_SIZE, Images(input, s)[j / PAGE_SIZE]);
    }
  }

  /** The loader maps one page behind the segment. */
  ghost predicate Overshoots(s: Segment) { s.memSize > s.fileSize && (s.vaddr + s.memSize) % PAGE_SIZE == 0 }

  /** A segment gets the pages of its reported range, and one more at its end exactly when it
    * has a zero part and ends on a page boundary. */
  lemma ExtraPage(s: Segment)
    requires s.fileSize <= s.memSize && s.vaddr + s.fileSize > 0
    ensures Recorded(s).lo == s.vaddr / PAGE_SIZE
    ensures Recorded(s).lo + Recorded(s).count == (s.vaddr + s.memSize + PAGE_SIZE - 1) / PAGE_SIZE
    ensures PagesOf(s) == Recorded(s).count + if Overshoots(s) then 1 else 0
  {
    ZeroPagesFollow(s);
  }

  // ---- Which segments are loaded right ---------------------------------------------------------

  /** The page of the segment that a byte of the file part is in. */
  ghost function PageOf(s: Segment, j: nat): nat { (s.vaddr % PAGE_SIZE + j) / PAGE_SIZE }

  /** The bytes of one page lie inside the file. */
  ghost predicate PageInFile(input: seq<Byte>, s: Segment, index: nat) {
    SourceOf(s, index) + CountAt(s, index) <= |input|
  }

  /** The byte that the loader leaves at a distance from the segment's address. */
  ghost function LoadedByte(input: seq<Byte>, s: Segment, j: nat): Byte
    requires PageInFile(input, s, PageOf(s, j))
  {
    var index, o := PageOf(s, j), (s.vaddr % PAGE_SIZE + j) % PAGE_SIZE;
    if o < CountAt(s, index) then input[SourceOf(s, index) + o] else 0
  }

  /** It is what a process reads there once that page is loaded. */
  lemma LoadedByteIsRead(pages: map<nat, Mapping>, rows: Rows, input: seq<Byte>, s: Segment, j: nat)
    requires j < s.fileSize && PageInFile(input, s, PageOf(s, j))
    requires HoldsAt(pages, rows, FirstPage(s) + PageOf(s, j),
                     Image(input, SourceOf(s, PageOf(s, j)), CountAt(s, PageOf(s, j))))
    ensures ReadAt(pages, rows, s.vaddr + j) == Some(LoadedByte(input, s, j))
  {
    hide SourceOf;
    hide CountAt;
    PlaceOfByte(s, j);
  }

  /** Loading the segment loads that page. */
  lemma LoadedPage(pages: map<nat, Mapping>, rows: Rows, input: seq<Byte>, s: Segment, j: nat)
    requires j < s.fileSize && InFile(input, s) && Holds(pages, rows, FirstPage(s), Images(input, s))
    ensures PageInFile(input, s, PageOf(s, j))
    ensures HoldsAt(pages, rows, FirstPage(s) + PageOf(s, j),
                    Image(input, SourceOf(s, PageOf(s, j)), CountAt(s, PageOf(s, j))))
  {
    hide InFile;
    hide Images;
    hide FilePages;
    hide SourceOf;
    hide CountAt;
    PlaceOfByte(s, j);
    ImageOfPage(input, s, PageOf(s, j));
    assert HoldsAt(pages, rows, FirstPage(s) + PageOf(s, j), Images(input, s)[PageOf(s, j)]);
  }

  lemma PlaceOfByte(s: Segment, j: nat)
    requires j < s.fileSize
    ensures var k := s.vaddr % PAGE_SIZE + j;
      && (s.vaddr + j) / PAGE_SIZE == FirstPage(s) + k / PAGE_SIZE && (s.vaddr + j) % PAGE_SIZE == k % PAGE_SIZE
      && k / PAGE_SIZE < FilePages(s)
  {
  }

  lemma ImageOfPage(input: seq<Byte>, s: Segment, index: nat)
    requires s.vaddr + s.fileSize > 0 && InFile(input, s) && index < FilePages(s)
    ensures index < |Images(input, s)|
    ensures SourceOf(s, index) + CountAt(s, index) <= |input| && CountAt(s, index) <= PAGE_SIZE
    ensures Images(input, s)[index] == Image(input, SourceOf(s, index), CountAt(s, index))
  {
    ImagesPrefix(input, s, 0);
  }

  /** Right wherever the loader reads inside the file. */
  ghost predicate LoadsRight(input: seq<Byte>, s: Segment)
    requires s.offset + s.fileSize <= |input|
  {
    forall j: nat | j < s.fileSize && PageInFile(input, s, PageOf(s, j)) ::
      LoadedByte(input, s, j) == input[s.offset + j]
  }

  /** The file part of a segment comes out right for every content of the file exactly
    * when the segment is aligned, in memory and in the file. */
  lemma RightForAllFilesIffAligned(s: Segment, size: nat)
    requires 0 < s.fileSize < WORD_MODULUS && s.offset + s.fileSize <= size
    ensures (forall input: seq<Byte> | |input| == size :: LoadsRight(input, s))
       <==> s.vaddr % PAGE_SIZE == 0 && s.offset % PAGE_SIZE == 0
  {
    hide LoadedByte;
    hide PageInFile;
    if s.vaddr % PAGE_SIZE != 0 {
      var input := seq(size, _ => 1 as Byte);
      var j := TailIsDropped(input, s);
      assert input[s.offset + j] == 1 && !LoadsRight(input, s);
    } else if s.offset % PAGE_SIZE != 0 {
      var input := seq(size, i => if i == s.offset then 1 as Byte else 0);
      FirstByteIsEarlier(input, s);
      assert input[s.offset + 0] == 1 && !LoadsRight(input, s);
    } else {
      forall input: seq<Byte> | |input| == size ensures LoadsRight(input, s) {
        AlignedLoadsRight(input, s);
      }
    }
  }

  /** The loader counts the file size from the page boundary, so that a segment which
    * does not start on one loses its last bytes to zeros. */
  lemma TailIsDropped(input: seq<Byte>, s: Segment) returns (j: nat)
    requires s.vaddr % PAGE_SIZE != 0 && 0 < s.fileSize < WORD_MODULUS && s.offset + s.fileSize <= |input|
    ensures j < s.fileSize && PageInFile(input, s, PageOf(s, j)) && LoadedByte(input, s, j) == 0
  {
    var v := s.vaddr % PAGE_SIZE;
    j := if s.fileSize < v then 0 else s.fileSize - v;
    var index := PageOf(s, j);
    assert CountAt(s, index) == s.fileSize - index * PAGE_SIZE;
  }

  /** A segment that does not start on a page boundary of the file is read from there
    * all the same. */
  lemma FirstByteIsEarlier(input: seq<Byte>, s: Segment)
    requires s.vaddr % PAGE_SIZE == 0 && s.offset % PAGE_SIZE != 0
    requires 0 < s.fileSize < WORD_MODULUS && s.offset + s.fileSize <= |input|
    ensures PageInFile(input, s, PageOf(s, 0))
    ensures LoadedByte(input, s, 0) == input[s.offset - s.offset % PAGE_SIZE]
  {
    assert 0 < CountAt(s, 0) <= s.fileSize;
  }

  lemma AlignedLoadsRight(input: seq<Byte>, s: Segment)
    requires s.fileSize < WORD_MODULUS && s.offset + s.fileSize <= |input|
    requires s.vaddr % PAGE_SIZE == 0 && s.offset % PAGE_SIZE == 0
    ensures LoadsRight(input, s)
  {
    forall j: nat | j < s.fileSize && PageInFile(input, s, PageOf(s, j))
      ensures LoadedByte(input, s, j) == input[s.offset + j]
    {
      var index := PageOf(s, j);
      assert (s.fileSize - index * PAGE_SIZE) % WORD_MODULUS == s.fileSize - index * PAGE_SIZE;
    }
  }

  // ---- All segments of a file -----------------------------------------------------------------

  /** Neither of the two subtractions of the loader goes below zero. */
  ghost predicate Loadable(s: Segment) { s.vaddr + s.fileSize > 0 && s.vaddr + s.memSize > 0 }

  ghost predicate Covers(s: Segment, page: nat) {
    s.load && s.vaddr + s.fileSize > 0 && FirstPage(s) <= page < FirstPage(s) + PagesOf(s)
  }

  /** Mappings are kept, and frames that were not free keep their contents. */
  ghost predicate Keeps(m: Mem, was: Rows, t: Mem, now: Rows) {
    Grows(m, t) && |now| == |was| && forall f | 0 <= f < |was| && f !in m.alloc.Free() :: now[f] == was[f]
  }

  /** The ranges reported for the segments that are loaded. */
  ghost function AllRecorded(segs: seq<Segment>): seq<CodeRange>
    requires forall s | s in segs && s.load :: Loadable(s)
  {
    if segs == [] then []
    else
      var last := segs[|segs| - 1];
      assert last in segs && (last.load ==> Loadable(last));
      AllRecorded(segs[..|segs| - 1]) + if last.load then [Recorded(last)] else []
  }

  /** The pages of a loaded segment are mapped as its header and the caller ask. */
  ghost predicate Protected(pages: map<nat, Mapping>, s: Segment, user: bool) {
    s.load && s.vaddr + s.fileSize > 0 ==> AsAsked(pages, FirstPage(s), PagesOf(s), s, user)
  }

  ghost predicate Present(t: Mem, now: Rows, input: seq<Byte>, s: Segment, user: bool)
    requires s.load ==> InFile(input, s)
  {
    s.load ==>
      && Loadable(s)
      && Holds(t.pages, now, FirstPage(s), Images(input, s))
      && forall p | Covers(s, p) && p in t.pages :: t.pages[p].flags == SegmentFlags(s, user)
  }

  /** After the first `k` segments: each is in memory with its flags, and its pages are
    * new and its own; nothing else was mapped. */
  ghost predicate Progress(input: seq<Byte>, segs: seq<Segment>, k: nat, user: bool, m: Mem, t: Mem, now: Rows)
    requires k <= |segs| && Complete(input, segs)
  {
    Placement(segs, k, m, t) && forall i | 0 <= i < k :: Present(t, now, input, segs[i], user)
  }

  /** The new pages of `t` are those of the first `k` segments, each in one of them. */
  ghost predicate Placement(segs: seq<Segment>, k: nat, m: Mem, t: Mem)
    requires k <= |segs|
  {
    && (forall i, p | 0 <= i < k && Covers(segs[i], p) :: p !in m.pages && p in t.pages)
    && (forall i, j, p | 0 <= i < j < k && Covers(segs[i], p) :: !Covers(segs[j], p))
    && (forall p | p in t.pages && p !in m.pages :: CoveredBy(segs, k, p))
  }

  lemma CoveredByMore(segs: seq<Segment>, k: nat, page: nat)
    requires k < |segs|
    ensures CoveredBy(segs, k + 1, page) <==> CoveredBy(segs, k, page) || Covers(segs[k], page)
  {
    hide Covers;
  }

  /** The next segment has just the pages that are new in `t`. */
  lemma PlacementGrows(segs: seq<Segment>, k: nat, m: Mem, u: Mem, t: Mem)
    requires k < |segs| && Placement(segs, k, m, u)
    requires forall p | p in u.pages :: p in t.pages
    requires forall p :: Covers(segs[k], p) <==> p !in u.pages && p in t.pages
    requires forall p | Covers(segs[k], p) :: p !in m.pages
    ensures Placement(segs, k + 1, m, t)
  {
    hide Covers;
    hide CoveredBy;
    forall p | p in t.pages && p !in m.pages ensures CoveredBy(segs, k + 1, p) {
      CoveredByMore(segs, k, p);
    }
  }

  /** One of the first `k` segments has the page. */
  ghost predicate CoveredBy(segs: seq<Segment>, k: nat, page: nat)
    requires k <= |segs|
  {
    exists i :: 0 <= i < k && Covers(segs[i], page)
  }

  /** The whole file is in memory. */
  ghost predicate Ready(input: seq<Byte>, segs: seq<Segment>, user: bool, m: Mem, t: Mem, now: Rows) {
    && Complete(input, segs)
    && (forall s | s in segs && s.load :: Loadable(s))
    && Progress(input, segs, |segs|, user, m, t, now)
  }

  lemma ReadyIsLoadable(input: seq<Byte>, segs: seq<Segment>, user: bool, m: Mem, t: Mem, now: Rows)
    requires Ready(input, segs, user, m, t, now)
    ensures forall s | s in segs && s.load :: Loadable(s)
  {
    hide Complete;
    hide Progress;
  }

  lemma KeepsNothing(m: Mem, was: Rows)
    ensures Keeps(m, was, m, was)
  {
  }

  lemma NoProgress(input: seq<Byte>, segs: seq<Segment>, user: bool, m: Mem, was: Rows)
    requires Complete(input, segs)
    ensures Progress(input, segs, 0, user, m, m, was)
  {
  }

  lemma SkippedProgress(input: seq<Byte>, segs: seq<Segment>, k: nat, user: bool, m: Mem, t: Mem, now: Rows)
    requires k < |segs| && Complete(input, segs) && !segs[k].load
    requires Progress(input, segs, k, user, m, t, now)
    ensures Progress(input, segs, k + 1, user, m, t, now)
  {
    NotLoaded(t, now, input, segs[k], user);
    hide Present;
    hide Covers;
    hide InFile;
    PlacementGrows(segs, k, m, t, t);
    hide Placement;
  }

  lemma NotLoaded(t: Mem, now: Rows, input: seq<Byte>, s: Segment, user: bool)
    requires !s.load
    ensures Present(t, now, input, s, user) && forall p :: !Covers(s, p)
  {
  }

  lemma PlacedKeeps(m: Mem, was: Rows, u: Mem, mid: Rows, t: Mem, now: Rows,
                    lo: nat, images: seq<seq<Byte>>, flags: Flags)
    requires Keeps(m, was, u, mid) && Placed(u, mid, t, now, lo, images, flags)
    ensures Keeps(m, was, t, now)
  {
  }

  lemma PresentStays(u: Mem, held: set<Frame>, mid: Rows, t: Mem, now: Rows, lo: nat, images: seq<seq<Byte>>,
                     flags: Flags, input: seq<Byte>, s: Segment, user: bool)
    requires (s.load ==> InFile(input, s)) && Sound(u, held) && Placed(u, mid, t, now, lo, images, flags)
    requires Present(u, mid, input, s, user) && forall p | Covers(s, p) :: p in u.pages
    ensures Present(t, now, input, s, user)
  {
    hide Sound;
    hide Holds;
    hide Images;
    hide InFile;
    if s.load {
      HoldsOn(u, held, mid, t, now, lo, images, flags, FirstPage(s), Images(input, s));
    }
  }

  lemma PresentNow(u: Mem, mid: Rows, t: Mem, now: Rows, input: seq<Byte>, s: Segment, user: bool)
    requires InFile(input, s) && Loadable(s) && s.load
    requires Placed(u, mid, t, now, FirstPage(s), Images(input, s), SegmentFlags(s, user))
    ensures Present(t, now, input, s, user)
    ensures forall p :: Covers(s, p) <==> p !in u.pages && p in t.pages
  {
    hide Holds;
    ImagesPrefix(input, s, 0);
  }

  lemma ProgressFurther(input: seq<Byte>, segs: seq<Segment>, k: nat, user: bool, m: Mem, held: set<Frame>,
                        was: Rows, u: Mem, mid: Rows, t: Mem, now: Rows)
    requires k < |segs| && Complete(input, segs) && Sound(u, held) && Keeps(m, was, u, mid)
    requires Progress(input, segs, k, user, m, u, mid)
    requires segs[k].load && Loadable(segs[k])
    requires Placed(u, mid, t, now, FirstPage(segs[k]), Images(input, segs[k]), SegmentFlags(segs[k], user))
    ensures Progress(input, segs, k + 1, user, m, t, now)
  {
    hide Sound;
    hide InFile;
    hide Images;
    hide Present;
    hide Covers;
    hide FirstPage;
    PresentNow(u, mid, t, now, input, segs[k], user);
    forall i | 0 <= i < k ensures Present(t, now, input, segs[i], user) {
      PresentStays(u, held, mid, t, now, FirstPage(segs[k]), Images(input, segs[k]), SegmentFlags(segs[k], user),
                   input, segs[i], user);
    }
    PlacementGrows(segs, k, m, u, t);
    hide Placement;
  }

  // ---- When a file can be loaded -----------------------------------------------------------------

  /** What loading does to the page map: range after range, up to the first failure. */
  function MapProgram(m: Mem, segs: seq<Segment>, user: bool): (r: (Mem, bool))
    decreases segs
  {
    if segs == [] then (m, true)
    else if !segs[0].load then MapProgram(m, segs[1..], user)
    else if segs[0].vaddr + segs[0].fileSize == 0 then (m, false)
    else
      var (t, r) := MapRange(m, FirstPage(segs[0]), PagesOf(segs[0]), SegmentFlags(segs[0], user));
      if r.Mapped? && segs[0].vaddr + segs[0].memSize > 0 then MapProgram(t, segs[1..], user) else (t, false)
  }

  ghost predicate AllLoadable(segs: seq<Segment>) {
    forall i | 0 <= i < |segs| && segs[i].load :: Loadable(segs[i])
  }

  /** The frames that loading takes, and the tables on the way to the program. */
  ghost function ProgramNeeds(have: set<Table>, segs: seq<Segment>): nat
    requires AllLoadable(segs)
    decreases segs
  {
    if segs == [] then 0
    else
      var rest := segs[1..];
      assert forall i | 0 <= i < |rest| :: rest[i] == segs[i + 1];
      if !segs[0].load then ProgramNeeds(have, rest)
      else
        var lo, n := FirstPage(segs[0]), PagesOf(segs[0]);
        Needed(have, lo, n) + ProgramNeeds(have + TablesOn(lo, n), rest)
  }

  ghost function ProgramTables(segs: seq<Segment>): set<Table>
    requires AllLoadable(segs)
    decreases segs
  {
    if segs == [] then {}
    else
      var rest := segs[1..];
      assert forall i | 0 <= i < |rest| :: rest[i] == segs[i + 1];
      (if segs[0].load then TablesOn(FirstPage(segs[0]), PagesOf(segs[0])) else {}) + ProgramTables(rest)
  }

  /** No page of the segments is mapped, and none belongs to two of them. */
  ghost predicate Unmapped(m: Mem, segs: seq<Segment>) {
    && (forall i, p | 0 <= i < |segs| && Covers(segs[i], p) :: p !in m.pages)
    && (forall i, j, p | 0 <= i < j < |segs| && Covers(segs[i], p) :: !Covers(segs[j], p))
  }

  /** The file can be loaded: the loader can compute all ranges, they are unmapped and do
    * not overlap, and there are frames for them and their tables. */
  ghost predicate Fits(m: Mem, segs: seq<Segment>) {
    AllLoadable(segs) && Unmapped(m, segs) && m.alloc.Available() >= ProgramNeeds(m.tables.Keys, segs)
  }

  /** The first segment and the rest. */
  lemma UnmappedSplits(m: Mem, t: Mem, segs: seq<Segment>)
    requires segs != []
    requires forall p :: p in t.pages <==> p in m.pages || Covers(segs[0], p)
    ensures Unmapped(m, segs) <==> (forall p | Covers(segs[0], p) :: p !in m.pages) && Unmapped(t, segs[1..])
  {
    hide Covers;
    var rest := segs[1..];
    assert forall i | 0 <= i < |rest| :: rest[i] == segs[i + 1];
    if Unmapped(t, rest) && forall p | Covers(segs[0], p) :: p !in m.pages {
      forall i, p | 0 <= i < |segs| && Covers(segs[i], p) ensures p !in m.pages {
        assert i > 0 ==> segs[i] == rest[i - 1];
      }
      forall i, j, p | 0 <= i < j < |segs| && Covers(segs[i], p) ensures !Covers(segs[j], p) {
        assert segs[j] == rest[j - 1] && (i > 0 ==> segs[i] == rest[i - 1]);
      }
    }
  }

  lemma LoadableSplits(segs: seq<Segment>)
    requires segs != []
    ensures AllLoadable(segs) <==> (segs[0].load ==> Loadable(segs[0])) && AllLoadable(segs[1..])
  {
    hide Loadable;
    var rest := segs[1..];
    assert forall i | 0 <= i < |rest| :: rest[i] == segs[i + 1];
    assert forall i | 0 < i < |segs| :: segs[i] == rest[i - 1];
  }

  /** Loading maps the whole program exactly when it fits, and takes exactly its frames. */
  lemma {:induction false} MapProgramIff(m: Mem, segs: seq<Segment>, user: bool)
    ensures var (t, ok) := MapProgram(m, segs, user);
      && (ok <==> Fits(m, segs))
      && (ok ==> t.alloc.Available() == m.alloc.Available() - ProgramNeeds(m.tables.Keys, segs))
      && (ok ==> t.tables.Keys == m.tables.Keys + ProgramTables(segs))
    decreases segs
  {
    hide MapRange;
    hide Needed;
    hide TablesOn;
    hide PagesOf;
    hide FirstPage;
    if segs != [] {
      LoadableSplits(segs);
      hide AllLoadable;
      var s := segs[0];
      if !s.load {
        UnmappedSplits(m, m, segs);
        hide Unmapped;
        MapProgramIff(m, segs[1..], user);
      } else if s.vaddr + s.fileSize > 0 {
        var (t, r) := MapRange(m, FirstPage(s), PagesOf(s), SegmentFlags(s, user));
        MapRangeSucceeds(m, FirstPage(s), PagesOf(s), SegmentFlags(s, user));
        if r.Mapped? {
          UnmappedSplits(m, t, segs);
          MapProgramIff(t, segs[1..], user);
        } else {
          assert Unmapped(m, segs) ==> forall p | Covers(segs[0], p) :: p !in m.pages;
        }
      }
    }
  }

  /** The page too many of one segment is the first page of the next: such a file is never
    * loaded, although its segments do not overlap. */
  lemma ExtraPageCollides(m: Mem, segs: seq<Segment>, i: nat, j: nat)
    requires i < |segs| && j < |segs| && segs[i].load && segs[j].load
    requires Aligned(segs[i]) && segs[i].vaddr + segs[i].fileSize > 0 && segs[i].memSize > segs[i].fileSize
    requires segs[j].vaddr == segs[i].vaddr + segs[i].memSize && segs[j].vaddr % PAGE_SIZE == 0
    requires 0 < segs[j].fileSize
    ensures !Fits(m, segs)
  {
    ExtraPage(segs[i]);
    var page := FirstPage(segs[j]);
    assert Covers(segs[i], page) && Covers(segs[j], page);
    hide Covers;
    assert i != j;
    assert !Unmapped(m, segs);
  }

  /** The file and the first stack page after it can be mapped. */
  ghost predicate FitsWithStack(m: Mem, segs: seq<Segment>) {
    && Fits(m, segs)
    && STACK_MAX_PAGE - 1 !in m.pages && !CoveredBy(segs, |segs|, STACK_MAX_PAGE - 1)
    && m.alloc.Available() >= ProgramNeeds(m.tables.Keys, segs)
         + Needed(m.tables.Keys + ProgramTables(segs), STACK_MAX_PAGE - 1, 1)
  }

  lemma {:induction false} MapProgramPages(m: Mem, segs: seq<Segment>, user: bool, page: nat)
    requires MapProgram(m, segs, user).1
    ensures page in MapProgram(m, segs, user).0.pages <==> page in m.pages || CoveredBy(segs, |segs|, page)
    decreases segs
  {
    hide MapRange;
    hide PagesOf;
    hide FirstPage;
    if segs != [] {
      var s, rest := segs[0], segs[1..];
      CoveredByFirst(segs, page);
      hide CoveredBy;
      if s.load {
        MapRangeSucceeds(m, FirstPage(s), PagesOf(s), SegmentFlags(s, user));
        MapProgramPages(MapRange(m, FirstPage(s), PagesOf(s), SegmentFlags(s, user)).0, rest, user, page);
      } else {
        MapProgramPages(m, rest, user, page);
      }
    }
  }

  lemma CoveredByFirst(segs: seq<Segment>, page: nat)
    requires segs != []
    ensures CoveredBy(segs, |segs|, page) <==> Covers(segs[0], page) || CoveredBy(segs[1..], |segs| - 1, page)
  {
    hide Covers;
    var rest := segs[1..];
    assert forall i | 0 <= i < |rest| :: rest[i] == segs[i + 1];
    assert forall i | 0 < i < |segs| :: segs[i] == rest[i - 1];
  }

  /** Program and stack are mapped one after the other exactly when both fit. */
  lemma ProgramAndStackIff(m: Mem, segs: seq<Segment>, user: bool)
    ensures var (t, ok) := MapProgram(m, segs, user);
      FitsWithStack(m, segs) <==> ok && InitStack(t).2.Mapped?
  {
    hide MapRange;
    hide MapProgram;
    hide Needed;
    hide CoveredBy;
    hide Unmapped;
    hide ProgramNeeds;
    hide ProgramTables;
    MapProgramIff(m, segs, user);
    var (t, ok) := MapProgram(m, segs, user);
    if ok {
      MapProgramPages(m, segs, user, STACK_MAX_PAGE - 1);
      MapRangeSucceeds(t, STACK_MAX_PAGE - 1, 1, USER_FLAGS);
    }
  }

  lemma NoProgram(m: Mem, user: bool)
    ensures MapProgram(m, [], user) == (m, true)
  {
  }

  lemma MapProgramStep(m: Mem, segs: seq<Segment>, i: nat, user: bool)
    requires i < |segs|
    ensures var s := segs[i];
      MapProgram(m, segs[i..], user) ==
        if !s.load then MapProgram(m, segs[i + 1..], user)
        else if s.vaddr + s.fileSize == 0 then (m, false)
        else
          var (t, r) := MapRange(m, FirstPage(s), PagesOf(s), SegmentFlags(s, user));
          if r.Mapped? && s.vaddr + s.memSize > 0 then MapProgram(t, segs[i + 1..], user) else (t, false)
  {
    hide MapRange;
    assert segs[i..][0] == segs[i] && segs[i..][1..] == segs[i + 1..];
  }

  /** Load a file segment by segment. Loading succeeds exactly when the program fits. The
    * first failure ends it, but what was mapped before is never changed. */
  method LoadElf(input: seq<Byte>, segs: seq<Segment>, user: bool, table: PageTable, a: FrameAllocator,
                 ram: array2<Byte>, ghost held: set<Frame>)
    returns (ok: bool, ranges: seq<CodeRange>)
    requires ram.Length1 == PAGE_SIZE && Complete(input, segs)
    requires Sound(table.View(a), held) && Backed(table.View(a), ram.Length0)
    modifies table, a, ram
    ensures Sound(table.View(a), held) && Backed(table.View(a), ram.Length0)
    ensures Keeps(old(table.View(a)), old(Contents(ram)), table.View(a), Contents(ram))
    ensures ok ==>
        Ready(input, segs, user, old(table.View(a)), table.View(a), Contents(ram)) && ranges == AllRecorded(segs)
    ensures ok ==> forall i | 0 <= i < |segs| :: Protected(table.pages, segs[i], user)
    ensures (table.View(a), ok) == MapProgram(old(table.View(a)), segs, user)
    ensures ok <==> Fits(old(table.View(a)), segs)
  {
    hide Fits;
    hide MapProgram;
    hide MapRange;
    hide Sound;
    hide Backed;
    hide InFile;
    hide Contents;
    hide Placed;
    hide Images;
    hide Progress;
    hide Keeps;
    hide Protected;
    ranges := [];
    MapProgramIff(table.View(a), segs, user);
    assert segs[0..] == segs;
    KeepsNothing(table.View(a), Contents(ram));
    NoProgress(input, segs, user, table.View(a), Contents(ram));
    for i := 0 to |segs|
      invariant Sound(table.View(a), held) && Backed(table.View(a), ram.Length0)
      invariant Keeps(old(table.View(a)), old(Contents(ram)), table.View(a), Contents(ram))
      invariant Progress(input, segs, i, user, old(table.View(a)), table.View(a), Contents(ram))
      invariant (forall s | s in segs[..i] && s.load :: Loadable(s)) && ranges == AllRecorded(segs[..i])
      invariant MapProgram(table.View(a), segs[i..], user) == MapProgram(old(table.View(a)), segs, user)
    {
      MapProgramStep(table.View(a), segs, i, user);
      assert segs[..i + 1][..i] == segs[..i];
      ghost var u, mid := table.View(a), Contents(ram);
      if segs[i].load {
        ghost var done;
        var r;
        r, done := LoadSegment(input, segs[i], user, table, a, ram, held);
        if segs[i].vaddr + segs[i].fileSize > 0 {
          PlacedKeeps(old(table.View(a)), old(Contents(ram)), u, mid, table.View(a), Contents(ram), FirstPage(segs[i]),
                      Images(input, segs[i])[..done], SegmentFlags(segs[i], user));
        }
        if !r.Loaded? {
          return false, [];
        }
        assert Images(input, segs[i])[..done] == Images(input, segs[i]);
        ProgressFurther(input, segs, i, user, old(table.View(a)), held, old(Contents(ram)), u, mid,
                        table.View(a), Contents(ram));
        ranges := ranges + [r.range];
      } else {
        SkippedProgress(input, segs, i, user, old(table.View(a)), u, mid);
      }
    }
    assert segs[..|segs|] == segs;
    assert segs[|segs|..] == [];
    NoProgram(table.View(a), user);
    LoadedProgramIsProtected(input, segs, user, old(table.View(a)), table.View(a), Contents(ram));
    ok := true;
  }

  // ---- What loading establishes ------------------------------------------------------------------

  /** After loading, every aligned segment reads as the file says, all at once. */
  lemma LoadedProgramReads(input: seq<Byte>, segs: seq<Segment>, user: bool, m: Mem, t: Mem, now: Rows, i: nat)
    requires Ready(input, segs, user, m, t, now)
    requires i < |segs| && segs[i].load && Aligned(segs[i])
    requires segs[i].fileSize < WORD_MODULUS && segs[i].offset + segs[i].fileSize <= |input|
    ensures Reads(t.pages, now, input, segs[i])
  {
    hide InFile;
    hide Images;
    hide Holds;
    assert Present(t, now, input, segs[i], user);
    AlignedReads(t.pages, now, input, segs[i]);
  }

  /** And has its pages mapped as its header asks. */
  lemma LoadedProgramIsProtected(input: seq<Byte>, segs: seq<Segment>, user: bool, m: Mem, t: Mem, now: Rows)
    requires Ready(input, segs, user, m, t, now)
    ensures forall i | 0 <= i < |segs| :: Protected(t.pages, segs[i], user)
  {
    hide InFile;
    hide Images;
    hide Holds;
    forall i | 0 <= i < |segs| ensures Protected(t.pages, segs[i], user) {
      assert Present(t, now, input, segs[i], user);
      hide FirstPage;
      hide PagesOf;
      if segs[i].load && segs[i].vaddr + segs[i].fileSize > 0 {
        assert forall p | FirstPage(segs[i]) <= p < FirstPage(segs[i]) + PagesOf(segs[i]) :: Covers(segs[i], p);
      }
    }
  }

  /** The reported ranges belong to the segments in order. */
  lemma {:induction false} RecordedBelongs(segs: seq<Segment>, c: nat) returns (i: nat)
    requires (forall s | s in segs && s.load :: Loadable(s)) && c < |AllRecorded(segs)|
    ensures i < |segs| && segs[i].load && AllRecorded(segs)[c] == Recorded(segs[i])
    ensures c == |AllRecorded(segs[..i])|
    decreases segs
  {
    hide Recorded;
    hide Loadable;
    var init := segs[..|segs| - 1];
    assert forall k | 0 <= k < |init| :: segs[..k] == init[..k];
    if c < |AllRecorded(init)| {
      i := RecordedBelongs(init, c);
    } else {
      i := |segs| - 1;
      assert segs[i] in segs;
    }
  }

  lemma RecordedIsCovered(s: Segment, page: nat)
    requires s.load && Loadable(s) && Recorded(s).Has(page)
    ensures Covers(s, page)
  {
    ZeroPagesFollow(s);
  }

  /** A program that has been loaded and given its first stack starts a family in which
    * every page has one owner and every frame is accounted for. */
  lemma LoadedProgramStartsFamily(input: seq<Byte>, segs: seq<Segment>, user: bool, m: Mem, t: Mem, now: Rows,
                                  held: set<Frame>, pid: Pid)
    requires Ready(input, segs, user, m, t, now) && Sound(t, held) && InitStack(t).2.Mapped?
    ensures Inv(Family(InitStack(t).0, map[pid := InitStack(t).1], HEAP_START, AllRecorded(segs), pid, held))
  {
    hide Sound;
    hide InFile;
    hide Present;
    hide InitStack;
    hide Covers;
    hide Recorded;
    hide Loadable;
    hide Inv;
    var code := AllRecorded(segs);
    forall c: nat, p: nat | c < |code| && code[c].Has(p)
      ensures p in t.pages
    {
      var i := RecordedBelongs(segs, c);
      assert segs[i] in segs;
      RecordedIsCovered(segs[i], p);
    }
    forall c: nat, d: nat, p: nat | c < d < |code| && code[c].Has(p)
      ensures !code[d].Has(p)
    {
      var i := RecordedBelongs(segs, c);
      var j := RecordedBelongs(segs, d);
      assert i != j && segs[i] in segs && segs[j] in segs;
      RecordedIsCovered(segs[i], p);
      if code[d].Has(p) {
        RecordedIsCovered(segs[j], p);
        assert false;
      }
    }
    FamilyIsBorn(t, held, code, pid);
  }

  // ---- Loading and exiting ------------------------------------------------------------------------

  lemma {:induction false} RecordedIsThere(segs: seq<Segment>, i: nat) returns (c: nat)
    requires (forall s | s in segs && s.load :: Loadable(s)) && i < |segs| && segs[i].load
    ensures Loadable(segs[i]) && c < |AllRecorded(segs)| && AllRecorded(segs)[c] == Recorded(segs[i])
    decreases segs
  {
    hide Recorded;
    var init := segs[..|segs| - 1];
    assert segs[i] in segs;
    if i < |init| {
      assert forall s | s in init :: s in segs;
      c := RecordedIsThere(init, i);
    } else {
      c := |AllRecorded(init)|;
    }
  }

  lemma InCodeIff(segs: seq<Segment>, page: nat)
    requires forall s | s in segs && s.load :: Loadable(s)
    ensures InCode(AllRecorded(segs), page) <==> RecordedBy(segs, page)
  {
    hide Recorded;
    hide Loadable;
    var code := AllRecorded(segs);
    if InCode(code, page) {
      var c :| 0 <= c < |code| && code[c].Has(page);
      var i := RecordedBelongs(segs, c);
      assert segs[i] in segs;
    }
    if RecordedBy(segs, page) {
      var i :| 0 <= i < |segs| && IsRecorded(segs[i], page);
      assert segs[i] in segs;
      var c := RecordedIsThere(segs, i);
      assert code[c].Has(page);
    }
  }

  ghost predicate IsRecorded(s: Segment, page: nat) { s.load && Loadable(s) && Recorded(s).Has(page) }

  ghost predicate RecordedBy(segs: seq<Segment>, page: nat) {
    exists i :: 0 <= i < |segs| && IsRecorded(segs[i], page)
  }

  /** The page behind a segment that the loader maps and does not report. */
  ghost predicate IsExtra(s: Segment, page: nat) {
    s.load && Overshoots(s) && page == (s.vaddr + s.memSize) / PAGE_SIZE
  }

  ghost predicate LeftBehind(segs: seq<Segment>, page: nat) {
    exists i :: 0 <= i < |segs| && IsExtra(segs[i], page)
  }

  lemma CoveredIsRecordedOrExtra(s: Segment, page: nat)
    requires s.load && Loadable(s) && s.fileSize <= s.memSize
    ensures Covers(s, page) <==> IsRecorded(s, page) || IsExtra(s, page)
    ensures !(IsRecorded(s, page) && IsExtra(s, page))
  {
    ExtraPage(s);
  }

  /** Of the pages of a loaded program the extra ones are not recorded. */
  lemma UnrecordedIsExtra(segs: seq<Segment>, m: Mem, t: Mem, page: nat)
    requires forall s | s in segs && s.load :: Loadable(s) && s.fileSize <= s.memSize
    requires Placement(segs, |segs|, m, t)
    ensures CoveredBy(segs, |segs|, page) && !RecordedBy(segs, page) <==> LeftBehind(segs, page)
    ensures RecordedBy(segs, page) ==> page !in m.pages
    ensures LeftBehind(segs, page) ==> page !in m.pages && page in t.pages
  {
    hide Loadable;
    hide IsExtra;
    hide IsRecorded;
    hide Covers;
    forall i | 0 <= i < |segs|
      ensures Covers(segs[i], page) <==> IsRecorded(segs[i], page) || IsExtra(segs[i], page)
      ensures !(IsRecorded(segs[i], page) && IsExtra(segs[i], page))
    {
      assert segs[i] in segs;
      if segs[i].load {
        CoveredIsRecordedOrExtra(segs[i], page);
      } else {
        NotLoadedIsNothing(segs[i], page);
      }
    }
  }

  lemma NotLoadedIsNothing(s: Segment, page: nat)
    requires !s.load
    ensures !Covers(s, page) && !IsRecorded(s, page) && !IsExtra(s, page)
  {
  }

  /** A process that was loaded and exits as the last of its family leaves the page map as it
    * was before, except for the pages too many. */
  lemma ExitUndoesLoading(input: seq<Byte>, segs: seq<Segment>, user: bool, m: Mem, t: Mem, now: Rows,
                          held: set<Frame>, pid: Pid)
    requires Ready(input, segs, user, m, t, now) && Grows(m, t) && Sound(t, held) && InitStack(t).2.Mapped?
    requires forall s | s in segs && s.load :: s.fileSize <= s.memSize
    ensures var f := Family(InitStack(t).0, map[pid := InitStack(t).1], HEAP_START, AllRecorded(segs), pid, held);
      var (u, end, ok) := CleanUp(f, pid);
      && ok && end == HEAP_START
      && (forall p: nat :: p in u.pages <==> p in m.pages || LeftBehind(segs, p))
      && (forall p | p in m.pages && p in u.pages :: u.pages[p] == m.pages[p])
  {
    hide Sound;
    hide Inv;
    hide Present;
    hide MapRange;
    hide CleanUp;
    hide LeftBehind;
    hide RecordedBy;
    hide CoveredBy;
    hide Placement;
    hide AllRecorded;
    var f := Family(InitStack(t).0, map[pid := InitStack(t).1], HEAP_START, AllRecorded(segs), pid, held);
    LoadedProgramStartsFamily(input, segs, user, m, t, now, held, pid);
    DeathGivesBack(f, pid);
    var u := CleanUp(f, pid).0;
    var done := MapRangeEffect(t, held, STACK_MAX_PAGE - 1, 1, USER_FLAGS);
    forall p: nat ensures p in u.pages <==> p in m.pages || LeftBehind(segs, p) {
      UnrecordedIsExtra(segs, m, t, p);
      InCodeIff(segs, p);
      PlacementOf(segs, m, t, p);
      assert !Owns(f, HeapOwner, p);
    }
  }

  lemma PlacementOf(segs: seq<Segment>, m: Mem, t: Mem, page: nat)
    requires Placement(segs, |segs|, m, t) && Grows(m, t)
    ensures page in t.pages <==> page in m.pages || CoveredBy(segs, |segs|, page)
  {
    hide Covers;
  }

  /** So nothing stays behind exactly when no loaded segment has a zero part that ends on a
    * page boundary. */
  lemma NothingIsLeftIff(segs: seq<Segment>)
    ensures (forall p: nat :: !LeftBehind(segs, p)) <==> forall s | s in segs && s.load :: !Overshoots(s)
  {
    hide Overshoots;
    forall s | s in segs && s.load && Overshoots(s) ensures LeftBehind(segs, (s.vaddr + s.memSize) / PAGE_SIZE) {
      var i :| 0 <= i < |segs| && segs[i] == s;
      assert IsExtra(segs[i], (s.vaddr + s.memSize) / PAGE_SIZE);
    }
  }

  lemma StackLeavesProtection(t: Mem, held: set<Frame>, s: Segment, user: bool)
    requires Sound(t, held) && Protected(t.pages, s, user)
    ensures Protected(InitStack(t).0.pages, s, user)
  {
    hide Sound;
    hide MapRange;
    hide FirstPage;
    hide PagesOf;
    var done := MapRangeEffect(t, held, STACK_MAX_PAGE - 1, 1, USER_FLAGS);
  }

  /** The first stack does not disturb the program. */
  lemma StackLeavesProgram(t: Mem, held: set<Frame>, now: Rows, input: seq<Byte>, s: Segment)
    requires Sound(t, held) && s.offset + s.fileSize <= |input| && Reads(t.pages, now, input, s)
    ensures Reads(InitStack(t).0.pages, now, input, s)
  {
    hide Sound;
    hide MapRange;
    var done := MapRangeEffect(t, held, STACK_MAX_PAGE - 1, 1, USER_FLAGS);
    var u := InitStack(t).0;
    forall addr | s.vaddr <= addr < s.vaddr + s.memSize
      ensures ReadAt(u.pages, now, addr) == ReadAt(t.pages, now, addr) {}
  }
}
