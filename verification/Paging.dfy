/** Page tables seen through the mapper: a map from page numbers to frames, with the
  * intermediate tables it needs, over the shared frame allocator; and the loops that
  * map and unmap ranges of pages. */
module Paging {
  import opened Common
  import opened Frames

  datatype Flags = Flags(writable: bool, user: bool, noExecute: bool)

  datatype Mapping = Mapping(frame: Frame, flags: Flags)

  /** An intermediate table, by level and by the part of the page number above it. */
  datatype Table = Table(level: nat, index: nat)

  /** One address space and the allocator. */
  datatype Mem = Mem(alloc: Alloc, pages: map<nat, Mapping>, tables: map<Table, Frame>)

  datatype MapResult = Mapped | PageAlreadyMapped | FrameAllocationFailed

  /** The tables on the way to a page, outermost first. */
  function TablesOf(page: nat): seq<Table> {
    [Table(3, page / 0x800_0000), Table(2, page / 0x4_0000), Table(1, page / 0x200)]
  }

  /** Tables have 512 entries: two pages have the lowest table in common exactly when they lie
    * in the same 512 pages, and so on upwards; tables of different levels are different. */
  lemma TablesAreShared(p: nat, q: nat)
    ensures TablesOf(p)[2] in TablesOf(q) <==> p / 512 == q / 512
    ensures TablesOf(p)[1] in TablesOf(q) <==> p / 512 / 512 == q / 512 / 512
    ensures TablesOf(p)[0] in TablesOf(q) <==> p / 512 / 512 / 512 == q / 512 / 512 / 512
    ensures |TablesOf(p)| == 3 && NoDuplicates(TablesOf(p))
  {
    DivideTwice(p);
    DivideTwice(q);
    var a, b := TablesOf(p), TablesOf(q);
    assert forall i | 0 <= i < 3 :: a[i].level == b[i].level == 3 - i;
    assert forall i, t | 0 <= i < 3 && t == a[i] :: t in b <==> t == b[i];
  }

  lemma DivideTwice(p: nat)
    ensures p / 512 / 512 == p / 0x4_0000 && p / 512 / 512 / 512 == p / 0x800_0000
  {
    var q := p / 0x4_0000;
    assert 512 * q <= p / 512 < 512 * (q + 1);
    var r := p / 0x800_0000;
    assert 512 * r <= q < 512 * (r + 1);
  }

  /** The mapper creates missing tables from the same allocator, and keeps those it
    * has created when it then runs out of frames. */
  function CreateTables(m: Mem, tables: seq<Table>): (r: (Mem, bool))
    decreases tables
  {
    if tables == [] then (m, true)
    else if tables[0] in m.tables then CreateTables(m, tables[1..])
    else
      var (alloc, f) := m.alloc.Allocate();
      if f.None? then (m.(alloc := alloc), false)
      else CreateTables(m.(alloc := alloc, tables := m.tables[tables[0] := f.value]), tables[1..])
  }

  function MapTo(m: Mem, page: nat, frame: Frame, flags: Flags): (r: (Mem, MapResult)) {
    var (t, ok) := CreateTables(m, TablesOf(page));
    if !ok then (t, FrameAllocationFailed)
    else if page in t.pages then (t, PageAlreadyMapped)
    else (t.(pages := t.pages[page := Mapping(frame, flags)]), Mapped)
  }

  /** A range is mapped page by page; a failure keeps the pages mapped so far, and the
    * frame just taken is lost when it was the mapper that failed. */
  function MapRange(m: Mem, lo: nat, n: nat, flags: Flags): (r: (Mem, MapResult))
    decreases n
  {
    if n == 0 then (m, Mapped)
    else
      var (alloc, f) := m.alloc.Allocate();
      if f.None? then (m.(alloc := alloc), FrameAllocationFailed)
      else
        var (t, r) := MapTo(m.(alloc := alloc), lo, f.value, flags);
        if r.Mapped? then MapRange(t, lo + 1, n - 1, flags) else (t, r)
  }

  /** Unmapping stops at the first page that is not mapped. */
  function UnmapRange(m: Mem, lo: nat, n: nat): (r: (Mem, bool))
    decreases n
  {
    if n == 0 then (m, true)
    else if lo !in m.pages then (m, false)
    else
      var f := m.pages[lo].frame;
      UnmapRange(m.(pages := m.pages - {lo}, alloc := m.alloc.Deallocate(f)), lo + 1, n - 1)
  }

  // ---- Frames are used once ------------------------------------------------------------

  lemma {:induction false} CreateTablesSplits(m: Mem, first: seq<Table>, rest: seq<Table>)
    ensures var (t, ok) := CreateTables(m, first);
      CreateTables(m, first + rest) == if ok then CreateTables(t, rest) else (t, false)
    decreases first
  {
    if first == [] {
      assert first + rest == rest;
    } else {
      assert (first + rest)[1..] == first[1..] + rest && (first + rest)[0] == first[0];
      if first[0] in m.tables {
        CreateTablesSplits(m, first[1..], rest);
      } else {
        var (alloc, f) := m.alloc.Allocate();
        if f.Some? {
          CreateTablesSplits(m.(alloc := alloc, tables := m.tables[first[0] := f.value]), first[1..], rest);
        }
      }
    }
  }

  ghost function PageFrames(m: Mem): set<Frame> { set p | p in m.pages :: m.pages[p].frame }

  ghost function TableFrames(m: Mem): set<Frame> { set t | t in m.tables :: m.tables[t] }

  /** Every frame is in one place: free, behind one page, behind one table, or in
    * `held` by somebody else; and the tables of every mapped page exist. */
  ghost predicate Sound(m: Mem, held: set<Frame>) {
    && m.alloc.Distinct()
    && (forall p, q | p in m.pages && q in m.pages && p != q :: m.pages[p].frame != m.pages[q].frame)
    && (forall t, u | t in m.tables && u in m.tables && t != u :: m.tables[t] != m.tables[u])
    && m.alloc.Free() !! PageFrames(m) && m.alloc.Free() !! TableFrames(m) && m.alloc.Free() !! held
    && PageFrames(m) !! TableFrames(m) && PageFrames(m) !! held && TableFrames(m) !! held
    && TablesPresent(m)
  }

  ghost predicate TablesPresent(m: Mem) {
    forall p, t | p in m.pages && t in TablesOf(p) :: t in m.tables
  }

  lemma AllocateKeepsSound(m: Mem, held: set<Frame>)
    requires Sound(m, held)
    ensures var (alloc, f) := m.alloc.Allocate();
      && (f.None? ==> Sound(m.(alloc := alloc), held))
      && (f.Some? ==> f.value in m.alloc.Free() && f.value !in held && Sound(m.(alloc := alloc), held + {f.value}))
      && alloc.Free() <= m.alloc.Free()
  {
    AllocateTakes(m.alloc);
    var (alloc, f) := m.alloc.Allocate();
    var t := m.(alloc := alloc);
    assert PageFrames(t) == PageFrames(m) && TableFrames(t) == TableFrames(m);
  }

  lemma AddTableKeepsSound(m: Mem, held: set<Frame>, table: Table, f: Frame)
    requires Sound(m, held + {f}) && f !in held && table !in m.tables
    ensures Sound(m.(tables := m.tables[table := f]), held)
  {
    var t := m.(tables := m.tables[table := f]);
    assert PageFrames(t) == PageFrames(m);
    assert TableFrames(t) == TableFrames(m) + {f} by {
      assert t.tables[table] == f;
      assert forall k | k in m.tables :: t.tables[k] == m.tables[k];
    }
  }

  lemma {:induction false} CreateTablesEffect(m: Mem, held: set<Frame>, tables: seq<Table>)
    requires Sound(m, held)
    ensures var (t, ok) := CreateTables(m, tables);
      && Sound(t, held) && t.pages == m.pages
      && t.alloc.Free() <= m.alloc.Free()
      && m.tables.Keys <= t.tables.Keys && (forall k | k in m.tables :: t.tables[k] == m.tables[k])
      && (ok ==> forall k | k in tables :: k in t.tables)
    decreases tables
  {
    if tables != [] {
      if tables[0] in m.tables {
        CreateTablesEffect(m, held, tables[1..]);
      } else {
        AllocateKeepsSound(m, held);
        var (alloc, f) := m.alloc.Allocate();
        if f.Some? {
          AddTableKeepsSound(m.(alloc := alloc), held, tables[0], f.value);
          CreateTablesEffect(m.(alloc := alloc, tables := m.tables[tables[0] := f.value]), held, tables[1..]);
        }
      }
    }
  }

  lemma AddPageKeepsSound(m: Mem, held: set<Frame>, page: nat, f: Frame, flags: Flags)
    requires Sound(m, held + {f}) && f !in held && page !in m.pages
    requires forall t | t in TablesOf(page) :: t in m.tables
    ensures Sound(m.(pages := m.pages[page := Mapping(f, flags)]), held)
  {
    var t := m.(pages := m.pages[page := Mapping(f, flags)]);
    assert TableFrames(t) == TableFrames(m);
    assert PageFrames(t) == PageFrames(m) + {f} by {
      assert t.pages[page].frame == f;
      assert forall p | p in m.pages :: t.pages[p] == m.pages[p];
    }
  }

  lemma MapToEffect(m: Mem, held: set<Frame>, page: nat, f: Frame, flags: Flags)
    requires Sound(m, held + {f}) && f !in held
    ensures var (t, r) := MapTo(m, page, f, flags);
      && Sound(t, held)
      && t.alloc.Free() <= m.alloc.Free()
      && m.tables.Keys <= t.tables.Keys && (forall k | k in m.tables :: t.tables[k] == m.tables[k])
      && (r.Mapped? ==> page !in m.pages && t.pages == m.pages[page := Mapping(f, flags)])
      && (!r.Mapped? ==> t.pages == m.pages)
      && (r.PageAlreadyMapped? ==> page in m.pages)
      && (page in m.pages ==> r.PageAlreadyMapped? && t == m)
  {
    CreateTablesEffect(m, held + {f}, TablesOf(page));
    var (t, ok) := CreateTables(m, TablesOf(page));
    if page in m.pages {
      TablesExist(m, TablesOf(page));
      SoundForLess(t, held, {f});
    } else if ok {
      AddPageKeepsSound(t, held, page, f, flags);
    } else {
      SoundForLess(t, held, {f});
    }
  }

  lemma {:induction false} TablesExist(m: Mem, tables: seq<Table>)
    requires forall t | t in tables :: t in m.tables
    ensures CreateTables(m, tables) == (m, true)
    decreases tables
  {
    if tables != [] {
      assert tables[0] in tables;
      TablesExist(m, tables[1..]);
    }
  }

  /** What `MapRange` has done after mapping `done` of its pages: these were unmapped
    * and got frames that were free; nothing else of the page map changed. */
  ghost predicate Extends(m: Mem, t: Mem, lo: nat, done: nat, flags: Flags) {
    && (forall p :: p in t.pages <==> p in m.pages || lo <= p < lo + done)
    && (forall p | p in m.pages :: t.pages[p] == m.pages[p])
    && (forall p | p in t.pages && lo <= p < lo + done ::
          p !in m.pages && t.pages[p].flags == flags && t.pages[p].frame in m.alloc.Free())
    && t.alloc.Free() <= m.alloc.Free()
    && m.tables.Keys <= t.tables.Keys && (forall k | k in m.tables :: t.tables[k] == m.tables[k])
  }

  /** Mapping a range: success maps exactly the range, failure exactly a prefix of it. */
  lemma {:induction false} MapRangeEffect(m: Mem, held: set<Frame>, lo: nat, n: nat, flags: Flags) returns (done: nat)
    requires Sound(m, held)
    ensures done <= n && (MapRange(m, lo, n, flags).1.Mapped? <==> done == n)
    ensures Sound(MapRange(m, lo, n, flags).0, held)
    ensures Extends(m, MapRange(m, lo, n, flags).0, lo, done, flags)
    ensures MapRange(m, lo, n, flags).1.PageAlreadyMapped? ==> lo + done in m.pages
    decreases n
  {
    hide Sound;
    hide MapTo;
    hide Extends;
    done := 0;
    ExtendsNothing(m, lo, flags);
    if n > 0 {
      AllocateKeepsSound(m, held);
      var (alloc, f) := m.alloc.Allocate();
      if f.Some? {
        var u := m.(alloc := alloc);
        MapToEffect(u, held, lo, f.value, flags);
        var (t, r) := MapTo(u, lo, f.value, flags);
        if r.Mapped? {
          var k := MapRangeEffect(t, held, lo + 1, n - 1, flags);
          done := k + 1;
          ExtendsFurther(m, t, MapRange(t, lo + 1, n - 1, flags).0, lo, k, f.value, flags);
        }
      }
    }
  }

  lemma ExtendsNothing(m: Mem, lo: nat, flags: Flags)
    ensures forall t: Mem | t.pages == m.pages && t.alloc.Free() <= m.alloc.Free()
      && m.tables.Keys <= t.tables.Keys && (forall k | k in m.tables :: t.tables[k] == m.tables[k]) ::
      Extends(m, t, lo, 0, flags)
  {
  }

  lemma ExtendsFurther(m: Mem, u: Mem, t: Mem, lo: nat, k: nat, f: Frame, flags: Flags)
    requires lo !in m.pages && u.pages == m.pages[lo := Mapping(f, flags)] && f in m.alloc.Free()
    requires u.alloc.Free() <= m.alloc.Free()
    requires m.tables.Keys <= u.tables.Keys && forall j | j in m.tables :: u.tables[j] == m.tables[j]
    requires Extends(u, t, lo + 1, k, flags)
    ensures Extends(m, t, lo, k + 1, flags)
  {
    assert t.pages[lo] == u.pages[lo];
  }

  /** A frame that somebody holds may also be forgotten. */
  lemma SoundForLess(m: Mem, held: set<Frame>, lost: set<Frame>)
    requires Sound(m, held + lost)
    ensures Sound(m, held)
  {
  }

  /** A range whose first page is mapped already: nothing changes but one lost frame. */
  lemma MapRangeRefused(m: Mem, held: set<Frame>, lo: nat, n: nat, flags: Flags)
    requires Sound(m, held) && n > 0 && lo in m.pages && m.alloc.Available() > 0
    ensures var (t, r) := MapRange(m, lo, n, flags);
      && r.PageAlreadyMapped? && t.pages == m.pages && t.tables == m.tables
      && t.alloc.Available() == m.alloc.Available() - 1
  {
    AllocateTakes(m.alloc);
    AllocateKeepsSound(m, held);
    var (alloc, f) := m.alloc.Allocate();
    MapToEffect(m.(alloc := alloc), held, lo, f.value, flags);
  }

  /** What unmapping a range does: the pages are gone and their frames are free. */
  ghost predicate Retracts(m: Mem, t: Mem, lo: nat, n: nat) {
    && t.tables == m.tables
    && (forall p :: p in t.pages <==> p in m.pages && !(lo <= p < lo + n))
    && (forall p | p in t.pages :: t.pages[p] == m.pages[p])
    && m.alloc.Free() <= t.alloc.Free()
    && (forall p | p in m.pages && lo <= p < lo + n :: m.pages[p].frame in t.alloc.Free())
    && (forall f | f in t.alloc.Free() && f !in m.alloc.Free() ::
          exists p :: p in m.pages && lo <= p < lo + n && m.pages[p].frame == f)
  }

  /** Unmapping a mapped range succeeds, removes exactly it and frees its frames. */
  lemma {:induction false} UnmapRangeEffect(m: Mem, held: set<Frame>, lo: nat, n: nat)
    requires Sound(m, held) && forall p | lo <= p < lo + n :: p in m.pages
    ensures UnmapRange(m, lo, n).1
    ensures Sound(UnmapRange(m, lo, n).0, held)
    ensures Retracts(m, UnmapRange(m, lo, n).0, lo, n)
    decreases n
  {
    hide Sound;
    hide Retracts;
    if n == 0 {
      RetractsNothing(m, lo);
    } else {
      var u := m.(pages := m.pages - {lo}, alloc := m.alloc.Deallocate(m.pages[lo].frame));
      RemovePageKeepsSound(m, held, lo);
      UnmapRangeEffect(u, held, lo + 1, n - 1);
      RetractsFurther(m, u, UnmapRange(u, lo + 1, n - 1).0, lo, n - 1);
    }
  }

  lemma RetractsNothing(m: Mem, lo: nat)
    ensures Retracts(m, m, lo, 0)
  {
  }

  lemma RetractsFurther(m: Mem, u: Mem, t: Mem, lo: nat, k: nat)
    requires lo in m.pages && u.pages == m.pages - {lo} && u.tables == m.tables
    requires u.alloc.Free() == m.alloc.Free() + {m.pages[lo].frame}
    requires Retracts(u, t, lo + 1, k)
    ensures Retracts(m, t, lo, k + 1)
  {
    assert forall p | p in u.pages :: u.pages[p] == m.pages[p];
  }

  lemma RemovePageKeepsSound(m: Mem, held: set<Frame>, page: nat)
    requires Sound(m, held) && page in m.pages
    ensures var f := m.pages[page].frame;
      var t := m.(pages := m.pages - {page}, alloc := m.alloc.Deallocate(f));
      f !in m.alloc.Free() && Sound(t, held) && t.alloc.Free() == m.alloc.Free() + {f}
  {
    var f := m.pages[page].frame;
    assert f in PageFrames(m);
    DeallocateGives(m.alloc, f);
    var t := m.(pages := m.pages - {page}, alloc := m.alloc.Deallocate(f));
    assert TableFrames(t) == TableFrames(m);
    assert forall p | p in t.pages :: t.pages[p] == m.pages[p] && t.pages[p].frame in PageFrames(m);
    assert f !in PageFrames(t);
  }

  // ---- How many frames a range needs ------------------------------------------------------

  /** The frames that creating these tables takes when `have` exist. */
  ghost function MissingTables(have: set<Table>, tables: seq<Table>): nat
    decreases tables
  {
    if tables == [] then 0
    else if tables[0] in have then MissingTables(have, tables[1..])
    else 1 + MissingTables(have + {tables[0]}, tables[1..])
  }

  /** The frames that mapping `n` pages from `lo` takes: one per page and one per
    * missing table. */
  ghost function Needed(have: set<Table>, lo: nat, n: nat): nat
    decreases n
  {
    if n == 0 then 0
    else 1 + MissingTables(have, TablesOf(lo)) + Needed(have + (set t | t in TablesOf(lo)), lo + 1, n - 1)
  }

  /** The tables on the way to `n` pages from `lo`. */
  ghost function TablesOn(lo: nat, n: nat): set<Table>
    decreases n
  {
    if n == 0 then {} else (set t | t in TablesOf(lo)) + TablesOn(lo + 1, n - 1)
  }

  lemma {:induction false} CreateTablesCount(m: Mem, tables: seq<Table>)
    ensures var (t, ok) := CreateTables(m, tables);
      && t.pages == m.pages
      && (ok <==> m.alloc.Available() >= MissingTables(m.tables.Keys, tables))
      && (ok ==> t.tables.Keys == m.tables.Keys + set k | k in tables)
      && (ok ==> t.alloc.Available() == m.alloc.Available() - MissingTables(m.tables.Keys, tables))
    decreases tables
  {
    if tables != [] {
      assert tables == [tables[0]] + tables[1..];
      assert (set k | k in tables) == {tables[0]} + set k | k in tables[1..];
      if tables[0] in m.tables {
        CreateTablesCount(m, tables[1..]);
      } else {
        var (alloc, f) := m.alloc.Allocate();
        if f.Some? {
          var u := m.(alloc := alloc, tables := m.tables[tables[0] := f.value]);
          assert u.tables.Keys == m.tables.Keys + {tables[0]};
          CreateTablesCount(u, tables[1..]);
        }
      }
    }
  }

  lemma MapToCount(m: Mem, page: nat, f: Frame, flags: Flags)
    ensures var (t, r) := MapTo(m, page, f, flags);
      && (r.Mapped? <==> page !in m.pages && m.alloc.Available() >= MissingTables(m.tables.Keys, TablesOf(page)))
      && (r.Mapped? ==>
            && t.pages == m.pages[page := Mapping(f, flags)]
            && t.tables.Keys == m.tables.Keys + (set k | k in TablesOf(page))
            && t.alloc.Available() == m.alloc.Available() - MissingTables(m.tables.Keys, TablesOf(page)))
  {
    hide CreateTables;
    CreateTablesCount(m, TablesOf(page));
  }

  /** A range can be mapped exactly when none of its pages is mapped and the allocator
    * has a frame for each page and each missing table; it takes that many. */
  lemma {:induction false} MapRangeSucceeds(m: Mem, lo: nat, n: nat, flags: Flags)
    ensures var (t, r) := MapRange(m, lo, n, flags);
      && (r.Mapped? <==>
            (forall p | lo <= p < lo + n :: p !in m.pages) && m.alloc.Available() >= Needed(m.tables.Keys, lo, n))
      && (r.Mapped? ==> t.alloc.Available() == m.alloc.Available() - Needed(m.tables.Keys, lo, n))
      && (r.Mapped? ==> t.tables.Keys == m.tables.Keys + TablesOn(lo, n))
      && (r.Mapped? ==> forall p :: p in t.pages <==> p in m.pages || lo <= p < lo + n)
    decreases n
  {
    hide MapTo;
    hide MissingTables;
    hide TablesOf;
    if n > 0 {
      var (alloc, f) := m.alloc.Allocate();
      if f.Some? {
        var u := m.(alloc := alloc);
        assert u.alloc.Available() == m.alloc.Available() - 1;
        MapToCount(u, lo, f.value, flags);
        var (t, r) := MapTo(u, lo, f.value, flags);
        if r.Mapped? {
          MapRangeSucceeds(t, lo + 1, n - 1, flags);
          assert forall p | lo + 1 <= p < lo + n :: p in t.pages <==> p in m.pages;
        }
      }
    }
  }

  /** A range is mapped as its front and then its rest. */
  lemma {:induction false} MapRangeSplits(m: Mem, lo: nat, k: nat, n: nat, flags: Flags)
    requires k <= n
    ensures var (t, r) := MapRange(m, lo, k, flags);
      MapRange(m, lo, n, flags) == if r.Mapped? then MapRange(t, lo + k, n - k, flags) else (t, r)
    decreases k
  {
    hide MapTo;
    if k > 0 {
      var (alloc, f) := m.alloc.Allocate();
      if f.Some? {
        var (t, r) := MapTo(m.(alloc := alloc), lo, f.value, flags);
        if r.Mapped? {
          MapRangeSplits(t, lo + 1, k - 1, n - 1, flags);
        }
      }
    }
  }

  /** When a range fails for want of frames, none is left. */
  lemma {:induction false} OutOfFrames(m: Mem, lo: nat, n: nat, flags: Flags)
    requires MapRange(m, lo, n, flags).1.FrameAllocationFailed?
    ensures MapRange(m, lo, n, flags).0.alloc.Available() == 0
    decreases n
  {
    hide MapTo;
    var (alloc, f) := m.alloc.Allocate();
    if f.Some? {
      var u := m.(alloc := alloc);
      OutOfFramesForTables(u, TablesOf(lo));
      MapToFails(u, lo, f.value, flags);
      var (t, r) := MapTo(u, lo, f.value, flags);
      if r.Mapped? {
        OutOfFrames(t, lo + 1, n - 1, flags);
      }
    }
  }

  lemma MapToFails(m: Mem, page: nat, f: Frame, flags: Flags)
    ensures MapTo(m, page, f, flags).1.FrameAllocationFailed? ==>
        !CreateTables(m, TablesOf(page)).1 && MapTo(m, page, f, flags).0 == CreateTables(m, TablesOf(page)).0
  {
    hide CreateTables;
  }

  lemma {:induction false} OutOfFramesForTables(m: Mem, tables: seq<Table>)
    ensures !CreateTables(m, tables).1 ==> CreateTables(m, tables).0.alloc.Available() == 0
    decreases tables
  {
    if tables != [] {
      if tables[0] in m.tables {
        OutOfFramesForTables(m, tables[1..]);
      } else {
        var (alloc, f) := m.alloc.Allocate();
        if f.Some? {
          OutOfFramesForTables(m.(alloc := alloc, tables := m.tables[tables[0] := f.value]), tables[1..]);
        }
      }
    }
  }

  lemma {:induction false} MissingAtMost(have: set<Table>, tables: seq<Table>)
    ensures MissingTables(have, tables) <= |tables|
    decreases tables
  {
    if tables != [] {
      MissingAtMost(have, tables[1..]);
      MissingAtMost(have + {tables[0]}, tables[1..]);
    }
  }

  /** A page takes at most four frames. */
  lemma {:induction false} NeededAtMost(have: set<Table>, lo: nat, n: nat)
    ensures Needed(have, lo, n) <= 4 * n
    decreases n
  {
    hide MissingTables;
    if n > 0 {
      MissingAtMost(have, TablesOf(lo));
      assert |TablesOf(lo)| == 3;
      hide TablesOf;
      NeededAtMost(have + (set t | t in TablesOf(lo)), lo + 1, n - 1);
    }
  }

  /** A range that meets a mapped page behind `k` unmapped ones: these stay mapped. */
  lemma {:induction false} MapRangeStopsAt(m: Mem, held: set<Frame>, lo: nat, n: nat, k: nat, flags: Flags)
    requires Sound(m, held) && k < n && lo + k in m.pages && forall p | lo <= p < lo + k :: p !in m.pages
    requires m.alloc.Available() > Needed(m.tables.Keys, lo, k)
    ensures var (t, r) := MapRange(m, lo, n, flags);
      && r.PageAlreadyMapped? && Sound(t, held) && Extends(m, t, lo, k, flags)
      && t.alloc.Available() == m.alloc.Available() - Needed(m.tables.Keys, lo, k) - 1
    decreases k
  {
    hide Sound;
    hide MapTo;
    hide Extends;
    hide MissingTables;
    hide TablesOf;
    if k == 0 {
      MapRangeRefused(m, held, lo, n, flags);
      var done := MapRangeEffect(m, held, lo, n, flags);
      ExtendsByNone(m, MapRange(m, lo, n, flags).0, lo, done, flags);
    } else {
      AllocateKeepsSound(m, held);
      var (alloc, f) := m.alloc.Allocate();
      var u := m.(alloc := alloc);
      assert u.alloc.Available() == m.alloc.Available() - 1;
      MapToCount(u, lo, f.value, flags);
      MapToEffect(u, held, lo, f.value, flags);
      var t := MapTo(u, lo, f.value, flags).0;
      MapRangeStopsAt(t, held, lo + 1, n - 1, k - 1, flags);
      ExtendsFurther(m, t, MapRange(t, lo + 1, n - 1, flags).0, lo, k - 1, f.value, flags);
    }
  }

  lemma ExtendsByNone(m: Mem, t: Mem, lo: nat, done: nat, flags: Flags)
    requires Extends(m, t, lo, done, flags) && t.pages == m.pages
    ensures Extends(m, t, lo, 0, flags)
  {
    assert done == 0 || lo in t.pages;
  }
}
