/** The mapper and the range loops of the loader library, on the objects the kernel
  * shares: a page table and the frame allocator. */
module PageTables {
  import opened Common
  import opened Frames
  import opened P = Paging

  class PageTable {
    var pages: map<nat, Mapping>
    var tables: map<Table, Frame>

    ghost function View(a: FrameAllocator): Mem
      reads this, a
    {
      Mem(a.View(), pages, tables)
    }

    constructor (initial: map<nat, Mapping>, directories: map<Table, Frame>)
      ensures pages == initial && tables == directories
    {
      pages, tables := initial, directories;
    }

    method CreateTable(table: Table, a: FrameAllocator) returns (ok: bool)
      modifies this, a
      ensures (View(a), ok) == P.CreateTables(old(View(a)), [table])
    {
      ok := true;
      if table !in tables {
        var f := a.AllocateFrame();
        if f.None? {
          return false;
        }
        tables := tables[table := f.value];
      }
    }

    method MapTo(page: nat, frame: Frame, flags: Flags, a: FrameAllocator) returns (r: MapResult)
      modifies this, a
      ensures (View(a), r) == P.MapTo(old(View(a)), page, frame, flags)
    {
      var path := TablesOf(page);
      var i := 0;
      while i < 3
        invariant 0 <= i <= 3
        invariant P.CreateTables(View(a), path[i..]) == P.CreateTables(old(View(a)), path)
        invariant pages == old(pages)
      {
        assert path[i..] == [path[i]] + path[i + 1..];
        P.CreateTablesSplits(View(a), [path[i]], path[i + 1..]);
        var ok := CreateTable(path[i], a);
        if !ok {
          return FrameAllocationFailed;
        }
        i := i + 1;
      }
      if page in pages {
        return PageAlreadyMapped;
      }
      pages := pages[page := Mapping(frame, flags)];
      r := Mapped;
    }

    method MapRange(lo: nat, n: nat, user: bool, a: FrameAllocator) returns (r: MapResult)
      modifies this, a
      ensures (View(a), r) == P.MapRange(old(View(a)), lo, n, Flags(true, user, false))
    {
      var flags := Flags(true, user, false);
      var i := 0;
      while i < n
        invariant 0 <= i <= n
        invariant P.MapRange(View(a), lo + i, n - i, flags) == P.MapRange(old(View(a)), lo, n, flags)
      {
        var f := a.AllocateFrame();
        if f.None? {
          return FrameAllocationFailed;
        }
        var result := MapTo(lo + i, f.value, flags, a);
        if !result.Mapped? {
          return result;
        }
        i := i + 1;
      }
      r := Mapped;
    }

    method UnmapRange(lo: nat, n: nat, a: FrameAllocator) returns (ok: bool)
      modifies this, a
      ensures (View(a), ok) == P.UnmapRange(old(View(a)), lo, n)
    {
      var i := 0;
      while i < n
        invariant 0 <= i <= n
        invariant P.UnmapRange(View(a), lo + i, n - i) == P.UnmapRange(old(View(a)), lo, n)
      {
        if lo + i !in pages {
          return false;
        }
        var f := pages[lo + i].frame;
        pages := pages - {lo + i};
        a.DeallocateFrame(f);
        i := i + 1;
      }
      ok := true;
    }
  }
}
