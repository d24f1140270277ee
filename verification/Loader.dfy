/** The ELF loader: from a file on the volume to a mapped memory image. */
module Loader {
  import opened Bytes
  import opened Paging
  import opened FileSystem
  import opened FileIo
  import opened Catalog
  import opened Nodes
  import opened Syscalls

  datatype Segment = Segment(kind: u32, offset: u32, vaddr: u32, filesz: u32, memsz: u32)

  const HEADER_SIZE: nat := 52
  const SEGMENT_HEADER_SIZE: nat := 32
  const ELF_MAGIC: u32 := 0x464C_457F
  const PT_LOAD: u32 := 1

  /** The 4096-byte pages a segment is given; the sum wraps at 32 bits. */
  function Pages(s: Segment): (n: nat)
    ensures n < 0x10_0000
  {
    Wrap32(s.memsz as int + 0xFFF) / 4096
  }

  /** The segment's pages cover address `x`. */
  predicate Covers(s: Segment, x: int) { s.vaddr / 4096 <= x / 4096 < s.vaddr / 4096 + Pages(s) }

  predicate InSegment(s: Segment, x: int) { s.vaddr <= x < s.vaddr as int + s.memsz }

  /** Every byte of the segment is covered exactly when the offset in the first page does
      not push the end past the counted pages. */
  lemma CoveredIffFits(s: Segment)
    ensures (forall x :: InSegment(s, x) ==> Covers(s,
                                                    x)) <==> s.memsz == 0 || s.vaddr % 4096 + s.memsz <= 4096 * Pages(s)
  {
    if s.memsz > 0 {
      var last := s.vaddr as int + s.memsz - 1;
      assert InSegment(s, last);
      if s.memsz as int + 0xFFF < TWO32 && s.vaddr % 4096 + s.memsz <= 4096 * Pages(s) {
        forall x | InSegment(s, x) ensures Covers(s, x) { }
      } else {
        assert !Covers(s, last);
      }
    }
  }

  /** Segments that start on a page and do not wrap always fit. */
  lemma AlignedFits(s: Segment)
    requires s.vaddr % 4096 == 0 && s.memsz <= 0xFFFF_F000
    ensures s.vaddr % 4096 + s.memsz <= 4096 * Pages(s)
  {
  }

  /** The byte a segment puts at address `x`: file data, or zero around it. */
  function SegmentByte(s: Segment, data: seq<byte>, x: int): byte {
    if 0 <= x - s.vaddr < |data| then data[x - s.vaddr] else 0
  }

  /** What the heap gives for the segment's block: its pages, and a page for alignment. */
  function Need(s: Segment): nat { 4096 + 4096 * Pages(s) }

  /** The directory indices of `n` pages from page `v` on. */
  ghost function Directories(v: int, n: nat): set<int> {
    if n == 0 then {} else Directories(v, n - 1) + {(v + n - 1) / 1024}
  }

  lemma {:induction false} DirectoriesPrefix(v: int, m: nat, n: nat)
    requires m <= n
    ensures Directories(v, m) <= Directories(v, n)
  {
    if m < n { DirectoriesPrefix(v, m, n - 1); }
  }

  ghost function DirectoriesOf(s: Segment): set<int> { Directories(s.vaddr / 4096, Pages(s)) }

  /** The segment's pages do not pass the end of the address space, and no more was read than asked for. */
  predicate Addressable(s: Segment, data: seq<byte>) {
    |data| <= s.filesz && s.vaddr / 4096 + Pages(s) <= 0x10_0000
  }

  /** Memory has room for the block and the missing page tables, and does not end inside the data. */
  ghost predicate Room(m: Memory, c: Context, heap: int, s: Segment, data: seq<byte>) {
    && heap + Need(s) + TableCost(m, c, DirectoriesOf(s)) <= TWO32
    && AlignUp(heap) + s.vaddr % 4096 + |data| <= TWO32
  }

  /** Address `y` holds `b`, in memory that belongs to no paging structure. */
  ghost predicate Backed(m: Memory, c: Context, heap: int, y: int, b: int) {
    LaidOut(m, c) && 0 <= y < heap <= |m| && !Reserved(m, c, y) && m[y] == b
  }

  lemma BackedKept(m: Memory, m': Memory, c: Context, heap: int, heap': int, y: int, b: int)
    requires Backed(m, c, heap, y, b) && Undisturbed(m, m', c, heap) && heap <= heap' <= |m|
    ensures Backed(m', c, heap', y, b)
  {
  }

  /** Page-by-page image: `n` pages from page `v0` on frames from `a`, the rest as before. */
  ghost predicate Window(pages0: map<int, int>, pages: map<int, int>, v0: int, n: int, a: int) {
    forall v :: EntryOf(pages, v) == if v0 <= v < v0 + n then a + 4096 * (v - v0) + 7 else EntryOf(pages0, v)
  }

  lemma WindowStep(pages0: map<int, int>, pages: map<int, int>, v0: int, n: nat, a: int)
    requires Window(pages0, pages, v0, n, a)
    ensures Window(pages0, pages[v0 + n := a + 4096 * n + 7], v0, n + 1, a)
  {
    var pages' := pages[v0 + n := a + 4096 * n + 7];
    forall v ensures EntryOf(pages', v) == if v == v0 + n then a + 4096 * n + 7 else EntryOf(pages, v) { }
  }

  lemma WindowPhysical(pages0: map<int, int>, pages: map<int, int>, v0: int, n: nat, a: int, x: u32)
    requires Window(pages0, pages, v0, n, a) && a % 4096 == 0
    ensures v0 <= x / 4096 < v0 + n ==>
              Physical(pages, x) == a + (x - 4096 * v0) && EntryOf(pages, x / 4096) % 4096 == 7
    ensures !(v0 <= x / 4096 < v0 + n) ==> EntryOf(pages, x / 4096) == EntryOf(pages0, x / 4096)
  {
  }

  /** The block's contents once the data has been read into it; data that does not fit is not in it. */
  function Block(s: Segment, data: seq<byte>): (b: seq<byte>)
    ensures |b| == 4096 * Pages(s)
    ensures forall i :: 0 <= i < |b| ==> b[i] == SegmentByte(s, data, i + 4096 * (s.vaddr / 4096))
  {
    seq<byte>(4096 * Pages(s), i => SegmentByte(s, data, i + 4096 * (s.vaddr / 4096)))
  }

  /** Address `x` translates to a place that holds `b`, on a present and writable page of the user. */
  ghost predicate Shows(m: Memory, c: Context, heap: int, pages: map<int, int>, x: u32, b: int) {
    Backed(m, c, heap, Physical(pages, x), b) && EntryOf(pages, x / 4096) % 4096 == 7
  }

  /** The segment's pages translate to its image; every other page is as before. */
  ghost predicate SegmentMapped(m: Memory, c: Context, heap: int, pages0: map<int, int>, pages: map<int, int>,
                                s: Segment, data: seq<byte>) {
    forall x: u32 :: if Covers(s, x) then Shows(m, c, heap, pages, x, SegmentByte(s, data, x))
                     else EntryOf(pages, x / 4096) == EntryOf(pages0, x / 4096)
  }

  /** Block `[a, a + |b|)` holds `b`. */
  ghost predicate Filled(m: Memory, c: Context, heap: int, a: int, b: seq<byte>) {
    forall i :: 0 <= i < |b| ==> Backed(m, c, heap, a + i, b[i])
  }

  lemma FilledKept(m: Memory, m': Memory, c: Context, heap: int, heap': int, a: int, b: seq<byte>)
    requires LaidOut(m, c) && heap <= heap' <= |m| && Filled(m, c, heap, a, b) && Undisturbed(m, m', c, heap)
    ensures Filled(m', c, heap', a, b)
  {
  }

  lemma ImageMapped(m: Memory, c: Context, heap: int, pages0: map<int, int>, pages: map<int, int>, s: Segment,
                    data: seq<byte>, a: int)
    requires a % 4096 == 0 && Window(pages0, pages, s.vaddr / 4096, Pages(s), a)
    requires Filled(m, c, heap, a, Block(s, data))
    ensures SegmentMapped(m, c, heap, pages0, pages, s, data)
  {
    hide Backed, Physical, SegmentByte, Window, Pages;
    forall x: u32
      ensures if Covers(s, x) then Shows(m, c, heap, pages, x, SegmentByte(s, data, x))
              else EntryOf(pages, x / 4096) == EntryOf(pages0, x / 4096)
    {
      WindowPhysical(pages0, pages, s.vaddr / 4096, Pages(s), a, x);
      if Covers(s, x) {
        var i := x - 4096 * (s.vaddr / 4096);
        assert Backed(m, c, heap, a + i, Block(s, data)[i]);
      }
    }
  }

  /** Nothing at or above the heap pointer is reserved. */
  lemma AboveNotReserved(m: Memory, c: Context, heap: int, pages: map<int, int>)
    requires Describes(m, c, heap, pages)
    ensures LaidOut(m, c) && heap <= |m| && forall a :: heap <= a ==> !Reserved(m, c, a)
  {
  }

  /** Writing above everything allocated disturbs nothing. */
  lemma WrittenAbove(m: Memory, m': Memory, c: Context, heap: int, pages: map<int, int>)
    requires Describes(m, c, heap, pages) && heap <= |m| && forall y :: 0 <= y < heap ==> m'[y] == m[y]
    ensures Undisturbed(m, m', c, heap) && Tables(m', c) == Tables(m, c)
    ensures LaidOut(m', c) && forall y :: heap <= y ==> !Reserved(m', c, y)
  {
    hide Reserved, Describes, TableAt;
    AboveNotReserved(m, c, heap, pages);
    assert SameReserved(m, m', c);
    OutsideDescribes(m, m', c, heap, pages);
    AboveNotReserved(m', c, heap, pages);
    SameStructures(m, m', c, heap, pages);
  }

  lemma SameStructures(m: Memory, m': Memory, c: Context, heap: int, pages: map<int, int>)
    requires Describes(m, c, heap, pages) && LaidOut(m, c) && SameReserved(m, m', c)
    ensures forall a :: Reserved(m', c, a) ==> Reserved(m, c, a)
    ensures Tables(m', c) == Tables(m, c)
  {
    OutsideKeeps(m, m', c, heap);
    hide TableAt, SameReserved;
    forall a | Reserved(m', c, a) ensures Reserved(m, c, a) {
      if pd :| 0 <= pd < 1024 && InTable(TableAt(m', c, pd), a) { assert InTable(TableAt(m, c, pd), a); }
    }
  }

  /** Address `y` is one that reading the data into the block at `a` writes. */
  predicate Written(s: Segment, data: seq<byte>, a: int, y: int) {
    a + s.vaddr % 4096 <= y < a + s.vaddr % 4096 + |data|
  }

  /** The read stays inside its block exactly when the data, behind its offset in the first page,
      fits the counted pages. */
  lemma InsideIffFits(s: Segment, data: seq<byte>, a: int)
    ensures (forall y :: Written(s, data, a, y) ==> a <= y < a + 4096 * Pages(s))
            <==> |data| == 0 || s.vaddr % 4096 + |data| <= 4096 * Pages(s)
  {
    if |data| > 0 { assert Written(s, data, a, a + s.vaddr % 4096 + |data| - 1); }
  }

  /** Behind the block of `s` at `a`, the memory holds the data that did not fit and is otherwise as it was. */
  ghost predicate Overrun(m0: Memory, m: Memory, a: int, s: Segment, data: seq<byte>) {
    forall y :: 0 <= a + 4096 * Pages(s) <= y < |m| ==>
      m[y] == if Written(s, data, a, y) then data[y - a - s.vaddr % 4096] else m0[y]
  }

  /** Allocates, clears and fills the segment's block. Data that runs over the block lands in memory
      that is not allocated yet, so it disturbs nothing. */
  method FillBlock(pg: Pager, s: Segment, data: seq<byte>) returns (a: int)
    requires pg.Valid() && Addressable(s, data) && Room(pg.mem, pg.ctx, pg.heap, s, data)
    modifies pg`mem, pg`heap
    ensures pg.Valid() && pg.heap == old(pg.heap) + Need(s)
    ensures a % 4096 == 0 && 0 <= a && a + 4096 * Pages(s) <= pg.heap
    ensures Undisturbed(old(pg.mem), pg.mem, pg.ctx, old(pg.heap))
    ensures Tables(pg.mem, pg.ctx) == Tables(old(pg.mem), pg.ctx)
    ensures Filled(pg.mem, pg.ctx, pg.heap, a, Block(s, data))
    ensures Overrun(old(pg.mem), pg.mem, a, s, data)
  {
    hide Describes, Reserved, Undisturbed, Tables, TableCost, Filled, Overrun, Block, Splice, AlignUp, SegmentByte;
    ghost var m, h := pg.mem, pg.heap;
    AboveNotReserved(m, pg.ctx, h, pg.pages);
    assert 0 <= h by { HeapPositive(m, pg.ctx, h, pg.pages); }
    var n := Pages(s);
    a := pg.Alloc(4096 * n);
    pg.Fill(a, Zeros(4096 * n));
    WrittenAbove(m, pg.mem, pg.ctx, h, pg.pages);
    ghost var m1 := pg.mem;
    if s.filesz > 0 {
      pg.Fill(a + s.vaddr % 4096, data);
    }
    BlockWritten(m, m1, pg.mem, a, s, data);
    WrittenAbove(m, pg.mem, pg.ctx, h, pg.pages);
    BlockIsFilled(pg.mem, pg.ctx, h, pg.heap, a, Block(s, data));
  }

  /** Clearing the block and reading the data into it leaves the block's contents and the overrun. */
  lemma BlockWritten(m: Memory, m1: Memory, m2: Memory, a: nat, s: Segment, data: seq<byte>)
    requires a + 4096 * Pages(s) <= |m| && a + s.vaddr % 4096 + |data| <= |m| && |data| <= s.filesz
    requires m1 == Splice(m, a, Zeros(4096 * Pages(s)))
    requires m2 == if s.filesz > 0 then Splice(m1, a + s.vaddr % 4096, data) else m1
    ensures forall i :: 0 <= i < 4096 * Pages(s) ==> m2[a + i] == Block(s, data)[i]
    ensures forall y :: 0 <= y < a ==> m2[y] == m[y]
    ensures Overrun(m, m2, a, s, data)
  {
    hide Splice;
    forall i | 0 <= i < 4096 * Pages(s) ensures m2[a + i] == Block(s, data)[i] {
      assert m1[a + i] == 0;
    }
  }

  lemma BlockIsFilled(m: Memory, c: Context, h0: int, heap: int, a: nat, b: seq<byte>)
    requires LaidOut(m, c) && h0 <= a && a + |b| <= heap <= |m| && forall y :: h0 <= y ==> !Reserved(m, c, y)
    requires forall i :: 0 <= i < |b| ==> m[a + i] == b[i]
    ensures Filled(m, c, heap, a, b)
  {
    hide Reserved;
  }

  lemma HeapPositive(m: Memory, c: Context, heap: int, pages: map<int, int>)
    requires Describes(m, c, heap, pages)
    ensures 0 <= heap
  {
  }

  /** Loads one segment: block, data, and one mapping per page. */
  method LoadSegment(pg: Pager, s: Segment, data: seq<byte>)
    requires pg.Valid() && Addressable(s, data) && Room(pg.mem, pg.ctx, pg.heap, s, data)
    modifies pg
    ensures pg.Valid() && pg.heap == old(pg.heap) + Need(s) + TableCost(old(pg.mem), pg.ctx, DirectoriesOf(s))
    ensures Tables(pg.mem, pg.ctx) == Tables(old(pg.mem), pg.ctx) + DirectoriesOf(s)
    ensures Undisturbed(old(pg.mem), pg.mem, pg.ctx, old(pg.heap))
    ensures SegmentMapped(pg.mem, pg.ctx, pg.heap, old(pg.pages), pg.pages, s, data)
  {
    hide Describes, Undisturbed, Filled, Reserved, Block, Window, Tables, TableCost, Overrun, Pages, AlignUp, PageEntry;
    hide SegmentMapped;
    ghost var m0 := pg.mem;
    var a := FillBlock(pg, s, data);
    ghost var block := Block(s, data);
    ghost var m1, pages0, h1 := pg.mem, pg.pages, pg.heap;
    var v0 := s.vaddr / 4096;
    WindowStart(pages0, v0, a);
    NoTableCost(m1, pg.ctx);
    SameCost(m0, m1, pg.ctx, DirectoriesOf(s));
    for p := 0 to Pages(s)
      invariant pg.Valid() && pg.heap == h1 + TableCost(m1, pg.ctx, Directories(v0, p))
      invariant Tables(pg.mem, pg.ctx) == Tables(m1, pg.ctx) + Directories(v0, p)
      invariant Window(pages0, pg.pages, v0, p, a)
      invariant Filled(pg.mem, pg.ctx, pg.heap, a, block)
      invariant Undisturbed(m0, pg.mem, pg.ctx, old(pg.heap))
    {
      ghost var m, h := pg.mem, pg.heap;
      AboveNotReserved(m, pg.ctx, h, pg.pages);
      WindowStep(pages0, pg.pages, v0, p, a);
      TableCostAdd(m1, m, pg.ctx, Directories(v0, p), {(v0 + p) / 1024});
      DirectoriesPrefix(v0, p + 1, Pages(s));
      TableCostMonotone(m1, pg.ctx, Directories(v0, p + 1), DirectoriesOf(s));
      var virt, phys := s.vaddr - s.vaddr % 4096 + 4096 * p, a + 4096 * p;
      PageAddress(s.vaddr, p, a);
      pg.MapPage(virt, phys, 7);
      AboveNotReserved(pg.mem, pg.ctx, pg.heap, pg.pages);
      FilledKept(m, pg.mem, pg.ctx, h, pg.heap, a, block);
      UndisturbedTwice(m0, m, pg.mem, pg.ctx, old(pg.heap), h);
    }
    ImageMapped(pg.mem, pg.ctx, pg.heap, pages0, pg.pages, s, data, a);
  }

  lemma PageAddress(vaddr: u32, p: nat, a: nat)
    requires a % 4096 == 0
    ensures var virt := vaddr - vaddr % 4096 + 4096 * p;
            virt / 4096 == vaddr / 4096 + p && virt / 0x40_0000 == (vaddr / 4096 + p) / 1024
    ensures (a + 4096 * p) % 4096 == 0
    ensures a + 4096 * p < TWO32 ==> PageEntry(a + 4096 * p, 7) == a + 4096 * p + 7
  {
    hide PageEntry;
  }

  lemma SameCost(m: Memory, m': Memory, c: Context, pds: set<int>)
    requires Tables(m', c) == Tables(m, c)
    ensures TableCost(m', c, pds) == TableCost(m, c, pds)
  {
  }

  /** A two-byte segment across a page boundary gets one page: after loading it, its second byte
      is where it was before, unmapped if it was. */
  lemma StraddlingLost(m: Memory, c: Context, heap: int, pages0: map<int, int>, pages: map<int, int>, data: seq<byte>)
    requires SegmentMapped(m, c, heap, pages0, pages, Segment(PT_LOAD, 0, 0x40_0FFF, 2, 2), data)
    ensures Physical(pages, 0x40_1000) == Physical(pages0, 0x40_1000)
  {
    hide Backed, SegmentByte;
  }

  lemma WindowStart(pages: map<int, int>, v0: int, a: int)
    ensures Window(pages, pages, v0, 0, a)
  {
  }

  predicate HeaderOk(c: seq<byte>) {
    |c| >= HEADER_SIZE && Load32(c, 0) == ELF_MAGIC && c[4] == 1 && Load16(c, 18) == 3
  }

  /** Position of program header `i`. */
  function HeaderAt(c: seq<byte>, i: nat): u32
    requires |c| >= HEADER_SIZE
  {
    Wrap32(Load32(c, 28) as int + i * Load16(c, 42))
  }

  /** Program header `i` lies inside the file. */
  predicate HasHeader(c: seq<byte>, i: nat)
    requires |c| >= HEADER_SIZE
  {
    HeaderAt(c, i) + SEGMENT_HEADER_SIZE <= |c|
  }

  function Parse(b: seq<byte>): Segment
    requires |b| == SEGMENT_HEADER_SIZE
  {
    Segment(Load32(b, 0), Load32(b, 4), Load32(b, 8), Load32(b, 16), Load32(b, 20))
  }

  function SegmentAt(c: seq<byte>, i: nat): Segment
    requires |c| >= HEADER_SIZE && HasHeader(c, i)
  {
    Parse(c[HeaderAt(c, i)..HeaderAt(c, i) + SEGMENT_HEADER_SIZE])
  }

  function DataOf(c: seq<byte>, s: Segment): seq<byte> { Slice(c, s.offset, s.filesz) }

  /** The loadable segments among the first `n` program headers. */
  function Segments(c: seq<byte>, n: nat): seq<Segment>
    requires |c| >= HEADER_SIZE
  {
    if n == 0 then []
    else
      var loadable := HasHeader(c, n - 1) && SegmentAt(c, n - 1).kind == PT_LOAD;
      Segments(c, n - 1) + if loadable then [SegmentAt(c, n - 1)] else []
  }

  function NeedAll(segs: seq<Segment>): nat {
    if |segs| == 0 then 0 else NeedAll(segs[..|segs| - 1]) + Need(segs[|segs| - 1])
  }

  ghost function AllDirectories(segs: seq<Segment>): set<int> {
    if |segs| == 0 then {} else AllDirectories(segs[..|segs| - 1]) + DirectoriesOf(segs[|segs| - 1])
  }

  /** The heap pointer after loading the segments, starting with `heap` in memory `m`. */
  ghost function HeapAfter(m: Memory, c: Context, heap: int, segs: seq<Segment>): int {
    heap + NeedAll(segs) + TableCost(m, c, AllDirectories(segs))
  }

  /** Segment `i` can be loaded after the ones before it. */
  ghost predicate Placeable(m: Memory, c: Context, heap: int, file: seq<byte>, segs: seq<Segment>, i: nat)
    requires i < |segs|
  {
    var s, data := segs[i], DataOf(file, segs[i]);
    && Addressable(s, data) && HeapAfter(m, c, heap, segs[..i + 1]) <= TWO32
    && AlignUp(HeapAfter(m, c, heap, segs[..i])) + s.vaddr % 4096 + |data| <= TWO32
    && (s.offset < |file| ==> s.offset as int + s.filesz < TWO32)
  }

  /** A file the loader can take: short enough for 32-bit positions, with room for its segments. */
  ghost predicate Loadable(m: Memory, c: Context, heap: int, file: seq<byte>) {
    && |file| + SEGMENT_HEADER_SIZE <= TWO32
    && (HeaderOk(file) ==>
          var segs := Segments(file, Load16(file, 44));
          forall i :: 0 <= i < |segs| ==> Placeable(m, c, heap, file, segs, i))
  }

  /** The image of a list of segments: where several cover a page, the last one wins;
      pages that none covers are as before. */
  ghost predicate Mapped(m: Memory, c: Context, heap: int, pages0: map<int, int>, pages: map<int, int>,
                         file: seq<byte>, segs: seq<Segment>, x: u32) {
    if |segs| == 0 then EntryOf(pages, x / 4096) == EntryOf(pages0, x / 4096)
    else
      var s := segs[|segs| - 1];
      if Covers(s, x) then Shows(m, c, heap, pages, x, SegmentByte(s, DataOf(file, s), x))
      else Mapped(m, c, heap, pages0, pages, file, segs[..|segs| - 1], x)
  }

  ghost predicate ImageLoaded(m: Memory, c: Context, heap: int, pages0: map<int, int>, pages: map<int, int>,
                              file: seq<byte>, segs: seq<Segment>) {
    forall x: u32 :: Mapped(m, c, heap, pages0, pages, file, segs, x)
  }

  /** Loading another segment keeps what the earlier ones mapped elsewhere. */
  lemma {:induction false} MappedKept(m: Memory, m': Memory, c: Context, heap: int, heap': int, pages0: map<int, int>,
                                      pages: map<int, int>, pages': map<int, int>,
                                      file: seq<byte>, segs: seq<Segment>, x: u32)
    requires Mapped(m, c, heap, pages0, pages, file, segs, x) && EntryOf(pages', x / 4096) == EntryOf(pages, x / 4096)
    requires LaidOut(m, c) && heap <= heap' <= |m| && Undisturbed(m, m', c, heap)
    ensures Mapped(m', c, heap', pages0, pages', file, segs, x)
  {
    hide Undisturbed, Backed;
    if |segs| > 0 {
      var s := segs[|segs| - 1];
      if Covers(s, x) {
        BackedKept(m, m', c, heap, heap', Physical(pages, x), SegmentByte(s, DataOf(file, s), x));
      } else {
        MappedKept(m, m', c, heap, heap', pages0, pages, pages', file, segs[..|segs| - 1], x);
      }
    }
  }

  lemma ImageStep(m: Memory, m': Memory, c: Context, heap: int, heap': int, pages0: map<int, int>,
                  pages: map<int, int>, pages': map<int, int>, file: seq<byte>, segs: seq<Segment>, s: Segment)
    requires ImageLoaded(m, c, heap, pages0, pages, file, segs)
    requires SegmentMapped(m', c, heap', pages, pages', s, DataOf(file, s))
    requires LaidOut(m, c) && heap <= heap' <= |m| && Undisturbed(m, m', c, heap)
    ensures ImageLoaded(m', c, heap', pages0, pages', file, segs + [s])
  {
    hide Undisturbed, Backed, DataOf, SegmentByte, Physical;
    var segs' := segs + [s];
    assert segs'[..|segs|] == segs;
    forall x: u32 ensures Mapped(m', c, heap', pages0, pages', file, segs', x) {
      if !Covers(s, x) { MappedKept(m, m', c, heap, heap', pages0, pages, pages', file, segs, x); }
    }
  }

  /** Two segments share no page. */
  predicate PagesDisjoint(s: Segment, t: Segment) {
    s.vaddr / 4096 + Pages(s) <= t.vaddr / 4096 || t.vaddr / 4096 + Pages(t) <= s.vaddr / 4096
  }

  /** Address `x` translates to a byte `b` of memory, on a present and writable page of the user. */
  ghost predicate Holds(m: Memory, pages: map<int, int>, x: int, b: int) {
    && 0 <= x < TWO32 && EntryOf(pages, x / 4096) % 8 == 7
    && 0 <= Physical(pages, x) < |m| && m[Physical(pages, x)] == b
  }

  lemma ShowsHolds(m: Memory, c: Context, heap: int, pages: map<int, int>, x: u32, b: int)
    requires Shows(m, c, heap, pages, x, b)
    ensures Holds(m, pages, x, b)
  {
    hide Reserved, Physical, LaidOut;
    LowBits(EntryOf(pages, x / 4096));
  }

  lemma LowBits(e: int)
    ensures e % 4096 == 7 ==> e % 8 == 7
  {
  }

  /** Image fidelity: when the segments share no page, every byte of every segment that fits
      its pages translates to the file's byte, or to zero past the file data. */
  lemma {:induction false} ImageFidelity(m: Memory, c: Context, heap: int, pages0: map<int, int>, pages: map<int, int>,
                                         file: seq<byte>,
                                         segs: seq<Segment>, j: nat, k: nat)
    requires ImageLoaded(m, c, heap, pages0, pages, file, segs) && j < |segs| && k < segs[j].memsz
    requires segs[j].vaddr % 4096 + segs[j].memsz <= 4096 * Pages(segs[j]) && segs[j].vaddr as int + k < TWO32
    requires forall l :: j < l < |segs| ==> PagesDisjoint(segs[j], segs[l])
    ensures var s := segs[j];
            var o := s.offset as int + k;
            Holds(m, pages, s.vaddr as int + k, if k < s.filesz && o < |file| then file[o] else 0)
  {
    hide Shows, Holds, Covers, Mapped, Pages, SegmentByte, PagesDisjoint;
    var s, x := segs[j], segs[j].vaddr as int + k;
    CoveredIffFits(s);
    assert InSegment(s, x);
    assert Covers(s, x);
    assert Mapped(m, c, heap, pages0, pages, file, segs, x);
    LastCovering(m, c, heap, pages0, pages, file, segs, j, x);
    ShowsHolds(m, c, heap, pages, x, SegmentByte(s, DataOf(file, s), x));
    ByteOfSegment(s, file, k);
  }

  lemma ByteOfSegment(s: Segment, file: seq<byte>, k: nat)
    ensures SegmentByte(s, DataOf(file, s), s.vaddr as int + k) ==
              if k < s.filesz && s.offset as int + k < |file| then file[s.offset as int + k] else 0
  {
  }

  lemma {:induction false} LastCovering(m: Memory, c: Context, heap: int, pages0: map<int, int>, pages: map<int, int>,
                                        file: seq<byte>,
                                        segs: seq<Segment>, j: nat, x: u32)
    requires Mapped(m, c, heap, pages0, pages, file, segs, x) && j < |segs| && Covers(segs[j], x)
    requires forall l :: j < l < |segs| ==> PagesDisjoint(segs[j], segs[l])
    ensures Shows(m, c, heap, pages, x, SegmentByte(segs[j], DataOf(file, segs[j]), x))
  {
    hide Backed, DataOf, SegmentByte, Physical, Pages;
    if j < |segs| - 1 {
      assert PagesDisjoint(segs[j], segs[|segs| - 1]);
      LastCovering(m, c, heap, pages0, pages, file, segs[..|segs| - 1], j, x);
    }
  }

  lemma {:induction false} SegmentsPrefix(c: seq<byte>, i: nat, n: nat)
    requires |c| >= HEADER_SIZE && i <= n
    ensures Segments(c, i) <= Segments(c, n)
  {
    hide HasHeader, SegmentAt;
    if i < n { SegmentsPrefix(c, i, n - 1); }
  }

  /** The same 32-bit pattern as a signed number. */
  function Signed32(x: u32): int { if x < 0x8000_0000 then x else x - TWO32 }

  lemma WrapSigned(x: u32)
    ensures Wrap32(Signed32(x)) == x
  {
  }

  /** `fat32_seek` to an absolute position, then `fat32_read`. */
  method ReadAt(fs: Fs, file: File, pos: u32, size: u32, ghost id: SlotId) returns (out: seq<byte>)
    requires fs.Inv() && fs.Speaks(file, id) && (pos < |fs.ContentOf(id)| ==> pos as int + size < TWO32)
    modifies file`position, file`current
    ensures fs.Speaks(file, id)
    ensures out == Slice(fs.ContentOf(id), pos, size)
  {
    hide Volume.Refines, Catalog.Consistent, ClusterOps.Sound, Directory.Located, Volume.Geometry.Bpc, Fs.Inv;
    hide Fs.ContentOf, Bytes.Wrap32, Slice;
    assert Wrap32(Signed32(pos)) == pos by { WrapSigned(pos); }
    var _ := Seek(file, Signed32(pos), SEEK_SET);
    var _, data := fs.Read(file, size, id);
    out := data;
  }

  predicate AllHeaders(c: seq<byte>, n: nat)
    requires |c| >= HEADER_SIZE
  {
    forall i :: 0 <= i < n ==> HasHeader(c, i)
  }

  /** The first `i` program headers were there and their segments are loaded. */
  ghost predicate Progress(m0: Memory, m: Memory, c: Context, h0: int, heap: int, pages0: map<int, int>,
                           pages: map<int, int>, file: seq<byte>, i: nat) {
    && Describes(m, c, heap, pages) && HeaderOk(file) && AllHeaders(file, i) && Undisturbed(m0, m, c, h0)
    && heap == HeapAfter(m0, c, h0, Segments(file, i))
    && Tables(m, c) == Tables(m0, c) + AllDirectories(Segments(file, i))
    && ImageLoaded(m, c, heap, pages0, pages, file, Segments(file, i))
  }

  lemma SkipHeader(m0: Memory, m: Memory, c: Context, h0: int, heap: int, pages0: map<int, int>, pages: map<int, int>,
                   file: seq<byte>, i: nat)
    requires Progress(m0, m, c, h0, heap, pages0, pages, file, i) && HasHeader(file, i)
    requires SegmentAt(file, i).kind != PT_LOAD
    ensures Progress(m0, m, c, h0, heap, pages0, pages, file, i + 1)
  {
    hide Describes, HasHeader, SegmentAt, Undisturbed, ImageLoaded, Load32, Load16, HeapAfter, Tables, AllDirectories;
    assert Segments(file, i + 1) == Segments(file, i);
  }

  /** Loads the segment of program header `i`. */
  method LoadNext(fs: Fs, file: File, pg: Pager, s: Segment, ghost id: SlotId, ghost c: seq<byte>, ghost i: nat,
                  ghost m0: Memory, ghost h0: int, ghost pages0: map<int, int>)
    requires fs.Inv() && fs.Speaks(file, id) && c == fs.ContentOf(id)
    requires Progress(m0, pg.mem, pg.ctx, h0, pg.heap, pages0, pg.pages, c, i) && Upcoming(m0, pg.ctx, h0, c, s, i)
    modifies pg, file`position, file`current
    ensures fs.Speaks(file, id)
    ensures Progress(m0, pg.mem, pg.ctx, h0, pg.heap, pages0, pg.pages, c, i + 1)
  {
    hide Fs.Inv, Fs.Held, Fs.ContentOf, Fs.Speaks, Describes, ImageLoaded, SegmentMapped, Undisturbed, Reserved;
    hide HasHeader, SegmentAt, HeaderOk, Segments, HeapAfter, Tables, TableCost, AllDirectories, Addressable, Room;
    UpcomingFacts(m0, pg.mem, pg.ctx, h0, c, s, i);
    var data := [];
    if s.filesz > 0 {
      data := ReadAt(fs, file, s.offset, s.filesz, id);
    }
    assert data == DataOf(c, s);
    ghost var m, h, pages := pg.mem, pg.heap, pg.pages;
    AboveNotReserved(m, pg.ctx, h, pages);
    LoadSegment(pg, s, data);
    AboveNotReserved(pg.mem, pg.ctx, pg.heap, pg.pages);
    ImageStep(m, pg.mem, pg.ctx, h, pg.heap, pages0, pages, pg.pages, c, Segments(c, i), s);
    HeapAfterGrows(m0, pg.ctx, h0, Segments(c, i));
    UndisturbedTwice(m0, m, pg.mem, pg.ctx, h0, h);
  }

  ghost predicate Upcoming(m: Memory, c: Context, heap: int, file: seq<byte>, s: Segment, i: nat) {
    && HeaderOk(file) && Loadable(m, c, heap, file) && i < Load16(file, 44) && HasHeader(file, i)
    && s == SegmentAt(file, i) && s.kind == PT_LOAD
  }

  lemma HeapAfterGrows(m: Memory, c: Context, heap: int, segs: seq<Segment>)
    ensures heap <= HeapAfter(m, c, heap, segs)
  {
  }

  /** What loading one segment more takes. */
  lemma HeapAfterNext(m0: Memory, m: Memory, c: Context, heap: int, segs: seq<Segment>, s: Segment)
    requires Tables(m, c) == Tables(m0, c) + AllDirectories(segs)
    ensures HeapAfter(m0, c, heap, segs + [s]) ==
              HeapAfter(m0, c, heap, segs) + Need(s) + TableCost(m, c, DirectoriesOf(s))
    ensures AllDirectories(segs + [s]) == AllDirectories(segs) + DirectoriesOf(s)
  {
    hide Tables, TableCost, Need, DirectoriesOf;
    assert (segs + [s])[..|segs|] == segs;
    TableCostAdd(m0, m, c, AllDirectories(segs), DirectoriesOf(s));
  }

  lemma UpcomingFacts(m0: Memory, m: Memory, c: Context, heap: int, file: seq<byte>, s: Segment, i: nat)
    requires Upcoming(m0, c, heap, file, s, i) && Tables(m, c) == Tables(m0, c) + AllDirectories(Segments(file, i))
    ensures HeaderOk(file) && |file| >= HEADER_SIZE && HasHeader(file, i)
    ensures Segments(file, i + 1) == Segments(file, i) + [s]
    ensures AllDirectories(Segments(file, i + 1)) == AllDirectories(Segments(file, i)) + DirectoriesOf(s)
    ensures HeapAfter(m0, c, heap, Segments(file, i + 1)) ==
              HeapAfter(m0, c, heap, Segments(file, i)) + Need(s) + TableCost(m, c, DirectoriesOf(s))
    ensures Addressable(s, DataOf(file, s)) && Room(m, c, HeapAfter(m0, c, heap, Segments(file, i)), s, DataOf(file, s))
    ensures s.offset < |file| ==> s.offset as int + s.filesz < TWO32
  {
    hide SegmentAt, HasHeader, Load16, Load32, Need, Addressable, DataOf, HeapAfter, Tables, TableCost, AllDirectories;
    hide AlignUp;
    var all, segs := Segments(file, Load16(file, 44)), Segments(file, i);
    SegmentsPrefix(file, i + 1, Load16(file, 44));
    HeapAfterNext(m0, m, c, heap, segs, s);
    assert all[..|segs| + 1] == segs + [s] && all[..|segs|] == segs;
    assert Placeable(m0, c, heap, file, all, |segs|);
  }

  /** The loop over the program headers. */
  method LoadSegments(fs: Fs, file: File, pg: Pager, phoff: u32, phentsize: u16, phnum: u16, ghost id: SlotId,
                      ghost c: seq<byte>) returns (r: int)
    requires fs.Inv() && fs.Speaks(file, id) && pg.Valid() && c == fs.ContentOf(id)
    requires HeaderFields(c, phoff, phentsize, phnum) && Loadable(pg.mem, pg.ctx, pg.heap, c)
    modifies pg, file`position, file`current
    ensures fs.Speaks(file, id) && pg.Valid()
    ensures r == (if Complete(c) then 0 else -1)
    ensures Undisturbed(old(pg.mem), pg.mem, pg.ctx, old(pg.heap))
    ensures r == 0 ==> Image(old(pg.mem), pg.mem, pg.ctx, old(pg.heap), pg.heap, old(pg.pages), pg.pages, c)
  {
    hide Fs.Inv, Fs.Held, Fs.ContentOf, Fs.Speaks, Describes, ImageLoaded, Undisturbed, Loadable, HeapAfter, Tables;
    hide AllDirectories, Load32, Load16, Segments, Parse, Wrap32;
    ghost var m0, pages0, h0 := pg.mem, pg.pages, pg.heap;
    NoProgress(m0, pg.ctx, h0, pages0, c);
    LoadableSize(m0, pg.ctx, h0, c);
    for i := 0 to phnum
      invariant fs.Speaks(file, id)
      invariant Progress(m0, pg.mem, pg.ctx, h0, pg.heap, pages0, pg.pages, c, i)
    {
      var ph := ReadAt(fs, file, Wrap32(phoff as int + i * phentsize), SEGMENT_HEADER_SIZE, id);
      if |ph| != SEGMENT_HEADER_SIZE {
        assert !HasHeader(c, i);
        return -1;
      }
      assert HasHeader(c, i) && Parse(ph) == SegmentAt(c, i);
      var s := Parse(ph);
      if s.kind == PT_LOAD {
        LoadNext(fs, file, pg, s, id, c, i, m0, h0, pages0);
      } else {
        SkipHeader(m0, pg.mem, pg.ctx, h0, pg.heap, pages0, pg.pages, c, i);
      }
    }
    r := 0;
  }

  lemma NoProgress(m: Memory, c: Context, heap: int, pages: map<int, int>, file: seq<byte>)
    requires Describes(m, c, heap, pages) && HeaderOk(file)
    ensures Progress(m, m, c, heap, heap, pages, pages, file, 0)
  {
  }

  lemma LoadableSize(m: Memory, c: Context, heap: int, file: seq<byte>)
    requires Loadable(m, c, heap, file)
    ensures |file| + SEGMENT_HEADER_SIZE <= TWO32
  {
  }

  /** Reads the header of an open file and, if it is right, loads the segments. */
  method LoadImage(fs: Fs, file: File, pg: Pager, ghost id: SlotId, ghost c: seq<byte>) returns (r: int, entry: u32)
    requires fs.Inv() && fs.Speaks(file, id) && pg.Valid() && c == fs.ContentOf(id) && file.position == 0
    requires Loadable(pg.mem, pg.ctx, pg.heap, c)
    modifies pg, file`position, file`current
    ensures fs.Speaks(file, id) && pg.Valid()
    ensures r == (if Complete(c) then 0 else -1)
    ensures Undisturbed(old(pg.mem), pg.mem, pg.ctx, old(pg.heap))
    ensures r == 0 ==> IsEntryPoint(c, entry)
    ensures r == 0 ==> Image(old(pg.mem), pg.mem, pg.ctx, old(pg.heap), pg.heap, old(pg.pages), pg.pages, c)
  {
    hide Fs.Inv, Fs.Held, Fs.ContentOf, Fs.Speaks, Describes, Undisturbed, Loadable, Reserved, Image, AllHeaders;
    hide Wrap32, Delivered;
    AboveNotReserved(pg.mem, pg.ctx, pg.heap, pg.pages);
    UndisturbedSame(pg.mem, pg.ctx, pg.heap);
    entry := 0;
    var _, header := fs.Read(file, HEADER_SIZE, id);
    if |header| != HEADER_SIZE || Load32(header, 0) != ELF_MAGIC || header[4] != 1 || Load16(header, 18) != 3 {
      r := -1;
    } else {
      entry := Load32(header, 24);
      r := LoadSegments(fs, file, pg, Load32(header, 28), Load16(header, 42), Load16(header, 44), id, c);
    }
  }

  /** Loads the program at `path`; fails exactly when there is no such file, its header is
      not that of a 32-bit x86 ELF, or a program header is cut off. */
  method LoadElf(fs: Fs, file: File, pg: Pager, path: CString) returns (r: int, entry: u32)
    requires fs.Inv() && pg.Valid()
    requires fs.Target(path).k >= 0 ==> fs.Target(path) !in fs.open && IsFile(fs.Held(), fs.dirs, fs.Target(path))
    requires Loadable(pg.mem, pg.ctx, pg.heap, fs.ContentOf(fs.Target(path)))
    modifies pg, fs`refs, fs`open, file
    modifies fs.vol`disk, fs.vol`fat, fs.vol`nextFree, fs.vol`own, fs.vol`owner, fs.vol`data
    ensures fs.Inv() && pg.Valid() && !file.isOpen
    ensures fs.refs == old(fs.refs) && fs.open == old(fs.open) && SameFiles(old(fs.Held()), fs.Held(), fs.refs, fs.dirs)
    ensures SameNodes(old(fs.View()), fs.View()) && LeadsKept(old(fs.Held()), fs.Held(), fs.dirs)
    ensures DirsExtend(old(fs.vol.own), fs.vol.own, fs.dirs)
    ensures r == (if old(fs.Target(path)).k >= 0 && Complete(old(fs.ContentOf(fs.Target(path)))) then 0 else -1)
    ensures Undisturbed(old(pg.mem), pg.mem, pg.ctx, old(pg.heap))
    ensures r == 0 ==> IsEntryPoint(old(fs.ContentOf(fs.Target(path))), entry)
    ensures r == 0 ==>
              Image(old(pg.mem), pg.mem, pg.ctx, old(pg.heap), pg.heap, old(pg.pages), pg.pages,
                    old(fs.ContentOf(fs.Target(path))))
  {
    hide Fs.Inv, Fs.Held, Directory.Located, Describes, Undisturbed, Loadable, Reserved, Opened, ChainsOpened;
    hide SameFiles, SameLookups, IsFile, Image, Names.ShortName, NoRoom, Volume.Geometry.Bpc, AllHeaders, Wrap32;
    hide LeadsKept, Consistent, Recorded, NodeAt, Sole, DirsExtend;
    AboveNotReserved(pg.mem, pg.ctx, pg.heap, pg.pages);
    UndisturbedSame(pg.mem, pg.ctx, pg.heap);
    SameRefl(fs.Held(), fs.refs, fs.dirs);
    ghost var v0, c := fs.View(), fs.ContentOf(fs.Target(path));
    SameDirsLead(fs.Held(), fs.Held(), fs.dirs);
    InvConsistent(fs);
    var e, id := fs.Open(file, path, 0);
    if e != 0 { return -1, 0; }
    OpenedSame(v0, fs.View(), id, Names.ShortName(path), fs.vol.geo.Bpc());
    r, entry := LoadImage(fs, file, pg, id, c);
    var _ := fs.Close(file, id);
    RecordedNodes(v0, fs.View(), id, file.first, file.size);
  }

  /** The header is right and every program header is there. */
  predicate Complete(c: seq<byte>) { HeaderOk(c) && AllHeaders(c, Load16(c, 44)) }

  predicate HeaderFields(c: seq<byte>, phoff: u32, phentsize: u16, phnum: u16) {
    HeaderOk(c) && phoff == Load32(c, 28) && phentsize == Load16(c, 42) && phnum == Load16(c, 44)
  }

  /** The image of all the file's segments is in place. */
  ghost predicate Image(m0: Memory, m: Memory, c: Context, h0: int, heap: int, pages0: map<int, int>, pages: map<int,
                        int>, file: seq<byte>) {
    && |file| >= HEADER_SIZE && heap == HeapAfter(m0, c, h0, Segments(file, Load16(file, 44)))
    && Tables(m, c) == Tables(m0, c) + AllDirectories(Segments(file, Load16(file, 44)))
    && ImageLoaded(m, c, heap, pages0, pages, file, Segments(file, Load16(file, 44)))
  }

  predicate IsEntryPoint(file: seq<byte>, entry: u32) { |file| >= HEADER_SIZE && entry == Load32(file, 24) }

  lemma OpenedSame(v0: View, v: View, id: SlotId, nm: Names.Name11, w: nat)
    requires Opened(v0, v, id, nm, false, w) && id in v0.refs
    ensures v.refs == v0.refs && v.held == v0.held && v.dirs == v0.dirs && v.open == v0.open + {id} && id !in v0.open
  {
  }

  /** The user stack: 16 KiB of zeroed memory below 0xC0000000. */
  const STACK: Segment := Segment(PT_LOAD, 0, 0xBFFF_C000, 0, 0x4000)

  /** Besides the program there is room for the stack. */
  ghost predicate Runnable(m: Memory, c: Context, heap: int, file: seq<byte>) {
    && Loadable(m, c, heap, file)
    && (HeaderOk(file) ==> HeapAfter(m, c, heap, Segments(file, Load16(file, 44)) + [STACK]) <= TWO32)
  }

  /** The image of the program and its stack, which wins over the program where they overlap. */
  ghost predicate ImageAndStack(m: Memory, c: Context, heap: int, pages0: map<int, int>, pages: map<int, int>,
                                file: seq<byte>) {
    |file| >= HEADER_SIZE && ImageLoaded(m, c, heap, pages0, pages, file, Segments(file, Load16(file, 44)) + [STACK])
  }

  /** The stack is there, all zero. */
  ghost predicate StackReady(m: Memory, pages: map<int, int>) {
    forall x :: 0xBFFF_C000 <= x < 0xC000_0000 ==> Holds(m, pages, x, 0)
  }

  lemma StackCovers(file: seq<byte>, x: u32)
    requires 0xBFFF_C000 <= x < 0xC000_0000
    ensures Covers(STACK, x) && SegmentByte(STACK, DataOf(file, STACK), x) == 0
  {
  }

  lemma StackHolds(m: Memory, c: Context, heap: int, pages0: map<int, int>, pages: map<int, int>, file: seq<byte>)
    requires ImageAndStack(m, c, heap, pages0, pages, file)
    ensures StackReady(m, pages)
  {
    hide Shows, Holds, Segments, Load16, Covers, DataOf, SegmentByte;
    var segs := Segments(file, Load16(file, 44)) + [STACK];
    forall x | 0xBFFF_C000 <= x < 0xC000_0000 ensures Holds(m, pages, x, 0) {
      assert Mapped(m, c, heap, pages0, pages, file, segs, x);
      assert segs[|segs| - 1] == STACK;
      StackCovers(file, x);
      ShowsHolds(m, c, heap, pages, x, 0);
    }
  }

  lemma StackFits(m0: Memory, m: Memory, c: Context, heap: int, segs: seq<Segment>)
    requires Tables(m, c) == Tables(m0, c) + AllDirectories(segs) && HeapAfter(m0, c, heap, segs + [STACK]) <= TWO32
    ensures Addressable(STACK, []) && Room(m, c, HeapAfter(m0, c, heap, segs), STACK, [])
    ensures heap <= HeapAfter(m0, c, heap, segs)
  {
    hide Tables, TableCost, HeapAfter, AllDirectories, DirectoriesOf;
    HeapAfterNext(m0, m, c, heap, segs, STACK);
    HeapAfterGrows(m0, c, heap, segs);
    AlignUpIs(HeapAfter(m0, c, heap, segs));
  }

  /** Loads a program and gives it a stack; what remains is the jump to `entry`. */
  method Exec(fs: Fs, file: File, pg: Pager, path: CString) returns (r: int, entry: u32)
    requires fs.Inv() && pg.Valid()
    requires fs.Target(path).k >= 0 ==> fs.Target(path) !in fs.open && IsFile(fs.Held(), fs.dirs, fs.Target(path))
    requires Runnable(pg.mem, pg.ctx, pg.heap, fs.ContentOf(fs.Target(path)))
    modifies pg, fs`refs, fs`open, file
    modifies fs.vol`disk, fs.vol`fat, fs.vol`nextFree, fs.vol`own, fs.vol`owner, fs.vol`data
    ensures fs.Inv() && pg.Valid() && !file.isOpen
    ensures fs.refs == old(fs.refs) && fs.open == old(fs.open) && SameFiles(old(fs.Held()), fs.Held(), fs.refs, fs.dirs)
    ensures SameNodes(old(fs.View()), fs.View()) && LeadsKept(old(fs.Held()), fs.Held(), fs.dirs)
    ensures DirsExtend(old(fs.vol.own), fs.vol.own, fs.dirs)
    ensures r == (if old(fs.Target(path)).k >= 0 && Complete(old(fs.ContentOf(fs.Target(path)))) then 0 else -1)
    ensures Undisturbed(old(pg.mem), pg.mem, pg.ctx, old(pg.heap))
    ensures r == 0 ==> IsEntryPoint(old(fs.ContentOf(fs.Target(path))), entry)
    ensures r == 0 ==>
              ImageAndStack(pg.mem, pg.ctx, pg.heap, old(pg.pages), pg.pages, old(fs.ContentOf(fs.Target(path))))
    ensures r == 0 ==> StackReady(pg.mem, pg.pages)
  {
    hide Fs.Inv, Fs.Held, Fs.ContentOf, Fs.Target, Describes, Undisturbed, Loadable, Reserved, SameFiles, IsFile;
    hide ImageLoaded, SegmentMapped, Names.ShortName, AllHeaders, Tables, TableCost, HeapAfter, AllDirectories;
    hide Segments, Room, Addressable, Load16, Load32, SameNodes, LeadsKept, DirsExtend;
    hide StackReady;
    ghost var c, m0, h0, pages0 := fs.ContentOf(fs.Target(path)), pg.mem, pg.heap, pg.pages;
    AboveNotReserved(m0, pg.ctx, h0, pages0);
    r, entry := LoadElf(fs, file, pg, path);
    if r == 0 {
      ghost var m, h, pages := pg.mem, pg.heap, pg.pages;
      AboveNotReserved(m, pg.ctx, h, pages);
      StackFits(m0, m, pg.ctx, h0, Segments(c, Load16(c, 44)));
      LoadSegment(pg, STACK, []);  // the same allocate, clear and map steps, without file data
      AboveNotReserved(pg.mem, pg.ctx, pg.heap, pg.pages);
      ImageStep(m, pg.mem, pg.ctx, h, pg.heap, pages0, pages, pg.pages, c, Segments(c, Load16(c, 44)), STACK);
      UndisturbedTwice(m0, m, pg.mem, pg.ctx, h0, h);
      StackHolds(pg.mem, pg.ctx, pg.heap, pages0, pg.pages, c);
    }
  }

  /** Exec while descriptors are open: every one stays open on its file. */
  method KernelExec(k: Kernel, pg: Pager, path: CString) returns (r: int, entry: u32)
    requires k.Valid() && pg.Valid() && k.Admissible(path)
    requires Runnable(pg.mem, pg.ctx, pg.heap, k.fs.ContentOf(k.fs.Target(path)))
    modifies pg, k.fs`refs, k.fs`open
    modifies k.fs.vol`disk, k.fs.vol`fat, k.fs.vol`nextFree, k.fs.vol`own, k.fs.vol`owner, k.fs.vol`data
    ensures k.Valid() && pg.Valid()
    ensures k.fs.refs == old(k.fs.refs) && k.fs.open == old(k.fs.open) && SameNodes(old(k.fs.View()), k.fs.View())
    ensures r == (if old(k.fs.Target(path)).k >= 0 && Complete(old(k.fs.ContentOf(k.fs.Target(path)))) then 0 else -1)
    ensures Undisturbed(old(pg.mem), pg.mem, pg.ctx, old(pg.heap))
    ensures r == 0 ==> IsEntryPoint(old(k.fs.ContentOf(k.fs.Target(path))), entry)
    ensures r == 0 ==>
              ImageAndStack(pg.mem, pg.ctx, pg.heap, old(pg.pages), pg.pages, old(k.fs.ContentOf(k.fs.Target(path))))
    ensures r == 0 ==> StackReady(pg.mem, pg.pages)
  {
    hide Fs.Inv, Fs.Held, Fs.ContentOf, Directory.Located, Describes, Undisturbed, Runnable, SameFiles, IsFile;
    hide ImageAndStack, StackReady, Names.ShortName, Complete, IsEntryPoint, SameNodes, LeadsKept, Spoken;
    hide Volume.Geometry.Bpc;
    OpenFacts(k.fs);
    SpokenMember(k.fileUsed, k.ids, k.fs.open);
    var file := new File();
    r, entry := Exec(k.fs, file, pg, path);
    forall i | 0 <= i < MAX_FILES && k.fileUsed[i] ensures k.fs.Speaks(k.fileTable[i], k.ids[i]) {
      KeepsSpeaking(k.fs, k.fileTable[i], k.ids[i], old(k.fs.vol.own), k.fs.dirs);
    }
  }
}
