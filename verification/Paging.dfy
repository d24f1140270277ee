/** Two-level page tables in memory, their shadow table of pointers, and the bump allocator
    both live on. */
module Paging {
  import opened Bytes
  import opened Arith

  const PAGE_SIZE: nat := 4096
  const PAGE_PRESENT: nat := 1
  const TABLE_FLAGS: nat := 7

  /** Physical memory. */
  type Memory = m: seq<byte> | |m| == 0x1_0000_0000 witness Zeros(0x1_0000_0000)

  /** Where a context keeps its hardware directory and its table of pointers. */
  datatype Context = Context(directory: int, tables: int)

  /** The table pointer for directory index `pd`; 0 for none. */
  function TableAt(m: Memory, c: Context, pd: int): u32
    requires 0 <= pd < 1024 && 0 <= c.tables && c.tables + 4096 <= |m|
  {
    Load32(m, c.tables + 4 * pd)
  }

  function DirAt(m: Memory, c: Context, pd: int): u32
    requires 0 <= pd < 1024 && 0 <= c.directory && c.directory + 4096 <= |m|
  {
    Load32(m, c.directory + 4 * pd)
  }

  /** The two pages starting at `a` and `b` do not overlap. */
  predicate Apart(a: int, b: int) { a + 4096 <= b || b + 4096 <= a }

  /** Directory, pointer table and page tables are separate blocks below `heap`. */
  ghost predicate Laid(m: Memory, c: Context, heap: int) {
    && 4096 <= c.directory && c.directory + 4096 <= heap && c.directory % 4096 == 0
    && 4096 <= c.tables && c.tables + 4096 <= heap && heap <= |m|
    && Apart(c.directory, c.tables)
    && (forall pd :: 0 <= pd < 1024 ==> TableOk(c, heap, TableAt(m, c, pd)))
    && (forall pd, pd' :: 0 <= pd < pd' < 1024 && TableAt(m, c, pd) != 0 ==> TableAt(m, c, pd) != TableAt(m, c, pd'))
  }

  ghost predicate TableOk(c: Context, heap: int, t: int) {
    t == 0 || (4096 <= t && t % 4096 == 0 && t + 4096 <= heap && Apart(t, c.directory) && Apart(t, c.tables))
  }

  /** The hardware directory says what the pointer table says. */
  ghost predicate DirectoryAgrees(m: Memory, c: Context, heap: int)
    requires Laid(m, c, heap)
  {
    forall pd :: 0 <= pd < 1024 ==>
      DirAt(m, c, pd) == if TableAt(m, c, pd) == 0 then 0 else TableAt(m, c, pd) + TABLE_FLAGS
  }

  /** The entry of virtual page `v`: 0 where there is no table. */
  function EntryAt(m: Memory, c: Context, v: int): int
    requires 0 <= v < 0x10_0000 && 0 <= c.tables && c.tables + 4096 <= |m|
  {
    var t := TableAt(m, c, v / 1024);
    if t == 0 || t + 4096 > |m| then 0 else Load32(m, t + 4 * (v % 1024))
  }

  /** Storing one entry of an existing table changes that entry and nothing else. */
  lemma EntryStored(m: Memory, c: Context, heap: int, v: int, w: u32)
    requires Laid(m, c, heap) && 0 <= v < 0x10_0000 && TableAt(m, c, v / 1024) != 0
    ensures var t := TableAt(m, c, v / 1024);
            var m' := Store32(m, t + 4 * (v % 1024), w);
            && Laid(m', c, heap)
            && (forall pd :: 0 <= pd < 1024 ==>
                  TableAt(m', c, pd) == TableAt(m, c, pd) && DirAt(m', c, pd) == DirAt(m, c, pd))
            && (forall u :: 0 <= u < 0x10_0000 ==> EntryAt(m', c, u) == if u == v then w else EntryAt(m, c, u))
  {
    hide Store32, Load32;
    var t := TableAt(m, c, v / 1024);
    assert TableOk(c, heap, t);
    var a := t + 4 * (v % 1024);
    var m' := Store32(m, a, w);
    forall pd | 0 <= pd < 1024 ensures TableAt(m', c, pd) == TableAt(m, c, pd) && DirAt(m', c, pd) == DirAt(m, c, pd) {
      LoadStore(m, a, w, c.tables + 4 * pd);
      LoadStore(m, a, w, c.directory + 4 * pd);
    }
    forall u | 0 <= u < 0x10_0000 ensures EntryAt(m', c, u) == if u == v then w else EntryAt(m, c, u) {
      EntryApart(m, c, heap, v, w, u);
    }
  }

  lemma EntryApart(m: Memory, c: Context, heap: int, v: int, w: u32, u: int)
    requires Laid(m, c, heap) && 0 <= v < 0x10_0000 && TableAt(m, c, v / 1024) != 0 && 0 <= u < 0x10_0000
    requires TableAt(m, c, v / 1024) + 4096 <= |m|
    requires TableAt(Store32(m, TableAt(m, c, v / 1024) + 4 * (v % 1024), w), c, u / 1024) == TableAt(m, c, u / 1024)
    ensures EntryAt(Store32(m, TableAt(m, c, v / 1024) + 4 * (v % 1024), w), c, u) ==
              if u == v then w else EntryAt(m, c, u)
  {
    hide Store32, Load32, TableAt;
    var t, s := TableAt(m, c, v / 1024), TableAt(m, c, u / 1024);
    assert TableOk(c, heap, t) && TableOk(c, heap, s);
    if s != 0 {
      LoadStore(m, t + 4 * (v % 1024), w, s + 4 * (u % 1024));
      if u / 1024 != v / 1024 {
        assert s != t;
        assert Apart(s, t);
      } else if u != v {
        assert u % 1024 != v % 1024;
      }
    }
  }

  /** The memory after a zeroed table at `t` has been hooked up at index `pd`. */
  function WithTable(m: Memory, c: Context, pd: int, t: u32): Memory
    requires 0 <= pd < 1024 && 0 <= c.tables && c.tables + 4096 <= |m| && 0 <= c.directory && c.directory + 4096 <= |m|
    requires t as int + 4096 <= |m|
  {
    var m1 := Splice(m, t, Zeros(4096));
    Store32(Store32(m1, c.tables + 4 * pd, t), c.directory + 4 * pd, t + TABLE_FLAGS)
  }

  lemma LoadSplice(m: seq<byte>, a: nat, d: seq<byte>, b: nat)
    requires a + |d| <= |m| && b + 4 <= |m|
    ensures b + 4 <= a || a + |d| <= b ==> Load32(Splice(m, a, d), b) == Load32(m, b)
  {
  }

  lemma LoadZeros(m: seq<byte>, a: nat, n: nat, b: nat)
    requires a + n <= |m| && a <= b && b + 4 <= a + n
    ensures Load32(Splice(m, a, Zeros(n)), b) == 0
  {
  }

  /** A page-aligned block that overlaps no structure of the context. */
  ghost predicate Spare(m: Memory, c: Context, t: int)
    requires 0 <= c.tables && c.tables + 4096 <= |m|
  {
    && 4096 <= t && t % 4096 == 0 && t + 4096 <= |m| && Apart(t, c.directory) && Apart(t, c.tables)
    && forall q :: 0 <= q < 1024 && TableAt(m, c, q) != 0 ==> Apart(t, TableAt(m, c, q))
  }

  lemma AboveHeapIsSpare(m: Memory, c: Context, heap: int, t: int)
    requires Laid(m, c, heap) && heap <= t && t % 4096 == 0 && t + 4096 <= |m|
    ensures Spare(m, c, t)
  {
  }

  /** A load somewhere outside the two pointer stores of `WithTable`. */
  lemma WithTableLoads(m: Memory, c: Context, heap: int, pd: int, t: u32, b: int)
    requires Laid(m, c, heap) && 0 <= pd < 1024 && Spare(m, c, t) && 0 <= b && b + 4 <= |m|
    requires b + 4 <= c.tables + 4 * pd || c.tables + 4 * pd + 4 <= b
    requires b + 4 <= c.directory + 4 * pd || c.directory + 4 * pd + 4 <= b
    ensures b + 4 <= t || t as int + 4096 <= b ==> Load32(WithTable(m, c, pd, t), b) == Load32(m, b)
    ensures t <= b && b + 4 <= t as int + 4096 ==> Load32(WithTable(m, c, pd, t), b) == 0
  {
    hide Store32, Load32, Splice;
    var m1 := Splice(m, t, Zeros(4096));
    var m2 := Store32(m1, c.tables + 4 * pd, t);
    LoadStore(m2, c.directory + 4 * pd, t + TABLE_FLAGS, b);
    LoadStore(m1, c.tables + 4 * pd, t, b);
    if b + 4 <= t || t as int + 4096 <= b { LoadSplice(m, t, Zeros(4096), b); }
    if t <= b && b + 4 <= t as int + 4096 { LoadZeros(m, t, 4096, b); }
  }

  lemma WithTableHooks(m: Memory, c: Context, heap: int, pd: int, t: u32, q: int)
    requires Laid(m, c, heap) && 0 <= pd < 1024 && 0 <= q < 1024 && Spare(m, c, t)
    ensures TableAt(WithTable(m, c, pd, t), c, q) == if q == pd then t else TableAt(m, c, q)
    ensures DirAt(WithTable(m, c, pd, t), c, q) == if q == pd then t + TABLE_FLAGS else DirAt(m, c, q)
  {
    if q != pd {
      hide Store32, Load32, Splice, WithTable;
      WithTableLoads(m, c, heap, pd, t, c.tables + 4 * q);
      WithTableLoads(m, c, heap, pd, t, c.directory + 4 * q);
    } else {
      hide Store32, Load32, Splice;
      var m1 := Splice(m, t, Zeros(4096));
      var m2 := Store32(m1, c.tables + 4 * pd, t);
      LoadStore(m2, c.directory + 4 * pd, t + TABLE_FLAGS, c.tables + 4 * pd);
      LoadStore(m1, c.tables + 4 * pd, t, c.tables + 4 * pd);
      LoadStore(m2, c.directory + 4 * pd, t + TABLE_FLAGS, c.directory + 4 * pd);
    }
  }

  /** Hooking up an empty table in a spare block maps nothing and loses nothing. */
  lemma TableInstalled(m: Memory, c: Context, heap: int, heap': int, pd: int, t: u32)
    requires Laid(m, c, heap) && DirectoryAgrees(m, c, heap) && 0 <= pd < 1024 && TableAt(m, c, pd) == 0
    requires Spare(m, c, t) && heap <= heap' && t as int + 4096 <= heap' <= |m|
    ensures var m' := WithTable(m, c, pd, t);
            && Laid(m', c, heap') && DirectoryAgrees(m', c, heap')
            && (forall q :: 0 <= q < 1024 ==> TableAt(m', c, q) == if q == pd then t else TableAt(m, c, q))
            && (forall u :: 0 <= u < 0x10_0000 ==> EntryAt(m', c, u) == EntryAt(m, c, u))
  {
    hide Store32, Load32, Splice, WithTable;
    var m' := WithTable(m, c, pd, t);
    forall q | 0 <= q < 1024
      ensures TableAt(m', c, q) == if q == pd then t else TableAt(m, c, q)
      ensures DirAt(m', c, q) == if q == pd then t + TABLE_FLAGS else DirAt(m, c, q)
    {
      WithTableHooks(m, c, heap, pd, t, q);
    }
    forall q | 0 <= q < 1024 ensures TableOk(c, heap', TableAt(m', c, q)) && (q != pd ==> TableAt(m', c, q) != t) {
      assert TableOk(c, heap, TableAt(m, c, q));
    }
    forall u | 0 <= u < 0x10_0000 ensures EntryAt(m', c, u) == EntryAt(m, c, u) {
      var s := TableAt(m, c, u / 1024);
      assert TableOk(c, heap, s);
      if u / 1024 == pd {
        WithTableLoads(m, c, heap, pd, t, t as int + 4 * (u % 1024));
      } else if s != 0 {
        WithTableLoads(m, c, heap, pd, t, s as int + 4 * (u % 1024));
      }
    }
  }

  /** Address `a` belongs to the directory, the pointer table or a page table. */
  ghost predicate Reserved(m: Memory, c: Context, a: int)
    requires 0 <= c.tables && c.tables + 4096 <= |m|
  {
    || c.directory <= a < c.directory + 4096
    || c.tables <= a < c.tables + 4096
    || exists pd :: 0 <= pd < 1024 && InTable(TableAt(m, c, pd), a)
  }

  predicate InTable(t: int, a: int) { t != 0 && t <= a < t + 4096 }

  predicate LaidOut(m: Memory, c: Context) { 0 <= c.tables && c.tables + 4096 <= |m| }

  /** Below `heap`, only reserved bytes changed, and no byte became reserved. */
  ghost predicate Undisturbed(m: Memory, m': Memory, c: Context, heap: int) {
    && LaidOut(m, c) && heap <= |m|
    && (forall a :: 0 <= a < heap && !Reserved(m, c, a) ==> m'[a] == m[a])
    && (forall a :: 0 <= a < heap && Reserved(m', c, a) ==> Reserved(m, c, a))
  }

  lemma StoreUndisturbed(m: Memory, c: Context, heap: int, v: int, w: u32)
    requires Laid(m, c, heap) && 0 <= v < 0x10_0000 && TableAt(m, c, v / 1024) != 0
    ensures TableAt(m, c, v / 1024) + 4096 <= |m|
    ensures Undisturbed(m, Store32(m, TableAt(m, c, v / 1024) + 4 * (v % 1024), w), c, heap)
  {
    hide Load32, EntryAt, Store32, TableAt, Laid, DirAt, Undisturbed;
    TableBelow(m, c, heap, v / 1024);
    EntryStored(m, c, heap, v, w);
    var x := TableAt(m, c, v / 1024) + 4 * (v % 1024);
    WithinTable(m, Store32(m, x, w), c, heap, v / 1024, x);
  }

  lemma TableBelow(m: Memory, c: Context, heap: int, pd: int)
    requires Laid(m, c, heap) && 0 <= pd < 1024
    ensures LaidOut(m, c) && heap <= |m| && TableOk(c, heap, TableAt(m, c, pd))
  {
    hide TableAt;
  }

  /** A change of one word inside a page table disturbs nothing else. */
  lemma WithinTable(m: Memory, m': Memory, c: Context, heap: int, pd: int, x: int)
    requires LaidOut(m, c) && heap <= |m| && 0 <= pd < 1024 && TableAt(m, c, pd) != 0
    requires TableAt(m, c, pd) <= x && x + 4 <= TableAt(m, c, pd) + 4096
    requires forall a :: 0 <= a < |m| && !(x <= a < x + 4) ==> m'[a] == m[a]
    requires forall q :: 0 <= q < 1024 ==> TableAt(m', c, q) == TableAt(m, c, q)
    ensures Undisturbed(m, m', c, heap)
  {
    hide TableAt, Reserved;
    ReservedSame(m, m', c);
    forall a | 0 <= a < heap && !Reserved(m, c, a) ensures m'[a] == m[a] {
      if x <= a < x + 4 { InTableReserved(m, c, pd, a); }
    }
  }

  lemma InTableReserved(m: Memory, c: Context, pd: int, a: int)
    requires LaidOut(m, c) && 0 <= pd < 1024 && InTable(TableAt(m, c, pd), a)
    ensures Reserved(m, c, a)
  {
    hide TableAt;
  }

  lemma ReservedSame(m: Memory, m': Memory, c: Context)
    requires LaidOut(m, c) && forall pd :: 0 <= pd < 1024 ==> TableAt(m', c, pd) == TableAt(m, c, pd)
    ensures forall a :: Reserved(m', c, a) <==> Reserved(m, c, a)
  {
  }

  lemma InstallUndisturbed(m: Memory, c: Context, heap: int, pd: int, t: u32)
    requires Laid(m, c, heap) && 0 <= pd < 1024 && heap <= t && Spare(m, c, t)
    ensures Undisturbed(m, WithTable(m, c, pd, t), c, heap)
  {
    hide Load32;
    var m' := WithTable(m, c, pd, t);
    forall a | 0 <= a < heap && !Reserved(m, c, a) ensures m'[a] == m[a] { }
    forall a | 0 <= a < heap && Reserved(m', c, a) ensures Reserved(m, c, a) {
      if q :| 0 <= q < 1024 && InTable(TableAt(m', c, q), a) {
        hide WithTable;
        WithTableHooks(m, c, heap, pd, t, q);
        assert InTable(TableAt(m, c, q), a);
      }
    }
  }

  lemma UndisturbedTwice(m: Memory, m1: Memory, m2: Memory, c: Context, heap: int, heap1: int)
    requires heap <= heap1 && Undisturbed(m, m1, c, heap) && Undisturbed(m1, m2, c, heap1)
    ensures Undisturbed(m, m2, c, heap)
  {
  }

  function AlignUp(a: int): int { (a + 4095) / 4096 * 4096 }

  lemma AlignUpIs(a: int)
    ensures a <= AlignUp(a) < a + 4096 && AlignUp(a) % 4096 == 0
  {
  }

  function EntryOf(pages: map<int, int>, v: int): int { if v in pages then pages[v] else 0 }

  /** What the page map says about a virtual address: 0 for an absent page. */
  function Physical(pages: map<int, int>, virt: u32): int {
    var e := EntryOf(pages, virt / 4096);
    if e % 2 == 0 then 0 else e - e % 4096 + virt % 4096
  }

  /** The hardware walk (section 4.3 of volume 3A of the Intel SDM): directory entry, then
      table entry; -1 stands for a page fault. */
  function HardwareWalk(m: Memory, c: Context, virt: u32): int
    requires 0 <= c.directory && c.directory + 4096 <= |m|
  {
    var pde: int := Load32(m, c.directory + 4 * (virt / 0x40_0000));
    var base := pde - pde % 4096;
    if pde % 2 == 0 || base + 4096 > |m| then -1
    else
      var pte: int := Load32(m, base + 4 * (virt / 4096 % 1024));
      if pte % 2 == 0 then -1 else pte - pte % 4096 + virt % 4096
  }

  /** The processor sees the page map: it faults exactly on absent pages. */
  lemma HardwareAgrees(m: Memory, c: Context, heap: int, pages: map<int, int>, virt: u32)
    requires Laid(m, c, heap) && DirectoryAgrees(m, c, heap) && Mirrors(m, c, pages)
    ensures HardwareWalk(m, c, virt) == if EntryOf(pages, virt / 4096) % 2 == 0 then -1 else Physical(pages, virt)
  {
    hide Load32;
    var pd := virt / 0x40_0000;
    assert virt / 4096 / 1024 == pd;
    var t := TableAt(m, c, pd);
    assert TableOk(c, heap, t);
    assert EntryAt(m, c, virt / 4096) == EntryOf(pages, virt / 4096);
    assert DirAt(m, c, pd) == if t == 0 then 0 else t + TABLE_FLAGS;
  }

  ghost predicate Mirrors(m: Memory, c: Context, pages: map<int, int>)
    requires 0 <= c.tables && c.tables + 4096 <= |m|
  {
    forall v :: 0 <= v < 0x10_0000 ==> EntryAt(m, c, v) == EntryOf(pages, v)
  }

  /** Every byte of the context's structures is the same. */
  ghost predicate SameReserved(m: Memory, m': Memory, c: Context)
    requires 0 <= c.tables && c.tables + 4096 <= |m|
  {
    forall a :: 0 <= a < |m| && Reserved(m, c, a) ==> m'[a] == m[a]
  }

  lemma LoadSame(m: Memory, m': Memory, c: Context, b: int)
    requires 0 <= c.tables && c.tables + 4096 <= |m| && 0 <= b && b + 4 <= |m|
    requires SameReserved(m, m', c)
    requires forall a :: b <= a < b + 4 ==> Reserved(m, c, a)
    ensures Load32(m', b) == Load32(m, b)
  {
  }

  /** Writing outside the context's structures leaves every translation alone. */
  lemma OutsideKeeps(m: Memory, m': Memory, c: Context, heap: int)
    requires Laid(m, c, heap) && SameReserved(m, m', c)
    ensures Laid(m', c, heap)
    ensures forall pd :: 0 <= pd < 1024 ==>
              TableAt(m', c, pd) == TableAt(m, c, pd) && DirAt(m', c, pd) == DirAt(m, c, pd)
    ensures forall v :: 0 <= v < 0x10_0000 ==> EntryAt(m', c, v) == EntryAt(m, c, v)
  {
    hide Load32, SameReserved;
    forall pd | 0 <= pd < 1024 ensures TableAt(m', c, pd) == TableAt(m, c, pd) && DirAt(m', c, pd) == DirAt(m, c, pd) {
      LoadSame(m, m', c, c.tables + 4 * pd);
      LoadSame(m, m', c, c.directory + 4 * pd);
    }
    forall v | 0 <= v < 0x10_0000 ensures EntryAt(m', c, v) == EntryAt(m, c, v) {
      var t := TableAt(m, c, v / 1024);
      assert TableOk(c, heap, t);
      if t != 0 {
        assert forall a :: t <= a < t as int + 4096 ==> InTable(TableAt(m, c, v / 1024), a);
        LoadSame(m, m', c, t + 4 * (v % 1024));
      }
    }
  }

  lemma LaidGrows(m: Memory, c: Context, heap: int, heap': int)
    requires Laid(m, c, heap) && DirectoryAgrees(m, c, heap) && heap <= heap' <= |m|
    ensures Laid(m, c, heap') && DirectoryAgrees(m, c, heap')
  {
  }

  lemma UndisturbedSame(m: Memory, c: Context, heap: int)
    requires 0 <= c.tables && c.tables + 4096 <= |m| && heap <= |m|
    ensures Undisturbed(m, m, c, heap)
  {
  }

  /** Pages, as the context's structures in memory describe them. */
  ghost predicate Describes(m: Memory, c: Context, heap: int, pages: map<int, int>) {
    && Laid(m, c, heap) && DirectoryAgrees(m, c, heap) && Mirrors(m, c, pages)
    && forall v :: v in pages ==> 0 <= v < 0x10_0000 && 0 <= pages[v] < TWO32
  }

  lemma OutsideDescribes(m: Memory, m': Memory, c: Context, heap: int, pages: map<int, int>)
    requires Describes(m, c, heap, pages) && SameReserved(m, m', c)
    ensures Describes(m', c, heap, pages)
  {
    OutsideKeeps(m, m', c, heap);
    hide TableAt, DirAt, EntryAt, SameReserved;
  }

  /** A cleared directory and pointer table map nothing. */
  lemma ClearedDescribes(m: Memory, c: Context, heap: int)
    requires 4096 <= c.directory && c.directory % 4096 == 0 && 4096 <= c.tables && Apart(c.directory, c.tables)
    requires c.directory + 4096 <= heap && c.tables + 4096 <= heap <= |m|
    requires forall a :: c.directory <= a < c.directory + 4096 || c.tables <= a < c.tables + 4096 ==> m[a] == 0
    ensures Describes(m, c, heap, map[])
    ensures forall q :: 0 <= q < 1024 ==> TableAt(m, c, q) == 0
  {
    forall pd | 0 <= pd < 1024 ensures TableAt(m, c, pd) == 0 && DirAt(m, c, pd) == 0 { }
    hide Load32;
  }

  /** The directory indices that have a page table. */
  ghost function Tables(m: Memory, c: Context): set<int> {
    if LaidOut(m, c) then set pd | 0 <= pd < 1024 && TableAt(m, c, pd) != 0 else {}
  }

  /** The memory that giving page tables to the indices `pds` takes: each missing one is allocated
      with as much again for alignment. */
  ghost function TableCost(m: Memory, c: Context, pds: set<int>): nat { 8192 * |pds - Tables(m, c)| }

  lemma OneTableCost(m: Memory, c: Context, pd: int)
    requires LaidOut(m, c) && 0 <= pd < 1024
    ensures TableCost(m, c, {pd}) == if TableAt(m, c, pd) == 0 then 8192 else 0
  {
    hide TableAt;
    assert {pd} - Tables(m, c) == if TableAt(m, c, pd) == 0 then {pd} else {};
  }

  /** Tables already paid for need not be paid for again. */
  lemma TableCostAdd(m: Memory, m': Memory, c: Context, done: set<int>, more: set<int>)
    requires Tables(m', c) == Tables(m, c) + done
    ensures TableCost(m, c, done + more) == TableCost(m, c, done) + TableCost(m', c, more)
  {
    hide Tables;
    var t := Tables(m, c);
    assert done + more - t == (done - t) + (more - (t + done));
  }

  lemma TableCostMonotone(m: Memory, c: Context, some: set<int>, all: set<int>)
    requires some <= all
    ensures TableCost(m, c, some) <= TableCost(m, c, all)
  {
    hide Tables;
    SubsetCount(some - Tables(m, c), all - Tables(m, c));
  }

  function Pow2(n: nat): nat { if n == 0 then 1 else 2 * Pow2(n - 1) }

  /** `a | b` on words of `n` bits. */
  function Or(a: nat, b: nat, n: nat): nat {
    if n == 0 then 0 else Max(a % 2, b % 2) + 2 * Or(a / 2, b / 2, n - 1)
  }

  lemma {:induction false} OrBound(a: nat, b: nat, n: nat)
    ensures Or(a, b, n) < Pow2(n)
  {
    if n > 0 { OrBound(a / 2, b / 2, n - 1); }
  }

  lemma {:induction false} OrZero(a: nat, n: nat)
    requires a < Pow2(n)
    ensures Or(a, 0, n) == a
  {
    if n > 0 { OrZero(a / 2, n - 1); }
  }

  /** The lowest `k` bits are 0. */
  predicate LowZero(a: nat, k: nat) { k > 0 ==> a % 2 == 0 && LowZero(a / 2, k - 1) }

  lemma {:induction false} MultipleLowZero(a: nat, q: nat, k: nat)
    requires a == q * Pow2(k)
    ensures LowZero(a, k)
  {
    if k > 0 {
      var h := q * Pow2(k - 1);
      DoubleProduct(q, Pow2(k - 1));
      assert a == 2 * h;
      MultipleLowZero(h, q, k - 1);
    }
  }

  lemma DoubleProduct(q: int, p: int)
    ensures q * (2 * p) == 2 * (q * p)
  {
  }

  /** Where the bits of the two words do not meet, "or" adds. */
  lemma {:induction false} OrAdds(a: nat, b: nat, k: nat, n: nat)
    requires LowZero(a, k) && b < Pow2(k) && k <= n && a < Pow2(n)
    ensures Or(a, b, n) == a + b
  {
    if k == 0 {
      OrZero(a, n);
    } else {
      OrAdds(a / 2, b / 2, k - 1, n - 1);
    }
  }

  lemma Powers()
    ensures Pow2(12) == 4096 && Pow2(32) == TWO32
  {
    assert Pow2(8) == 256;
    assert Pow2(12) == 4096;
    assert Pow2(16) == 65536;
    assert Pow2(24) == 0x100_0000;
  }

  /** The word stored for a page: the frame's address, and the flags, which may reach into it. */
  function PageEntry(phys: u32, flags: u32): (w: u32)
    ensures flags < 4096 ==> w == phys - phys % 4096 + flags
  {
    Powers();
    OrBound(phys - phys % 4096, flags, 32);
    assert flags < 4096 ==> Or(phys - phys % 4096, flags, 32) == phys - phys % 4096 + flags by {
      if flags < 4096 {
        MultipleLowZero(phys - phys % 4096, phys / 4096, 12);
        OrAdds(phys - phys % 4096, flags, 12, 32);
      }
    }
    Or(phys - phys % 4096, flags, 32)
  }

  class Pager {
    var mem: Memory
    var heap: int
    const ctx: Context
    /** The most recent entry of every page. */
    ghost var pages: map<int, int>

    ghost predicate Valid()
      reads this
    {
      Describes(mem, ctx, heap, pages)
    }

    /** An empty context: the directory is a static array, the pointer table comes from
        the heap, behind the context record of 12 bytes. */
    constructor (m: Memory, h: int, directory: int)
      requires 4096 <= directory && directory % 4096 == 0 && directory + 4096 <= h && h + 4108 <= TWO32
      ensures Valid() && pages == map[] && heap == h + 4108 && ctx == Context(directory, h + 12)
      ensures forall q :: 0 <= q < 1024 ==> TableAt(mem, ctx, q) == 0
      ensures forall a :: 0 <= a < TWO32 && !Reserved(mem, ctx, a) ==> mem[a] == m[a]
    {
      ctx := Context(directory, h + 12);
      heap := h + 4108;
      mem := Splice(Splice(m, directory, Zeros(4096)), h + 12, Zeros(4096));
      pages := map[];
      new;
      ClearedDescribes(mem, ctx, heap);
    }

    /** `kmalloc_aligned(size, 4096)`: the block lies above everything allocated before. */
    method Alloc(size: nat) returns (a: int)
      requires Valid() && heap + size + 4096 <= TWO32
      modifies this`heap
      ensures Valid() && heap == old(heap) + size + 4096
      ensures a == AlignUp(old(heap)) && a % 4096 == 0 && old(heap) <= a && a + size <= heap
    {
      hide DirectoryAgrees, Mirrors, Laid;
      AlignUpIs(heap);
      a := AlignUp(heap);
      LaidGrows(mem, ctx, heap, heap + size + 4096);
      heap := heap + size + 4096;
    }

    /** Hooks up a cleared page table in a spare block. */
    method Hook(pd: int, t: u32)
      requires Valid() && 0 <= pd < 1024 && TableAt(mem, ctx, pd) == 0 && Spare(mem, ctx, t) && t + 4096 <= heap
      modifies this`mem
      ensures Valid() && mem == WithTable(old(mem), ctx, pd, t)
      ensures forall q :: 0 <= q < 1024 ==> TableAt(mem, ctx, q) == if q == pd then t else TableAt(old(mem), ctx, q)
    {
      hide Load32, Store32, TableAt, DirAt, EntryAt, DirectoryAgrees;
      TableInstalled(mem, ctx, heap, heap, pd, t);
      mem := Splice(mem, t, Zeros(4096));
      mem := Store32(mem, ctx.tables + 4 * pd, t);
      mem := Store32(mem, ctx.directory + 4 * pd, t + TABLE_FLAGS);
    }

    method StoreEntry(v: int, w: u32)
      requires Valid() && 0 <= v < 0x10_0000 && TableAt(mem, ctx, v / 1024) != 0
      modifies this`mem, this`pages
      ensures Valid() && pages == old(pages)[v := w]
      ensures Undisturbed(old(mem), mem, ctx, heap)
      ensures forall q :: 0 <= q < 1024 ==> TableAt(mem, ctx, q) == TableAt(old(mem), ctx, q)
    {
      hide Load32, Store32, DirAt, EntryAt, Undisturbed;
      var t := TableAt(mem, ctx, v / 1024);
      assert TableOk(ctx, heap, t);
      EntryStored(mem, ctx, heap, v, w);
      StoreUndisturbed(mem, ctx, heap, v, w);
      hide TableAt;
      mem := Store32(mem, t + 4 * (v % 1024), w);
      pages := pages[v := w];
    }

    method AddTable(pd: int)
      requires Valid() && 0 <= pd < 1024 && TableAt(mem, ctx, pd) == 0 && heap + 8192 <= TWO32
      modifies this`mem, this`heap
      ensures Valid() && heap == old(heap) + 8192 && TableAt(mem, ctx, pd) != 0
      ensures Tables(mem, ctx) == Tables(old(mem), ctx) + {pd}
      ensures Undisturbed(old(mem), mem, ctx, old(heap))
    {
      hide Load32, TableAt, WithTable, DirectoryAgrees, Mirrors, Undisturbed;
      ghost var heap0 := heap;
      var t := Alloc(4096);
      AboveHeapIsSpare(mem, ctx, heap0, t);
      InstallUndisturbed(mem, ctx, heap0, pd, t);
      Hook(pd, t);
    }

    /** Maps the page of `virt`, adding a page table where there is none; only that takes memory. */
    method MapPage(virt: u32, phys: u32, flags: u32)
      requires Valid() && heap + TableCost(mem, ctx, {virt / 0x40_0000}) <= TWO32
      modifies this
      ensures Valid()
      ensures pages == old(pages)[virt / 4096 := PageEntry(phys, flags)]
      ensures Undisturbed(old(mem), mem, ctx, old(heap))
      ensures Tables(mem, ctx) == Tables(old(mem), ctx) + {virt / 0x40_0000}
      ensures heap == old(heap) + TableCost(old(mem), ctx, {virt / 0x40_0000})
    {
      hide DirectoryAgrees, Mirrors, Laid, Load32, TableAt, Undisturbed;
      var pd, v := virt / 0x40_0000, virt / 4096;
      assert pd == v / 1024;
      assert Laid(mem, ctx, heap);
      LaidBounds(mem, ctx, heap);
      UndisturbedSame(mem, ctx, heap);
      OneTableCost(mem, ctx, pd);
      if TableAt(mem, ctx, pd) == 0 {
        AddTable(pd);
      }
      ghost var mid := mem;
      LaidBounds(mem, ctx, heap);
      StoreEntry(v, PageEntry(phys, flags));
      UndisturbedTwice(old(mem), mid, mem, ctx, old(heap), heap);
    }

    /** Unmaps the page of `virt`; where there is no table there is nothing to do. */
    method UnmapPage(virt: u32)
      requires Valid()
      modifies this`mem, this`pages
      ensures Valid()
      ensures forall u :: EntryOf(pages, u) == if u == virt / 4096 then 0 else EntryOf(old(pages), u)
      ensures Undisturbed(old(mem), mem, ctx, heap) && Tables(mem, ctx) == Tables(old(mem), ctx)
    {
      hide DirectoryAgrees, Laid, Load32, TableAt, Undisturbed;
      var pd, v := virt / 0x40_0000, virt / 4096;
      assert pd == v / 1024;
      LaidBounds(mem, ctx, heap);
      UndisturbedSame(mem, ctx, heap);
      if TableAt(mem, ctx, pd) != 0 {
        StoreEntry(v, 0);
      } else {
        assert EntryAt(mem, ctx, v) == 0;
      }
    }

    method GetPhysical(virt: u32) returns (r: int)
      requires Valid()
      ensures r == Physical(pages, virt)
    {
      hide DirectoryAgrees, Load32;
      var pd, pt := virt / 0x40_0000, virt / 4096 % 1024;
      assert pd == virt / 4096 / 1024;
      assert EntryAt(mem, ctx, virt / 4096) == EntryOf(pages, virt / 4096);
      var t := TableAt(mem, ctx, pd);
      if t == 0 { return 0; }
      assert TableOk(ctx, heap, t);
      var page: int := Load32(mem, t + 4 * pt);
      if page % 2 == 0 { return 0; }
      return page - page % 4096 + virt % 4096;
    }

    /** Fills a block that belongs to no structure. */
    method Fill(a: nat, d: seq<byte>)
      requires Valid() && a + |d| <= TWO32
      requires forall x :: a <= x < a + |d| ==> !Reserved(mem, ctx, x)
      modifies this`mem
      ensures Valid() && mem == Splice(old(mem), a, d)
      ensures SameReserved(old(mem), mem, ctx)
    {
      hide Reserved;
      OutsideDescribes(mem, Splice(mem, a, d), ctx, heap, pages);
      mem := Splice(mem, a, d);
    }
  }

  datatype Op = Map(virt: u32, phys: u32, flags: u32) | Unmap(virt: u32)

  /** The last operation on page `v` decides; without one, the page is as it was. */
  function MostRecent(before: int, ops: seq<Op>, v: int): int {
    if |ops| == 0 then before
    else
      var o := ops[|ops| - 1];
      if o.virt / 4096 != v then MostRecent(before, ops[..|ops| - 1], v)
      else if o.Map? then PageEntry(o.phys, o.flags)
      else 0
  }

  /** The directory indices that the operations map something under. */
  ghost function Touched(ops: seq<Op>): set<int> {
    if |ops| == 0 then {}
    else
      var o := ops[|ops| - 1];
      Touched(ops[..|ops| - 1]) + if o.Map? then {o.virt / 0x40_0000} else {}
  }

  lemma {:induction false} TouchedPrefix(ops: seq<Op>, i: nat)
    requires i <= |ops|
    ensures Touched(ops[..i]) <= Touched(ops)
  {
    if i < |ops| {
      TouchedPrefix(ops[..|ops| - 1], i);
      assert ops[..|ops| - 1][..i] == ops[..i];
    } else {
      assert ops[..i] == ops;
    }
  }

  /** A run of operations of any length leaves every page with its most recent mapping, and the
      processor and the kernel's own lookup agree on it. It takes memory once for every missing
      table it touches, so at most 1024 times. */
  method Perform(pg: Pager, ops: seq<Op>)
    requires pg.Valid() && pg.heap + TableCost(pg.mem, pg.ctx, Touched(ops)) <= TWO32
    modifies pg
    ensures pg.Valid()
    ensures forall v :: EntryOf(pg.pages, v) == MostRecent(EntryOf(old(pg.pages), v), ops, v)
    ensures Undisturbed(old(pg.mem), pg.mem, pg.ctx, old(pg.heap))
    ensures Tables(pg.mem, pg.ctx) == Tables(old(pg.mem), pg.ctx) + Touched(ops)
    ensures pg.heap == old(pg.heap) + TableCost(old(pg.mem), pg.ctx, Touched(ops))
  {
    hide Load32, TableAt, Undisturbed, Laid, DirectoryAgrees, Mirrors, Tables, TableCost;
    LaidBounds(pg.mem, pg.ctx, pg.heap);
    UndisturbedSame(pg.mem, pg.ctx, pg.heap);
    ghost var m0 := pg.mem;
    NoTableCost(m0, pg.ctx);
    for i := 0 to |ops|
      invariant pg.Valid() && pg.heap == old(pg.heap) + TableCost(m0, pg.ctx, Touched(ops[..i]))
      invariant forall v :: EntryOf(pg.pages, v) == MostRecent(EntryOf(old(pg.pages), v), ops[..i], v)
      invariant Undisturbed(m0, pg.mem, pg.ctx, old(pg.heap))
      invariant Tables(pg.mem, pg.ctx) == Tables(m0, pg.ctx) + Touched(ops[..i])
    {
      ghost var m, h := pg.mem, pg.heap;
      assert ops[..i + 1][..i] == ops[..i];
      TouchedPrefix(ops, i + 1);
      match ops[i] {
        case Map(virt, phys, flags) =>
          assert Touched(ops[..i + 1]) == Touched(ops[..i]) + {virt / 0x40_0000};
          TableCostAdd(m0, m, pg.ctx, Touched(ops[..i]), {virt / 0x40_0000});
          TableCostMonotone(m0, pg.ctx, Touched(ops[..i + 1]), Touched(ops));
          pg.MapPage(virt, phys, flags);
        case Unmap(virt) =>
          assert Touched(ops[..i + 1]) == Touched(ops[..i]);
          pg.UnmapPage(virt);
      }
      LaidBounds(pg.mem, pg.ctx, pg.heap);
      UndisturbedTwice(m0, m, pg.mem, pg.ctx, old(pg.heap), h);
    }
    assert ops[..|ops|] == ops;
  }

  lemma NoTableCost(m: Memory, c: Context)
    ensures TableCost(m, c, {}) == 0
  {
    assert {} - Tables(m, c) == {};
  }

  /** `base` starts 576 page-aligned static tables, clear of the directory and below the pointer table. */
  predicate Statics(c: Context, base: int) {
    && 4096 <= base && base % 4096 == 0 && base + 576 * 4096 <= c.tables
    && (c.directory + 4096 <= base || base + 576 * 4096 <= c.directory)
  }

  /** The static table set up for directory index `q` once `low` low and `high` high ones are. */
  function StaticTable(base: int, low: int, high: int, q: int): int {
    if 0 <= q < low then base + 4096 * q else if 960 <= q < high then base + 4096 * (q - 448) else 0
  }

  ghost predicate HasStatics(m: Memory, c: Context, base: int, low: int, high: int)
    requires 0 <= c.tables && c.tables + 4096 <= |m|
  {
    forall q :: 0 <= q < 1024 ==> TableAt(m, c, q) == StaticTable(base, low, high, q)
  }

  predicate Structure(c: Context, base: int, a: int) {
    || c.directory <= a < c.directory + 4096
    || c.tables <= a < c.tables + 4096
    || base <= a < base + 576 * 4096
  }

  /** Above page 0, only the context's structures changed. */
  ghost predicate Elsewhere(m0: Memory, m: Memory, c: Context, base: int, heap: int)
    requires heap <= |m|
  {
    forall a :: 4096 <= a < heap && !Structure(c, base, a) ==> m[a] == m0[a]
  }

  predicate Present(low: int, high: int, u: int) { 0 <= u < low || 0xF_0000 <= u < high }

  ghost predicate IdentityUpTo(pages: map<int, int>, low: int, high: int) {
    forall u :: EntryOf(pages, u) == if Present(low, high, u) then 4096 * u + 7 else 0
  }

  /** What the missing tables do to page 0: entry `p` of it is overwritten. */
  ghost predicate Clobbered(m: Memory, v: int) {
    forall p :: 0 <= p < 1024 && 959 * 1024 + p < v ==> Load32(m, 4 * p) == (959 * 1024 + p) * 4096 + 7
  }

  lemma StaticsReserved(m: Memory, c: Context, heap: int, base: int, low: int, high: int)
    requires Laid(m, c, heap) && Statics(c, base) && HasStatics(m, c, base, low, high) && 0 <= low <= 512
    requires 960 <= high <= 1024
    ensures forall a :: Reserved(m, c, a) ==> Structure(c, base, a) && 4096 <= a
  {
  }

  lemma StaticIsSpare(m: Memory, c: Context, heap: int, base: int, low: int, high: int, i: int)
    requires Laid(m, c, heap) && Statics(c, base) && HasStatics(m, c, base, low, high) && 0 <= low <= 512
    requires 960 <= high <= 1024
    requires low <= i < 512 || (low == 512 && high - 448 <= i < 576)
    ensures Spare(m, c, base + 4096 * i)
  {
  }

  lemma HookElsewhere(m0: Memory, m: Memory, c: Context, base: int, heap: int, pd: int, i: int)
    requires Laid(m, c, heap) && Statics(c, base) && 0 <= pd < 1024 && 0 <= i < 576 && Elsewhere(m0, m, c, base, heap)
    ensures base + 4096 * i + 4096 <= |m|
    ensures Elsewhere(m0, WithTable(m, c, pd, base + 4096 * i), c, base, heap)
  {
    hide Load32, TableAt;
  }

  lemma StoreElsewhere(m0: Memory, m: Memory, m': Memory, c: Context, base: int, heap: int)
    requires Laid(m, c, heap) && Undisturbed(m, m', c, heap) && Elsewhere(m0, m, c, base, heap)
    requires forall a :: Reserved(m, c, a) ==> Structure(c, base, a) && 4096 <= a
    ensures Elsewhere(m0, m', c, base, heap)
    ensures forall a :: 0 <= a < 4096 ==> m'[a] == m[a]
  {
  }

  /** Start-up in progress: `low` and `high` tables hooked up, pages filled up to `lowPage` and `highPage`. */
  ghost predicate Building(m0: Memory, m: Memory, c: Context, heap: int, pages: map<int, int>, base: int,
                           low: int, high: int, lowPage: int, highPage: int) {
    && Describes(m, c, heap, pages) && Statics(c, base) && HasStatics(m, c, base, low, high)
    && IdentityUpTo(pages, lowPage, highPage) && Elsewhere(m0, m, c, base, heap)
  }

  /** Hooks up static table `i` at index `pd`. */
  method HookStatic(pg: Pager, base: int, pd: int, i: int, ghost m0: Memory, ghost low: int, ghost high: int,
                    ghost lowPage: int)
    requires Building(m0, pg.mem, pg.ctx, pg.heap, pg.pages, base, low, high, lowPage, 0xF_0000)
    requires (0 <= pd == i == low < 512 && high == 960) || (low == 512 && pd == high < 1024 && i == pd - 448 >= 512)
    modifies pg`mem
    ensures Building(m0, pg.mem, pg.ctx, pg.heap, pg.pages, base, if pd < 512 then low + 1 else low,
                     if pd < 512 then high else high + 1, lowPage, 0xF_0000)
  {
    hide Load32, TableAt, DirectoryAgrees, Mirrors, WithTable, Spare, IdentityUpTo, Elsewhere;
    StaticIsSpare(pg.mem, pg.ctx, pg.heap, base, low, high, i);
    HookElsewhere(m0, pg.mem, pg.ctx, base, pg.heap, pd, i);
    pg.Hook(pd, base + 4096 * i);
  }

  lemma IdentityStep(pages: map<int, int>, v: int, low: int, high: int)
    requires IdentityUpTo(pages, low, high) && 0 <= low < 0xF_0000 <= high && (v == low || v == high)
    ensures v == low ==> IdentityUpTo(pages[v := 4096 * v + 7], low + 1, high)
    ensures v == high ==> IdentityUpTo(pages[v := 4096 * v + 7], low, high + 1)
  {
    var pages' := pages[v := 4096 * v + 7];
    forall u ensures EntryOf(pages', u) == if u == v then 4096 * v + 7 else EntryOf(pages, u) { }
  }

  /** Fills in entry `v` of an existing table. */
  method FillEntry(pg: Pager, v: int, ghost m0: Memory, ghost base: int, ghost low: int, ghost high: int,
                   ghost lowPage: int, ghost highPage: int)
    requires Building(m0, pg.mem, pg.ctx, pg.heap, pg.pages, base, low, high, lowPage, highPage) && 0 <= low <= 512
    requires 960 <= high <= 1024
    requires 0 <= lowPage <= 0x8_0000 && 0xF_0000 <= highPage
    requires (0 <= v == lowPage < 0x8_0000 && v / 1024 < low) || (v == highPage < 0x10_0000 && 960 <= v / 1024 < high)
    modifies pg`mem, pg`pages
    ensures Building(m0, pg.mem, pg.ctx, pg.heap, pg.pages, base, low, high,
                     if v == lowPage then lowPage + 1 else lowPage, if v == lowPage then highPage else highPage + 1)
    ensures forall a :: 0 <= a < 4096 ==> pg.mem[a] == old(pg.mem)[a]
  {
    hide Load32, TableAt, DirectoryAgrees, Mirrors, Laid, Undisturbed, Reserved, Elsewhere;
    ghost var m := pg.mem;
    StaticsReserved(m, pg.ctx, pg.heap, base, low, high);
    LaidBounds(m, pg.ctx, pg.heap);
    assert TableAt(m, pg.ctx, v / 1024) == StaticTable(base, low, high, v / 1024);
    pg.StoreEntry(v, 4096 * v + TABLE_FLAGS);
    StoreElsewhere(m0, m, pg.mem, pg.ctx, base, pg.heap);
    IdentityStep(old(pg.pages), v, lowPage, highPage);
  }

  /** The store for a page whose table does not exist lands in page 0. */
  method NullEntry(pg: Pager, v: int, ghost m0: Memory, ghost base: int)
    requires Building(m0, pg.mem, pg.ctx, pg.heap, pg.pages, base, 512, 1024, 0x8_0000, 0xF_0000)
    requires 768 * 1024 <= v < 0xF_0000
    modifies pg`mem
    ensures Building(m0, pg.mem, pg.ctx, pg.heap, pg.pages, base, 512, 1024, 0x8_0000, 0xF_0000)
    ensures pg.mem == Store32(old(pg.mem), 4 * (v % 1024), 4096 * v + TABLE_FLAGS)
  {
    hide Load32, TableAt, DirectoryAgrees, Mirrors, Laid, Reserved, IdentityUpTo, DirAt, EntryAt;
    ghost var m := pg.mem;
    StaticsReserved(m, pg.ctx, pg.heap, base, 512, 1024);
    LaidBounds(m, pg.ctx, pg.heap);
    ghost var m' := Store32(m, 4 * (v % 1024), 4096 * v + TABLE_FLAGS);
    OutsideKeeps(m, m', pg.ctx, pg.heap);
    OutsideDescribes(m, m', pg.ctx, pg.heap, pg.pages);
    pg.mem := Store32(pg.mem, 4 * (v % 1024), 4096 * v + TABLE_FLAGS);
  }

  lemma NullClobbers(m: Memory, m': Memory, v: int)
    requires 768 * 1024 <= v < 0xF_0000 && Clobbered(m, v) && m' == Store32(m, 4 * (v % 1024), 4096 * v + TABLE_FLAGS)
    ensures Clobbered(m', v + 1)
  {
    hide Load32, Store32;
    forall p | 0 <= p < 1024 && 959 * 1024 + p < v + 1 ensures Load32(m', 4 * p) == (959 * 1024 + p) * 4096 + 7 {
      LoadStore(m, 4 * (v % 1024), 4096 * v + TABLE_FLAGS, 4 * p);
    }
  }

  lemma ClobberedKept(m: Memory, m': Memory, v: int)
    requires 0xF_0000 <= v && Clobbered(m, v) && forall a :: 0 <= a < 4096 ==> m'[a] == m[a]
    ensures Clobbered(m', v + 1)
  {
    forall p | 0 <= p < 1024 ensures Load32(m', 4 * p) == Load32(m, 4 * p) {
      var b := 4 * p;
      assert m'[b] == m[b] && m'[b + 1] == m[b + 1] && m'[b + 2] == m[b + 2] && m'[b + 3] == m[b + 3];
    }
  }

  /** The identity map built at start-up. The upper loop starts at 0xC0000000 although the
      tables below 0xF0000000 do not exist; its stores there go through a null pointer, so
      those pages stay unmapped and page 0 of memory is overwritten. */
  method MapIdentity(pg: Pager, base: int)
    requires pg.Valid() && pg.pages == map[] && Statics(pg.ctx, base)
    requires forall q :: 0 <= q < 1024 ==> TableAt(pg.mem, pg.ctx, q) == 0
    modifies pg`mem, pg`pages
    ensures pg.Valid()
    ensures forall virt: u32 :: Physical(pg.pages,
                                         virt) == if virt < 0x8000_0000 || 0xF000_0000 <= virt then virt else 0
    ensures Elsewhere(old(pg.mem), pg.mem, pg.ctx, base, pg.heap)
    ensures Clobbered(pg.mem, 0x10_0000)
    ensures forall pd :: pd in Tables(pg.mem, pg.ctx) <==> 0 <= pd < 512 || 960 <= pd < 1024
  {
    hide Load32, TableAt, Describes, Elsewhere, Clobbered, Tables;
    ghost var m0 := pg.mem;
    StartsBuilding(pg.mem, pg.ctx, pg.heap, base);
    for i := 0 to 512
      invariant Building(m0, pg.mem, pg.ctx, pg.heap, pg.pages, base, i, 960, 0, 0xF_0000)
    {
      HookStatic(pg, base, i, i, m0, i, 960, 0);
    }
    for v := 0 to 0x8_0000
      invariant Building(m0, pg.mem, pg.ctx, pg.heap, pg.pages, base, 512, 960, v, 0xF_0000)
    {
      FillEntry(pg, v, m0, base, 512, 960, v, 0xF_0000);
    }
    for i := 960 to 1024
      invariant Building(m0, pg.mem, pg.ctx, pg.heap, pg.pages, base, 512, i, 0x8_0000, 0xF_0000)
    {
      HookStatic(pg, base, i, i - 448, m0, 512, i, 0x8_0000);
    }
    NotYetClobbered(pg.mem);
    for v := 0xC_0000 to 0x10_0000
      invariant Building(m0, pg.mem, pg.ctx, pg.heap, pg.pages, base, 512, 1024, 0x8_0000, Max(v, 0xF_0000))
      invariant Clobbered(pg.mem, v)
    {
      ghost var m := pg.mem;
      TablesAre(m0, pg.mem, pg.ctx, pg.heap, pg.pages, base, v, Max(v, 0xF_0000));
      if TableAt(pg.mem, pg.ctx, v / 1024) == 0 {
        NullEntry(pg, v, m0, base);
        NullClobbers(m, pg.mem, v);
      } else {
        FillEntry(pg, v, m0, base, 512, 1024, 0x8_0000, v);
        ClobberedKept(m, pg.mem, v);
      }
    }
    TablesBuilt(m0, pg.mem, pg.ctx, pg.heap, pg.pages, base);
    forall virt: u32 ensures Physical(pg.pages, virt) == if virt < 0x8000_0000 || 0xF000_0000 <= virt then virt else 0 {
      var v := virt / 4096;
      assert EntryOf(pg.pages, v) == if Present(0x8_0000, 0x10_0000, v) then 4096 * v + 7 else 0;
    }
  }

  lemma TablesAre(m0: Memory, m: Memory, c: Context, heap: int, pages: map<int, int>, base: int, v: int, highPage: int)
    requires Building(m0, m, c, heap, pages, base, 512, 1024, 0x8_0000, highPage) && 0xC_0000 <= v < 0x10_0000
    ensures 0 <= c.tables && c.tables + 4096 <= |m|
    ensures TableAt(m, c, v / 1024) == 0 <==> v < 0xF_0000
  {
  }

  /** The tables that exist in the end: those hooked below 0x80000000 and from 0xF0000000 on. */
  lemma TablesBuilt(m0: Memory, m: Memory, c: Context, heap: int, pages: map<int, int>, base: int)
    requires Building(m0, m, c, heap, pages, base, 512, 1024, 0x8_0000, 0x10_0000)
    ensures forall pd :: pd in Tables(m, c) <==> 0 <= pd < 512 || 960 <= pd < 1024
  {
    forall pd | 0 <= pd < 1024 ensures TableAt(m, c, pd) != 0 <==> pd < 512 || 960 <= pd {
    }
  }

  lemma StartsBuilding(m: Memory, c: Context, heap: int, base: int)
    requires Describes(m, c, heap, map[]) && Statics(c, base)
    requires forall q :: 0 <= q < 1024 ==> TableAt(m, c, q) == 0
    ensures Building(m, m, c, heap, map[], base, 0, 960, 0, 0xF_0000)
  {
  }

  lemma NotYetClobbered(m: Memory)
    ensures Clobbered(m, 0xC_0000)
  {
  }

  lemma LaidBounds(m: Memory, c: Context, heap: int)
    requires Laid(m, c, heap)
    ensures 0 <= c.tables && c.tables + 4096 <= heap <= |m|
  {
  }
}
