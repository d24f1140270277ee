/** The ELF file format as such, and what the loader makes of a file in it. */
module Elf {
  import opened Bytes
  import opened Paging
  import opened FileSystem
  import opened FileIo
  import opened Catalog
  import opened Loader
  import opened Nodes

  /** The file header; class 1 and machine 3 are those of a 32-bit x86 program. */
  datatype Header = Header(data: byte, version: byte, pad: seq<byte>, kind: u16, version2: u32, entry: u32,
                           phoff: u32, shoff: u32, flags: u32, ehsize: u16, phentsize: u16, phnum: u16,
                           shentsize: u16, shnum: u16, shstrndx: u16)

  datatype ProgramHeader = ProgramHeader(kind: u32, offset: u32, vaddr: u32, paddr: u32, filesz: u32, memsz: u32,
                                         flags: u32, align: u32)

  function HeaderBytes(h: Header): seq<byte> {
    [0x7F, 0x45, 0x4C, 0x46, 1, h.data, h.version] + h.pad + Le16(h.kind) + Le16(3) + Le32(h.version2)
    + (Le32(h.entry) + Le32(h.phoff) + Le32(h.shoff) + Le32(h.flags))
    + (Le16(h.ehsize) + Le16(h.phentsize) + Le16(h.phnum) + Le16(h.shentsize) + Le16(h.shnum) + Le16(h.shstrndx))
  }

  function ProgramHeaderBytes(p: ProgramHeader): (b: seq<byte>)
    ensures |b| == 32
  {
    Le32(p.kind) + Le32(p.offset) + Le32(p.vaddr) + Le32(p.paddr) + Le32(p.filesz) + Le32(p.memsz) + Le32(p.flags)
    + Le32(p.align)
  }

  /** Field `w` of a record, behind `a`. */
  lemma Field32(b: seq<byte>, a: seq<byte>, v: u32, z: seq<byte>)
    requires b == a + Le32(v) + z
    ensures |a| + 4 <= |b| && Load32(b, |a|) == v
  {
    hide Le32;
    var w := Le32(v);
    assert b[|a|] == w[0] && b[|a| + 1] == w[1] && b[|a| + 2] == w[2] && b[|a| + 3] == w[3];
  }

  lemma Field16(b: seq<byte>, a: seq<byte>, v: u16, z: seq<byte>)
    requires b == a + Le16(v) + z
    ensures |a| + 2 <= |b| && Load16(b, |a|) == v
  {
    hide Le16;
    var w := Le16(v);
    assert b[|a|] == w[0] && b[|a| + 1] == w[1];
  }

  /** Reading a program header gives back what was put into it. */
  lemma ParsesBack(p: ProgramHeader)
    ensures Parse(ProgramHeaderBytes(p)) == Segment(p.kind, p.offset, p.vaddr, p.filesz, p.memsz)
  {
    hide Le32, Load32;
    var b := ProgramHeaderBytes(p);
    Field32(b, [], p.kind, b[4..]);
    Field32(b, b[..4], p.offset, b[8..]);
    Field32(b, b[..8], p.vaddr, b[12..]);
    Field32(b, b[..16], p.filesz, b[20..]);
    Field32(b, b[..20], p.memsz, b[24..]);
  }

  /** The header is accepted, and its fields are read back. */
  lemma HeaderParses(c: seq<byte>, h: Header)
    requires |h.pad| == 9 && |c| >= 52 && c[..52] == HeaderBytes(h)
    ensures HeaderOk(c) && Load32(c, 24) == h.entry && Load32(c, 28) == h.phoff
    ensures Load16(c, 42) == h.phentsize && Load16(c, 44) == h.phnum
  {
    hide Le32, Le16;
    var b := HeaderBytes(h);
    assert b == c[..52] && c == b + c[52..];
    Front(h);
    Field16(c, b[..18], 3, c[20..]) by { assert b[18..20] == Le16(3); }
    Field32(c, b[..24], h.entry, c[28..]) by { assert b[24..28] == Le32(h.entry); }
    Field32(c, b[..28], h.phoff, c[32..]) by { assert b[28..32] == Le32(h.phoff); }
    Field16(c, b[..42], h.phentsize, c[44..]) by { assert b[42..44] == Le16(h.phentsize); }
    Field16(c, b[..44], h.phnum, c[46..]) by { assert b[44..46] == Le16(h.phnum); }
  }

  lemma Front(h: Header)
    requires |h.pad| == 9
    ensures |HeaderBytes(h)| == 52 && HeaderBytes(h)[..5] == [0x7F, 0x45, 0x4C, 0x46, 1]
  {
  }

  /** A header is accepted exactly for the magic number, class and machine. */
  lemma AcceptedIff(c: seq<byte>)
    ensures HeaderOk(c) <==> |c| >= 52 && c[..5] == [0x7F, 0x45, 0x4C, 0x46, 1] && c[18..20] == [3, 0]
  {
    if |c| >= 52 {
      var a := c[..5];
      assert a[0] == c[0] && a[1] == c[1] && a[2] == c[2] && a[3] == c[3] && a[4] == c[4];
      var b := c[18..20];
      assert b[0] == c[18] && b[1] == c[19];
    }
  }

  /** Where program header `i` is stored. */
  function Place(h: Header, i: nat): u32 { (h.phoff + i * h.phentsize) % 0x1_0000_0000 }

  /** File `c` is a program with these headers. */
  ghost predicate IsProgram(c: seq<byte>, h: Header, phs: seq<ProgramHeader>) {
    && |h.pad| == 9 && |c| >= 52 && c[..52] == HeaderBytes(h) && h.phnum == |phs|
    && forall i :: 0 <= i < |phs| ==> HeaderStored(c, h, i, phs[i])
  }

  ghost predicate HeaderStored(c: seq<byte>, h: Header, i: nat, p: ProgramHeader) {
    Place(h, i) + 32 <= |c| && c[Place(h, i)..Place(h, i) + 32] == ProgramHeaderBytes(p)
  }

  function SegmentOf(p: ProgramHeader): Segment { Segment(p.kind, p.offset, p.vaddr, p.filesz, p.memsz) }

  /** The loader sees the headers. */
  lemma HeadersSeen(c: seq<byte>, h: Header, phs: seq<ProgramHeader>)
    requires IsProgram(c, h, phs)
    ensures Complete(c) && Load16(c, 44) == |phs|
    ensures forall i :: 0 <= i < |phs| ==> HasHeader(c, i) && SegmentAt(c, i) == SegmentOf(phs[i])
  {
    hide HeaderOk, Parse, Load16, Load32, HeaderBytes, ProgramHeaderBytes;
    HeaderParses(c, h);
    assert HeaderOk(c) && |c| >= HEADER_SIZE;
    forall i | 0 <= i < |phs| ensures HasHeader(c, i) && SegmentAt(c, i) == SegmentOf(phs[i]) {
      assert HeaderStored(c, h, i, phs[i]);
      ParsesBack(phs[i]);
    }
  }

  /** How many pages a segment is given. */
  function PageCount(p: ProgramHeader): nat { (p.memsz + 4095) / 4096 }

  /** Byte `k` of the `i`-th segment is loaded and no later one covers its page: the segment starts on a page and
      does not wrap, and no loadable segment behind it in the file shares a page with it. */
  ghost predicate Plain(phs: seq<ProgramHeader>, i: nat, k: nat) {
    && i < |phs| && phs[i].kind == 1 && k < phs[i].memsz <= 0xFFFF_F000 && phs[i].vaddr % 4096 == 0
    && phs[i].vaddr + phs[i].memsz <= 0x1_0000_0000
    && forall l :: i < l < |phs| && phs[l].kind == 1 ==> OnOtherPages(phs[i], phs[l])
  }

  predicate OnOtherPages(p: ProgramHeader, q: ProgramHeader) {
    && q.memsz <= 0xFFFF_F000
    && (p.vaddr / 4096 + PageCount(p) <= q.vaddr / 4096 || q.vaddr / 4096 + PageCount(q) <= p.vaddr / 4096)
  }

  /** What byte `k` of a segment is: a byte of the file, or 0 behind the file data. */
  function ImageByte(c: seq<byte>, p: ProgramHeader, k: nat): byte {
    if k < p.filesz && p.offset + k < |c| then c[p.offset + k] else 0
  }

  /** The `i`-th header's bytes are in place once the first `n` have been dealt with. */
  lemma {:induction false} Loaded(m: Memory, c: Context, heap: int, pages0: map<int, int>, pages: map<int, int>,
                                  file: seq<byte>, h: Header, phs: seq<ProgramHeader>, n: nat, i: nat, k: nat)
    requires IsProgram(file, h, phs) && i < n <= |phs| && |file| >= HEADER_SIZE && Plain(phs, i, k)
    requires Mapped(m, c, heap, pages0, pages, file, Segments(file, n), phs[i].vaddr + k)
    ensures Holds(m, pages, phs[i].vaddr + k, ImageByte(file, phs[i], k))
  {
    hide Shows, Holds, ImageByte, Covers, Segments, Plain, OnOtherPages, SegmentByte, IsProgram, DataOf;
    var x: u32 := PlainAddress(phs, i, k);
    var s := SegmentOf(phs[n - 1]);
    SegmentsStep(file, h, phs, n);
    if phs[n - 1].kind == 1 { MappedLast(m, c, heap, pages0, pages, file, Segments(file, n - 1), s, x); }
    if i == n - 1 {
      CoveredByte(m, c, heap, pages, file, phs, i, k);
    } else {
      if phs[n - 1].kind == 1 { NotCovered(phs, i, n - 1, k); }
      Loaded(m, c, heap, pages0, pages, file, h, phs, n - 1, i, k);
    }
  }

  lemma PlainAddress(phs: seq<ProgramHeader>, i: nat, k: nat) returns (x: u32)
    requires Plain(phs, i, k)
    ensures i < |phs| && phs[i].kind == 1 && x == phs[i].vaddr + k
  {
    x := phs[i].vaddr + k;
  }

  lemma SegmentsStep(c: seq<byte>, h: Header, phs: seq<ProgramHeader>, n: nat)
    requires IsProgram(c, h, phs) && 0 < n <= |phs|
    ensures |c| >= HEADER_SIZE
    ensures Segments(c, n) ==
              if phs[n - 1].kind == 1 then Segments(c, n - 1) + [SegmentOf(phs[n - 1])] else Segments(c, n - 1)
  {
    hide IsProgram, HasHeader, SegmentAt;
    assert |c| >= HEADER_SIZE by { ProgramSize(c, h, phs); }
    HeadersSeen(c, h, phs);
    assert HasHeader(c, n - 1) && SegmentAt(c, n - 1) == SegmentOf(phs[n - 1]);
  }

  lemma ProgramSize(c: seq<byte>, h: Header, phs: seq<ProgramHeader>)
    requires IsProgram(c, h, phs)
    ensures |c| >= HEADER_SIZE
  {
  }

  lemma MappedLast(m: Memory, c: Context, heap: int, pages0: map<int, int>, pages: map<int, int>, file: seq<byte>,
                   segs: seq<Segment>, s: Segment, x: u32)
    requires Mapped(m, c, heap, pages0, pages, file, segs + [s], x)
    ensures if Covers(s, x) then Shows(m, c, heap, pages, x, SegmentByte(s, DataOf(file, s), x))
            else Mapped(m, c, heap, pages0, pages, file, segs, x)
  {
    hide Shows, Covers, SegmentByte, DataOf;
    assert (segs + [s])[..|segs|] == segs;
  }

  lemma NotCovered(phs: seq<ProgramHeader>, i: nat, l: nat, k: nat)
    requires Plain(phs, i, k) && i < l < |phs| && phs[l].kind == 1
    ensures !Covers(SegmentOf(phs[l]), phs[i].vaddr + k)
  {
    assert OnOtherPages(phs[i], phs[l]);
  }

  lemma CoveredByte(m: Memory, c: Context, heap: int, pages: map<int, int>, file: seq<byte>, phs: seq<ProgramHeader>,
                    i: nat, k: nat)
    requires Plain(phs, i, k)
    ensures var s, x := SegmentOf(phs[i]), phs[i].vaddr + k;
            && Covers(s, x)
            && (Shows(m, c, heap, pages, x, SegmentByte(s, DataOf(file, s), x)) ==>
                  Holds(m, pages, x, ImageByte(file, phs[i], k)))
  {
    hide Shows, Holds, OnOtherPages, Covers, SegmentByte, DataOf, ImageByte;
    var s, x: u32 := SegmentOf(phs[i]), phs[i].vaddr + k;
    PlainCovers(phs[i], k);
    ByteOfSegment(s, file, k);
    ByteOfImage(file, phs[i], k);
    if Shows(m, c, heap, pages, x, SegmentByte(s, DataOf(file, s), x)) {
      ShowsHolds(m, c, heap, pages, x, SegmentByte(s, DataOf(file, s), x));
    }
  }

  lemma ByteOfImage(c: seq<byte>, p: ProgramHeader, k: nat)
    ensures ImageByte(c, p, k) == if k < p.filesz && p.offset as int + k < |c| then c[p.offset as int + k] else 0
  {
  }

  lemma PlainCovers(p: ProgramHeader, k: nat)
    requires k < p.memsz <= 0xFFFF_F000 && p.vaddr % 4096 == 0
    ensures Covers(SegmentOf(p), p.vaddr + k)
  {
  }

  /** Every byte of every such segment is where it belongs. */
  ghost predicate InMemory(m: Memory, pages: map<int, int>, c: seq<byte>, phs: seq<ProgramHeader>) {
    forall i: nat, k: nat :: Plain(phs, i, k) ==> ByteHeld(m, pages, c, phs, i, k)
  }

  ghost predicate ByteHeld(m: Memory, pages: map<int, int>, c: seq<byte>, phs: seq<ProgramHeader>, i: nat, k: nat) {
    i < |phs| && Holds(m, pages, phs[i].vaddr + k, ImageByte(c, phs[i], k))
  }

  lemma ImageInMemory(m: Memory, c: Context, heap: int, pages0: map<int, int>, pages: map<int, int>, file: seq<byte>,
                      h: Header, phs: seq<ProgramHeader>)
    requires IsProgram(file, h, phs) && |file| >= HEADER_SIZE
    requires ImageLoaded(m, c, heap, pages0, pages, file, Segments(file, Load16(file, 44)))
    ensures InMemory(m, pages, file, phs)
  {
    hide Plain, ByteHeld, ImageLoaded, IsProgram, HeaderStored, Load16;
    forall i: nat, k: nat | Plain(phs, i, k) ensures ByteHeld(m, pages, file, phs, i, k) {
      ByteInMemory(m, c, heap, pages0, pages, file, h, phs, i, k);
    }
  }

  lemma ByteInMemory(m: Memory, c: Context, heap: int, pages0: map<int, int>, pages: map<int, int>, file: seq<byte>,
                     h: Header, phs: seq<ProgramHeader>, i: nat, k: nat)
    requires IsProgram(file, h, phs) && |file| >= HEADER_SIZE && Plain(phs, i, k)
    requires ImageLoaded(m, c, heap, pages0, pages, file, Segments(file, Load16(file, 44)))
    ensures ByteHeld(m, pages, file, phs, i, k)
  {
    hide Plain, Holds, ImageByte, IsProgram, HeaderStored, Load16, Mapped, Segments, Complete, SegmentAt, HasHeader;
    HeadersSeen(file, h, phs);
    var x: u32 := PlainAddress(phs, i, k);
    assert Mapped(m, c, heap, pages0, pages, file, Segments(file, |phs|), x);
    Loaded(m, c, heap, pages0, pages, file, h, phs, |phs|, i, k);
  }

  /** A client of the loader: a file in this format is loaded, whatever its headers say, and every byte of its
      segments that no later one covers is in memory. */
  method LoadProgram(fs: Fs, file: File, pg: Pager, path: CString, ghost h: Header, ghost phs: seq<ProgramHeader>)
    returns (r: int, entry: u32)
    requires fs.Inv() && pg.Valid()
    requires fs.Target(path).k >= 0 && fs.Target(path) !in fs.open && IsFile(fs.Held(), fs.dirs, fs.Target(path))
    requires Loadable(pg.mem, pg.ctx, pg.heap, fs.ContentOf(fs.Target(path)))
    requires IsProgram(fs.ContentOf(fs.Target(path)), h, phs)
    modifies pg, fs`refs, fs`open, file
    modifies fs.vol`disk, fs.vol`fat, fs.vol`nextFree, fs.vol`own, fs.vol`owner, fs.vol`data
    ensures fs.Inv() && pg.Valid()
    ensures r == 0 && entry == h.entry
    ensures InMemory(pg.mem, pg.pages, old(fs.ContentOf(fs.Target(path))), phs)
  {
    hide Fs.Inv, Fs.Held, Fs.ContentOf, Fs.Target, Describes, Loadable, IsFile, IsProgram, ImageLoaded, Complete;
    hide InMemory, Undisturbed, Segments, SameFiles, SameNodes, LeadsKept, DirsExtend, HeaderOk;
    ghost var c := fs.ContentOf(fs.Target(path));
    HeadersSeen(c, h, phs);
    ProgramSize(c, h, phs);
    EntrySeen(c, h, phs);
    ghost var pages0 := pg.pages;
    r, entry := LoadElf(fs, file, pg, path);
    ImageInMemory(pg.mem, pg.ctx, pg.heap, pages0, pg.pages, c, h, phs);
  }

  lemma EntrySeen(c: seq<byte>, h: Header, phs: seq<ProgramHeader>)
    requires IsProgram(c, h, phs)
    ensures |c| >= 52 && Load32(c, 24) == h.entry
  {
    hide HeaderBytes, Load32, HeaderOk;
    HeaderParses(c, h);
  }
}
