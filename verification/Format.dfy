/** Formatting a disk and mounting what is on it. */
module Format {
  import opened Bytes
  import opened Flatten
  import opened Volume
  import opened Chains
  import opened Contents
  import opened ClusterOps
  import opened ObjectStore

  /** The parts of the boot record that no driver code reads back, and the signature. */
  function BootTemplate(): Sector {
    hide BootNames, Store16;
    Store16(Store16(Store16(BootNames(), 24, 63), 26, 255), 50, 6)[21 := 0xF8][510 := 0x55][511 := 0xAA]
  }

  /** Jump, maker's name, drive, serial number, label and type. */
  function BootNames(): Sector {
    hide Splice;
    var a := Splice(Zeros(512), 0, [0xEB, 0x58, 0x90, 0x4D, 0x59, 0x4F, 0x53, 0x20, 0x20, 0x20, 0x20]);
    var b := Splice(a, 64, [0x80, 0, 0x29, 0x78, 0x56, 0x34, 0x12]);
    var c := Splice(b, 71, [0x4D, 0x59, 0x4F, 0x53, 0x20, 0x44, 0x49, 0x53, 0x4B, 0x20, 0x20]);
    Splice(c, 82, [0x46, 0x41, 0x54, 0x33, 0x32, 0x20, 0x20, 0x20])
  }

  /** The fixed fields: sector and cluster size, reserved sectors, two tables, FSInfo in sector 1. */
  function BootFields(): (s: Sector)
    ensures Load16(s, 11) == 512 && s[13] == 8 && Load16(s, 14) == 32 && s[16] == 2 && Load16(s, 48) == 1
  {
    hide BootTemplate, Store16;
    Store16(Store16(Store16(BootTemplate()[13 := 8][16 := 2], 11, 512), 14, 32), 48, 1)
  }

  /** With the sizes of volume and tables. */
  function BootSizes(totalSectors: u32, fatSize: u32): (s: Sector)
    ensures Load16(s, 11) == 512 && s[13] == 8 && Load16(s, 14) == 32 && s[16] == 2 && Load16(s, 48) == 1
    ensures Load32(s, 32) == totalSectors && Load32(s, 36) == fatSize
  {
    hide BootFields, Store32;
    var e := BootFields();
    var f := Store32(e, 32, totalSectors);
    var g := Store32(f, 36, fatSize);
    assert Load32(g, 32) == Load32(f, 32);
    g
  }

  /** The boot record: mounting gets back what formatting decided. */
  function BootSector(totalSectors: u32, fatSize: u32): (s: Sector)
    ensures Load16(s, 11) == 512 && s[13] == 8 && Load16(s, 14) == 32 && s[16] == 2
    ensures Load32(s, 32) == totalSectors && Load32(s, 36) == fatSize
    ensures Load32(s, 44) == 2 && Load16(s, 48) == 1
  {
    hide BootSizes, Store32;
    var g := BootSizes(totalSectors, fatSize);
    var h := Store32(g, 44, 2);
    assert Load32(h, 32) == Load32(g, 32) && Load32(h, 36) == Load32(g, 36);
    h
  }

  function InfoSector(): (s: Sector)
    ensures Load32(s, 492) == 3
  {
    var a := Store32(Store32(Store32(Zeros(512), 0, 0x4161_5252), 484, 0x6141_7272), 488, 0xFFFF_FFFF);
    var b := Store32(a, 492, 3);
    var c := Store32(b, 508, 0xAA55_0000);
    assert Load32(c, 492) == Load32(b, 492);
    c
  }

  /** Sector 0 of each table copy: media byte, end marks, and the root's end mark. */
  function FirstFatSector(): (s: Sector)
    ensures Load32(s, 0) == 0x0FFF_FFF8 && Load32(s, 4) == EOC_MAX && Load32(s, 8) == EOC_MAX
    ensures forall k :: 12 <= k < 512 ==> s[k] == 0
  {
    Splice(Zeros(512), 0, [0xF8, 0xFF, 0xFF, 0x0F, 0xFF, 0xFF, 0xFF, 0x0F, 0xFF, 0xFF, 0xFF, 0x0F])
  }

  /** A boot record for `totalSectors` sectors with tables of `fatSize` sectors, field by field (Microsoft's FAT32
      File System Specification 1.03, "Boot Sector and BPB"). */
  ghost predicate BootBytes(s: Sector, totalSectors: u32, fatSize: u32) {
    && s[0..3] == [0xEB, 0x58, 0x90] && s[3..11] == [0x4D, 0x59, 0x4F, 0x53, 0x20, 0x20, 0x20, 0x20]
    && Load16(s, 11) == 512 && s[13] == 8 && Load16(s, 14) == 32 && s[16] == 2
    && s[17..21] == [0, 0, 0, 0] && s[21] == 0xF8 && s[22..24] == [0, 0]
    && Load16(s, 24) == 63 && Load16(s, 26) == 255 && s[28..32] == [0, 0, 0, 0]
    && Load32(s, 32) == totalSectors && Load32(s, 36) == fatSize && s[40..44] == [0, 0, 0, 0]
    && Load32(s, 44) == 2 && Load16(s, 48) == 1 && Load16(s, 50) == 6
    && BootTail(s)
  }

  /** Drive, signature, serial number, label and type, and the mark at the end. */
  ghost predicate BootTail(s: Sector) {
    && s[64] == 0x80 && s[66] == 0x29 && s[67..71] == [0x78, 0x56, 0x34, 0x12]
    && s[71..82] == [0x4D, 0x59, 0x4F, 0x53, 0x20, 0x44, 0x49, 0x53, 0x4B, 0x20, 0x20]
    && s[82..90] == [0x46, 0x41, 0x54, 0x33, 0x32, 0x20, 0x20, 0x20]
    && (forall i :: 52 <= i < 64 || 90 <= i < 510 ==> s[i] == 0) && s[510] == 0x55 && s[511] == 0xAA
  }

  /** The FSInfo sector: three signatures, the number of free clusters unknown, the search to start at 3. */
  ghost predicate InfoBytes(s: Sector) {
    && s[0..4] == [0x52, 0x52, 0x61, 0x41] && s[484..488] == [0x72, 0x72, 0x41, 0x61]
    && s[488..492] == [0xFF, 0xFF, 0xFF, 0xFF] && s[492..496] == [3, 0, 0, 0] && s[508..512] == [0, 0, 0x55, 0xAA]
    && forall i :: 4 <= i < 484 || 496 <= i < 508 ==> s[i] == 0
  }

  lemma BootNamesAre()
    ensures var s := BootNames();
            && s[0..3] == [0xEB, 0x58, 0x90] && s[3..11] == [0x4D, 0x59, 0x4F, 0x53, 0x20, 0x20, 0x20, 0x20]
            && s[64] == 0x80 && s[66] == 0x29 && s[67..71] == [0x78, 0x56, 0x34, 0x12]
            && s[71..82] == [0x4D, 0x59, 0x4F, 0x53, 0x20, 0x44, 0x49, 0x53, 0x4B, 0x20, 0x20]
            && s[82..90] == [0x46, 0x41, 0x54, 0x33, 0x32, 0x20, 0x20, 0x20]
            && forall i :: 11 <= i < 64 || 90 <= i < 512 ==> s[i] == 0
  {
    hide Splice;
  }

  lemma BootTemplateIs()
    ensures var s, t := BootNames(), BootTemplate();
            && t[21] == 0xF8 && Load16(t, 24) == 63 && Load16(t, 26) == 255 && Load16(t, 50) == 6
            && t[510] == 0x55 && t[511] == 0xAA
            && forall i :: 0 <= i < 512 && i != 21 && !(24 <= i < 28) && !(50 <= i < 52) && i < 510 ==> t[i] == s[i]
  {
    hide BootNames, Store16;
    var a := Store16(BootNames(), 24, 63);
    var b := Store16(a, 26, 255);
    var c := Store16(b, 50, 6);
    assert b[24] == a[24] && b[25] == a[25] && c[24] == a[24] && c[25] == a[25] && c[26] == b[26] && c[27] == b[27];
  }

  lemma BootSectorKeeps(totalSectors: u32, fatSize: u32)
    ensures var t, s := BootTemplate(), BootSector(totalSectors, fatSize);
            forall i :: 0 <= i < 11 || 17 <= i < 32 || 40 <= i < 44 || 50 <= i < 512 ==> s[i] == t[i]
  {
    hide BootTemplate, Store16, Store32;
  }

  lemma BootSectorIs(totalSectors: u32, fatSize: u32)
    ensures BootBytes(BootSector(totalSectors, fatSize), totalSectors, fatSize)
  {
    hide BootNames, BootTemplate, BootSector;
    BootNamesAre();
    BootTemplateIs();
    BootSectorKeeps(totalSectors, fatSize);
    var n, t, s := BootNames(), BootTemplate(), BootSector(totalSectors, fatSize);
    assert s[0..3] == n[0..3] && s[3..11] == n[3..11];
    assert s[67..71] == n[67..71] && s[71..82] == n[71..82] && s[82..90] == n[82..90];
    assert Load16(s, 24) == Load16(t, 24) && Load16(s, 26) == Load16(t, 26) && Load16(s, 50) == Load16(t, 50);
  }

  lemma InfoSectorIs()
    ensures InfoBytes(InfoSector())
  {
    hide Store32, Le32;
    var a := Store32(Zeros(512), 0, 0x4161_5252);
    var b := Store32(a, 484, 0x6141_7272);
    var c := Store32(b, 488, 0xFFFF_FFFF);
    var d := Store32(c, 492, 3);
    var e := Store32(d, 508, 0xAA55_0000);
    StoredBytes(Zeros(512), 0, 0x4161_5252);
    StoredBytes(a, 484, 0x6141_7272);
    StoredBytes(b, 488, 0xFFFF_FFFF);
    StoredBytes(c, 492, 3);
    StoredBytes(d, 508, 0xAA55_0000);
    InfoMarks();
    assert e == InfoSector();
    assert e[0..4] == a[0..4];
    assert e[484..488] == b[484..488];
    assert e[488..492] == c[488..492];
    assert e[492..496] == d[492..496];
  }

  lemma InfoMarks()
    ensures Le32(0x4161_5252) == [0x52, 0x52, 0x61, 0x41] && Le32(0x6141_7272) == [0x72, 0x72, 0x41, 0x61]
    ensures Le32(0xFFFF_FFFF) == [0xFF, 0xFF, 0xFF, 0xFF] && Le32(3) == [3, 0, 0, 0]
    ensures Le32(0xAA55_0000) == [0, 0, 0x55, 0xAA]
  {
  }

  lemma StoredBytes(s: seq<byte>, o: nat, v: u32)
    requires o + 4 <= |s|
    ensures Store32(s, o, v)[o..o + 4] == Le32(v)
  {
    hide Le32;
  }

  function FatSizeFor(totalSectors: nat): nat
    requires 32 <= totalSectors
  {
    (totalSectors - 32) / (8 + 2 * 128) + 1
  }

  /** The volume has room for both tables and one cluster. */
  predicate RootFits(totalSectors: nat) {
    32 <= totalSectors && 32 + 2 * FatSizeFor(totalSectors) + 8 <= totalSectors
  }

  function GeometryFor(totalSectors: nat): Geometry
    requires RootFits(totalSectors)
  {
    var f := FatSizeFor(totalSectors);
    Geometry(32, 2, f, 32 + 2 * f, 8, (totalSectors - 32 - 2 * f) / 8)
  }

  /** No cluster number reaches the marks for bad clusters and ends of chains. */
  predicate NumbersFit(totalSectors: nat) {
    RootFits(totalSectors) && GeometryFor(totalSectors).totalClusters + 2 <= BAD_CLUSTER
  }

  /** Every disk that 28-bit sector addresses can reach is small enough. */
  lemma AddressableFits(totalSectors: nat)
    requires RootFits(totalSectors) && totalSectors <= 0x1000_0000
    ensures NumbersFit(totalSectors)
  {
  }

  /** The table covers every cluster, and tables and clusters fit side by side. */
  lemma GeometrySane(totalSectors: nat, diskLength: nat)
    requires NumbersFit(totalSectors) && totalSectors <= diskLength && totalSectors < TWO32
    ensures GeometryFor(totalSectors).Sane(diskLength)
  {
  }

  /** The tables are at least three times as long as the clusters need. */
  lemma TablesOversized(totalSectors: nat)
    requires RootFits(totalSectors)
    ensures 3 * (GeometryFor(totalSectors).totalClusters + 2) <= 128 * FatSizeFor(totalSectors)
  {
  }

  /** The tables and the root directory as formatting lays them out. */
  ghost predicate Formatted(disk: seq<Sector>, fatSize: nat) {
    && 32 + 2 * fatSize + 8 <= |disk|
    && (forall l :: 32 <= l < 32 + 2 * fatSize ==> disk[l] == FatSector(fatSize, l))
    && (forall i :: 32 + 2 * fatSize <= i < 32 + 2 * fatSize + 8 ==> disk[i] == Zeros(512))
  }

  method Mount(vol: Vol) returns (r: int)
    requires |vol.disk| > 0 && vol.disk[0][13] != 0
    modifies vol`geo, vol`nextFree, vol`root
    ensures r == 0 || r == -1
    ensures r == 0 <==>
              Load16(vol.disk[0], 11) == 512 && Load16(vol.disk[0], 48) < |vol.disk| && Load32(vol.disk[0], 44) >= 2
    ensures r == 0 ==> vol.geo.fatBegin == Load16(vol.disk[0], 14) && vol.geo.numFats == vol.disk[0][16]
    ensures r == 0 ==> vol.geo.fatSize == Load32(vol.disk[0], 36) && vol.geo.spc == vol.disk[0][13]
    ensures r == 0 ==> vol.geo.clusterBegin == Wrap32(vol.geo.fatBegin + vol.geo.numFats * vol.geo.fatSize)
    ensures r == 0 ==> vol.geo.totalClusters == Wrap32(Load32(vol.disk[0], 32) - vol.geo.clusterBegin) / vol.geo.spc
    ensures r == 0 ==> vol.root == Load32(vol.disk[0], 44)
    ensures r == 0 && Load16(vol.disk[0], 48) < |vol.disk| ==>
              vol.nextFree == Load32(vol.disk[Load16(vol.disk[0], 48)], 492)
  {
    hide Load16, Load32, Wrap32;
    var boot := vol.disk[0];
    if Load16(boot, 11) != 512 { return -1; }
    var infoLba := Load16(boot, 48);
    if infoLba >= |vol.disk| { return -1; }
    var info := vol.disk[infoLba];
    vol.nextFree := Load32(info, 492);
    vol.root := Load32(boot, 44);
    if vol.root < 2 { return -1; }
    var fatBegin, numFats, fatSize, spc := Load16(boot, 14), boot[16], Load32(boot, 36), boot[13];
    var clusterBegin := Wrap32(fatBegin + numFats * fatSize);
    vol.geo := Geometry(fatBegin, numFats, fatSize, clusterBegin, spc, Wrap32(Load32(boot, 32) - clusterBegin) / spc);
    r := 0;
  }

  /** Writes both tables, reusing one buffer as the source does. */
  method WriteTables(vol: Vol, fatSize: nat)
    requires 1 <= fatSize && 32 + 2 * fatSize + 8 <= |vol.disk|
    modifies vol`disk
    ensures |vol.disk| == |old(vol.disk)|
    ensures forall l :: 32 <= l < 32 + 2 * fatSize ==> vol.disk[l] == FatSector(fatSize, l)
    ensures forall l :: 0 <= l < 32 ==> vol.disk[l] == old(vol.disk)[l]
  {
    hide FirstFatSector;
    var buf: Sector := Zeros(512);
    var f := 0;
    while f < 2
      invariant 0 <= f <= 2 && |vol.disk| == |old(vol.disk)|
      invariant buf == Zeros(512) || buf == FirstFatSector()
      invariant f >= 1 ==> IsTable(vol.disk, 32, fatSize)
      invariant f >= 2 ==> IsTable(vol.disk, 32 + fatSize, fatSize)
      invariant forall l :: 0 <= l < 32 ==> vol.disk[l] == old(vol.disk)[l]
    {
      assert f * fatSize == if f == 0 then 0 else fatSize;
      buf := WriteTable(vol, 32 + f * fatSize, fatSize, buf);
      f := f + 1;
    }
  }

  /** One copy of the table: its first sector has the marks, the others are empty. */
  ghost predicate IsTable(disk: seq<Sector>, lba: nat, fatSize: nat) {
    && lba + fatSize <= |disk|
    && forall l :: lba <= l < lba + fatSize ==> disk[l] == if l == lba then FirstFatSector() else Zeros(512)
  }

  /** Writes one copy; the buffer may still hold the last sector of the one before. */
  method WriteTable(vol: Vol, lba: nat, fatSize: nat, stale: Sector) returns (buf: Sector)
    requires 1 <= fatSize && lba + fatSize <= |vol.disk| && (stale == Zeros(512) || stale == FirstFatSector())
    modifies vol`disk
    ensures |vol.disk| == |old(vol.disk)| && IsTable(vol.disk, lba, fatSize)
    ensures forall l :: 0 <= l < |vol.disk| && !(lba <= l < lba + fatSize) ==> vol.disk[l] == old(vol.disk)[l]
    ensures buf == Zeros(512) || buf == FirstFatSector()
  {
    buf := stale;
    for i := 0 to fatSize
      invariant |vol.disk| == |old(vol.disk)| && (buf == Zeros(512) || buf == FirstFatSector())
      invariant forall l :: lba <= l < lba + i ==> vol.disk[l] == if l == lba then FirstFatSector() else Zeros(512)
      invariant forall l :: 0 <= l < |vol.disk| && !(lba <= l < lba + i) ==> vol.disk[l] == old(vol.disk)[l]
    {
      if i == 0 {
        buf := Splice(buf, 0, [0xF8, 0xFF, 0xFF, 0x0F, 0xFF, 0xFF, 0xFF, 0x0F, 0xFF, 0xFF, 0xFF, 0x0F]);
        assert buf == FirstFatSector();
      } else {
        buf := Zeros(512);
      }
      vol.disk := vol.disk[lba + i := buf];
    }
  }

  /** What sector `l` of the table area holds after formatting. */
  function FatSector(fatSize: nat, l: int): Sector {
    if l == 32 || l == 32 + fatSize then FirstFatSector() else Zeros(512)
  }

  function FormattedFat(n: nat): seq<int> {
    seq(n + 2, c => if c == 0 then 0x0FFF_FFF8 else if c <= 2 then EOC_MAX as int else FREE_CLUSTER as int)
  }

  lemma FormattedEntry(disk: seq<Sector>, g: Geometry, c: nat)
    requires Formatted(disk, g.fatSize) && g.fatBegin == 32 && c < 128 * g.fatSize
    ensures 32 + c / 128 < |disk|
    ensures FatEntry(disk, g, c) == if c == 0 then 0x0FFF_FFF8 else if c <= 2 then EOC_MAX else FREE_CLUSTER
  {
    assert disk[32 + c / 128] == FatSector(g.fatSize, 32 + c / 128);
  }

  function ClusterAt(disk: seq<Sector>, g: Geometry, c: int): seq<byte> {
    if 2 <= c && g.ClusterLba(c) + g.spc <= |disk| then ClusterBytes(disk, g, c) else []
  }

  function DataOf(disk: seq<Sector>, g: Geometry): seq<seq<byte>> {
    seq(g.totalClusters + 2, c => ClusterAt(disk, g, c))
  }

  lemma DataOfRefines(disk: seq<Sector>, g: Geometry)
    requires g.Sane(|disk|)
    ensures DataRefines(disk, g, DataOf(disk, g))
  {
    forall c | 2 <= c < g.totalClusters + 2 ensures g.ClusterLba(c) + g.spc <= |disk| {
      ClusterLbaBounds(g, |disk|, c);
    }
  }

  lemma DataSized(disk: seq<Sector>, g: Geometry, data: seq<seq<byte>>)
    requires DataRefines(disk, g, data) && g.Sane(|disk|)
    ensures Sized(data, g.Bpc())
  {
    forall c | 2 <= c < |data| ensures |data[c]| == g.Bpc() {
      var ss := disk[g.ClusterLba(c)..g.ClusterLba(c) + g.spc];
      assert forall i :: 0 <= i < |ss| ==> |ss[i]| == 512;
      FlatLength(ss, 512);
    }
  }

  lemma {:induction false} FlatZeros(ss: seq<seq<byte>>)
    requires forall i :: 0 <= i < |ss| ==> ss[i] == Zeros(512)
    ensures Flat(ss) == Zeros(512 * |ss|)
  {
    if |ss| > 0 { FlatZeros(ss[..|ss| - 1]); }
  }

  /** A formatted disk encodes a table in which only the root cluster is taken, and a zeroed root. */
  lemma FormattedRefines(disk: seq<Sector>, totalSectors: nat)
    requires NumbersFit(totalSectors) && totalSectors <= |disk| && totalSectors < TWO32
    requires Formatted(disk, FatSizeFor(totalSectors))
    ensures var g := GeometryFor(totalSectors);
            && g.Sane(|disk|)
            && Refines(disk, g, FormattedFat(g.totalClusters), DataOf(disk, g))
            && Sized(DataOf(disk, g), g.Bpc()) && DataOf(disk, g)[2] == Zeros(g.Bpc())
  {
    var g := GeometryFor(totalSectors);
    GeometrySane(totalSectors, |disk|);
    DataOfRefines(disk, g);
    DataSized(disk, g, DataOf(disk, g));
    FormattedMirrored(disk, g);
    FormattedFatRefines(disk, g);
    RootZeroed(disk, g);
  }

  lemma FormattedFatRefines(disk: seq<Sector>, g: Geometry)
    requires g.Sane(|disk|) && Formatted(disk, g.fatSize) && g.fatBegin == 32 && g.totalClusters + 2 <= 128 * g.fatSize
    ensures FatRefines(disk, g, FormattedFat(g.totalClusters))
  {
    hide Formatted, Geometry.Sane;
    forall c | 0 <= c < g.totalClusters + 2
      ensures g.fatBegin + c / 128 < |disk| && FormattedFat(g.totalClusters)[c] == FatEntry(disk, g, c)
    {
      FormattedEntry(disk, g, c);
    }
  }

  lemma FormattedMirrored(disk: seq<Sector>, g: Geometry)
    requires g.Sane(|disk|) && Formatted(disk, g.fatSize) && g.fatBegin == 32 && g.numFats == 2
    ensures Mirrored(disk, g)
  {
    forall f: nat, i: nat | f < g.numFats && i < g.fatSize
      ensures SameInCopy(disk, g, f, i)
    {
      assert f == 0 || f == 1;
      assert g.FatLba(f, i) == 32 + i + if f == 0 then 0 else g.fatSize;
      hide Geometry.FatLba, Geometry.Sane, FirstFatSector;
      assert disk[g.FatLba(f, i)] == FatSector(g.fatSize, g.FatLba(f, i));
    }
  }

  lemma RootZeroed(disk: seq<Sector>, g: Geometry)
    requires g.Sane(|disk|) && Formatted(disk, g.fatSize) && g.fatBegin == 32 && g.numFats == 2 && g.spc == 8
    ensures DataOf(disk, g)[2] == Zeros(g.Bpc())
  {
    ClusterLbaBounds(g, |disk|, 2);
    var root := disk[g.ClusterLba(2)..g.ClusterLba(2) + g.spc];
    assert forall i :: 0 <= i < |root| ==> root[i] == Zeros(512);
    FlatZeros(root);
  }

  lemma FormattedOwned(n: nat)
    requires 1 <= n && n + 2 <= BAD_CLUSTER
    ensures Owned(FormattedFat(n), map[2 := [2]], seq(n + 2, c => if c == 2 then 2 else 0))
    ensures forall c :: IsFree(FormattedFat(n), c) <==> 3 <= c < n + 2
  {
  }

  /** Formats and mounts: both table copies agree, every cluster but the root's is free,
      and the root directory is empty. */
  method FormatDisk(vol: Vol, totalSectors: u32) returns (r: int)
    requires NumbersFit(totalSectors) && totalSectors <= |vol.disk|
    modifies vol
    ensures r == 0 && Sound(vol) && |vol.disk| == |old(vol.disk)|
    ensures vol.geo == GeometryFor(totalSectors) && vol.root == 2 && vol.nextFree == 3
    ensures vol.geo.fatBegin == 32 && vol.geo.numFats == 2 && vol.geo.spc == 8
    ensures vol.geo.fatSize == (totalSectors - 32) / 264 + 1
    ensures BootBytes(vol.disk[0], totalSectors, vol.geo.fatSize) && InfoBytes(vol.disk[1])
    ensures forall c :: IsFree(vol.fat, c) <==> 3 <= c < vol.geo.totalClusters + 2
    ensures vol.own == map[2 := [2]] && vol.lost == {}
    ensures InData(vol.data, [2]) && Body(vol.data, [2]) == Zeros(vol.geo.Bpc())
  {
    hide Load16, Load32, Refines, Owned, Body, Wrap32, BootSector, InfoSector, FirstFatSector, Formatted, FormattedFat;
    hide DataOf, Geometry.Sane, Sized;
    hide BootBytes, InfoBytes;
    var fatSize := (totalSectors - 32) / (8 + 2 * 128) + 1;
    BootSectorIs(totalSectors, fatSize);
    InfoSectorIs();
    WriteLayout(vol, totalSectors, fatSize);
    r := MountFormatted(vol, totalSectors, fatSize);
    FormattedRefines(vol.disk, totalSectors);
    FormattedOwned(vol.geo.totalClusters);
    ghost var n := vol.geo.totalClusters;
    vol.fat, vol.data := FormattedFat(n), DataOf(vol.disk, vol.geo);
    vol.own, vol.owner, vol.lost := map[2 := [2]], seq(n + 2, c => if c == 2 then 2 else 0), {};
    FormattedShape(vol.disk, vol.geo);
    BodySingle(vol.data, 2);
  }

  /** Mounting a freshly formatted volume recovers its geometry. */
  method MountFormatted(vol: Vol, totalSectors: u32, fatSize: u32) returns (r: int)
    requires NumbersFit(totalSectors) && totalSectors <= |vol.disk|
    requires fatSize == FatSizeFor(totalSectors)
    requires vol.disk[0] == BootSector(totalSectors, fatSize) && vol.disk[1] == InfoSector()
    modifies vol`geo, vol`nextFree, vol`root
    ensures r == 0 && vol.geo == GeometryFor(totalSectors) && vol.root == 2 && vol.nextFree == 3
  {
    hide Load16, Load32, Wrap32, BootSector, InfoSector, FatSizeFor;
    MountedGeometry(totalSectors);
    r := Mount(vol);
  }

  lemma FormattedShape(disk: seq<Sector>, g: Geometry)
    ensures |FormattedFat(g.totalClusters)| == |DataOf(disk, g)| == g.totalClusters + 2
    ensures forall c :: 0 <= c < g.totalClusters + 2 ==> 0 <= FormattedFat(g.totalClusters)[c] < 0x1000_0000
  {
  }

  /** Boot record, FSInfo, tables and root directory. */
  method WriteLayout(vol: Vol, totalSectors: u32, fatSize: u32)
    requires 1 <= fatSize && 32 + 2 * fatSize as int + 8 <= |vol.disk|
    modifies vol`disk
    ensures |vol.disk| == |old(vol.disk)| && Formatted(vol.disk, fatSize)
    ensures vol.disk[0] == BootSector(totalSectors, fatSize) && vol.disk[1] == InfoSector()
  {
    hide BootSector, InfoSector, FirstFatSector, FatSector, Zeros;
    vol.disk := vol.disk[0 := BootSector(totalSectors, fatSize)];
    vol.disk := vol.disk[1 := InfoSector()];
    WriteTables(vol, fatSize);
    var begin := 32 + 2 * fatSize as int;
    for i := 0 to 8
      invariant |vol.disk| == |old(vol.disk)|
      invariant vol.disk[0] == BootSector(totalSectors, fatSize) && vol.disk[1] == InfoSector()
      invariant forall l :: 32 <= l < 32 + 2 * fatSize as int ==> vol.disk[l] == FatSector(fatSize, l)
      invariant forall l :: begin <= l < begin + i ==> vol.disk[l] == Zeros(512)
    {
      vol.disk := vol.disk[begin + i := Zeros(512)];
    }
  }

  lemma MountedGeometry(totalSectors: u32)
    requires NumbersFit(totalSectors) && totalSectors < TWO32
    ensures var g := GeometryFor(totalSectors);
            && Wrap32(32 + 2 * g.fatSize) == g.clusterBegin
            && Wrap32(totalSectors - g.clusterBegin) / 8 == g.totalClusters
  {
  }
}
