/** The mounted volume: raw sectors, and the two arrays they encode.

    Sectors hold `numFats` copies of the file allocation table followed by the
    data clusters. `Refines` says which table (`fat`) and which cluster contents
    (`data`) a disk encodes; every access below is proved against those two. */
module Volume {
  import opened Bytes
  import opened Flatten
  import opened Arith

  const SECTOR_SIZE: nat := 512
  const FREE_CLUSTER: u32 := 0
  const BAD_CLUSTER: u32 := 0x0FFF_FFF7
  const EOC_MIN: u32 := 0x0FFF_FFF8
  const EOC_MAX: u32 := 0x0FFF_FFFF

  type Sector = s: seq<byte> | |s| == 512 witness Zeros(512)

  datatype Geometry = Geometry(
    fatBegin: nat, numFats: nat, fatSize: nat, clusterBegin: nat, spc: nat, totalClusters: nat)
  {
    function Bpc(): nat { spc * SECTOR_SIZE }

    predicate InRange(c: int) { 2 <= c < totalClusters + 2 }

    function FatLba(f: nat, i: nat): nat { fatBegin + f * fatSize + i }

    function ClusterLba(c: nat): nat
      requires 2 <= c
    {
      clusterBegin + (c - 2) * spc
    }

    /** The areas of the volume fit the disk and the table covers every cluster. */
    ghost predicate Sane(diskLength: nat) {
      && 1 <= fatBegin && 1 <= numFats && 1 <= spc <= 128
      && clusterBegin == fatBegin + numFats * fatSize
      && 1 <= totalClusters && totalClusters + 2 <= 128 * fatSize
      && totalClusters + 2 <= 0x0FFF_FFF7
      && clusterBegin + totalClusters * spc <= diskLength
    }
  }

  lemma FatLbaBounds(g: Geometry, f: nat, i: nat)
    requires f < g.numFats && i < g.fatSize && g.clusterBegin == g.fatBegin + g.numFats * g.fatSize
    ensures g.fatBegin <= g.FatLba(f, i) < g.clusterBegin
  {
    MulMono(0, f, g.fatSize);
    MulStep(f, g.numFats, g.fatSize);
  }

  lemma FatLbaInjective(g: Geometry, f: nat, i: nat, f': nat, i': nat)
    requires i < g.fatSize && i' < g.fatSize && g.FatLba(f, i) == g.FatLba(f', i')
    ensures f == f' && i == i'
  {
    BlockUnique(f, i, f', i', g.fatSize);
  }

  lemma ClusterLbaBounds(g: Geometry, n: nat, c: nat)
    requires g.Sane(n) && g.InRange(c)
    ensures g.clusterBegin <= g.ClusterLba(c) && g.ClusterLba(c) + g.spc <= n
  {
    MulMono(0, c - 2, g.spc);
    MulStep(c - 2, g.totalClusters, g.spc);
  }

  lemma ClusterLbaDisjoint(g: Geometry, c: nat, c': nat)
    requires 2 <= c && 2 <= c' && c != c'
    ensures g.ClusterLba(c) + g.spc <= g.ClusterLba(c') || g.ClusterLba(c') + g.spc <= g.ClusterLba(c)
  {
    if c < c' { MulStep(c - 2, c' - 2, g.spc); } else { MulStep(c' - 2, c - 2, g.spc); }
  }

  /** Entry `c` of the first table copy: 28 significant bits. */
  function FatEntry(disk: seq<Sector>, g: Geometry, c: nat): (v: u32)
    requires g.fatBegin + c / 128 < |disk|
  {
    Load32(disk[g.fatBegin + c / 128], 4 * (c % 128)) % 0x1000_0000
  }

  function ClusterBytes(disk: seq<Sector>, g: Geometry, c: nat): seq<byte>
    requires 2 <= c && g.ClusterLba(c) + g.spc <= |disk|
  {
    Flat(disk[g.ClusterLba(c)..g.ClusterLba(c) + g.spc])
  }

  ghost predicate FatRefines(disk: seq<Sector>, g: Geometry, fat: seq<int>) {
    && |fat| == g.totalClusters + 2
    && forall c :: 0 <= c < |fat| ==> g.fatBegin + c / 128 < |disk| && fat[c] == FatEntry(disk, g, c)
  }

  ghost predicate DataRefines(disk: seq<Sector>, g: Geometry, data: seq<seq<byte>>) {
    && |data| == g.totalClusters + 2
    && forall c :: 2 <= c < |data| ==>
         g.ClusterLba(c) + g.spc <= |disk| && data[c] == ClusterBytes(disk, g, c)
  }

  /** Every table copy equals the first. */
  ghost predicate Mirrored(disk: seq<Sector>, g: Geometry)
    requires g.Sane(|disk|)
  {
    forall f: nat, i: nat :: f < g.numFats && i < g.fatSize ==> SameInCopy(disk, g, f, i)
  }

  /** Sector `i` of copy `f` is that of the first copy. */
  ghost predicate SameInCopy(disk: seq<Sector>, g: Geometry, f: nat, i: nat) {
    g.FatLba(f, i) < |disk| && g.fatBegin + i < |disk| && disk[g.FatLba(f, i)] == disk[g.fatBegin + i]
  }

  ghost predicate Refines(disk: seq<Sector>, g: Geometry, fat: seq<int>, data: seq<seq<byte>>) {
    && g.Sane(|disk|)
    && Mirrored(disk, g)
    && FatRefines(disk, g, fat)
    && DataRefines(disk, g, data)
  }

  /** A change below `clusterBegin` leaves every cluster's bytes alone. */
  lemma DataFrame(disk: seq<Sector>, disk': seq<Sector>, g: Geometry, data: seq<seq<byte>>)
    requires g.Sane(|disk|) && |disk'| == |disk| && DataRefines(disk, g, data)
    requires forall l :: g.clusterBegin <= l < |disk| ==> disk'[l] == disk[l]
    ensures DataRefines(disk', g, data)
  {
    forall c | 2 <= c < |data| ensures data[c] == ClusterBytes(disk', g, c) {
      var l := g.ClusterLba(c);
      ClusterLbaBounds(g, |disk|, c);
      assert disk'[l..l + g.spc] == disk[l..l + g.spc];
    }
  }

  /** The disk after patching table entry `c` in the first `n` copies. */
  ghost predicate Patched(disk: seq<Sector>, disk': seq<Sector>, g: Geometry, c: nat, v: u32, n: nat)
    requires g.Sane(|disk|) && g.InRange(c)
  {
    && |disk'| == |disk|
    && c / 128 < g.fatSize && n <= g.numFats
    && (forall f: nat :: f < n ==>
          && g.FatLba(f, c / 128) < |disk| && g.fatBegin + c / 128 < |disk|
          && disk'[g.FatLba(f, c / 128)] == Store32(disk[g.fatBegin + c / 128], 4 * (c % 128), v))
    && (forall l :: 0 <= l < |disk| && (forall f: nat :: f < n ==> l != g.FatLba(f, c / 128)) ==> disk'[l] == disk[l])
  }

  lemma FatOffset(c: nat)
    ensures c * 4 / SECTOR_SIZE == c / 128 && c * 4 % SECTOR_SIZE == 4 * (c % 128) <= 508
  {
  }

  /** One more copy patched. */
  lemma PatchedStep(d0: seq<Sector>, d: seq<Sector>, g: Geometry, c: nat, v: u32, i: nat)
    requires g.Sane(|d0|) && Mirrored(d0, g) && g.InRange(c) && i < g.numFats && Patched(d0, d, g, c, v, i)
    ensures g.FatLba(i, c / 128) < |d|
    ensures Patched(d0, d[g.FatLba(i, c / 128) := Store32(d[g.FatLba(i, c / 128)], 4 * (c % 128), v)], g, c, v, i + 1)
  {
    var b := c / 128;
    FatLbaBounds(g, i, b);
    assert SameInCopy(d0, g, i, b);
    forall f: nat | f < i ensures g.FatLba(f, b) != g.FatLba(i, b) {
      if g.FatLba(f, b) == g.FatLba(i, b) { FatLbaInjective(g, f, b, i, b); }
    }
    hide Mirrored, Geometry.Sane, Geometry.FatLba, Store32;
  }

  /** The copies so far, on a disk whose copies agreed. */
  ghost predicate Patching(d0: seq<Sector>, d: seq<Sector>, g: Geometry, c: nat, v: u32, n: nat) {
    g.Sane(|d0|) && Mirrored(d0, g) && g.InRange(c) && Patched(d0, d, g, c, v, n)
  }

  lemma PatchedNone(d: seq<Sector>, g: Geometry, fat: seq<int>, data: seq<seq<byte>>, c: nat, v: u32)
    requires Refines(d, g, fat, data) && g.InRange(c)
    ensures Patching(d, d, g, c, v, 0)
  {
  }

  lemma PatchingStep(d0: seq<Sector>, d: seq<Sector>, g: Geometry, c: nat, v: u32, i: nat)
    requires Patching(d0, d, g, c, v, i) && i < g.numFats
    ensures var lba := g.fatBegin + i * g.fatSize + c / 128;
            lba < |d| && Patching(d0, d[lba := Store32(d[lba], 4 * (c % 128), v)], g, c, v, i + 1)
  {
    hide Patched, Store32, Mirrored, Geometry.Sane;
    PatchedStep(d0, d, g, c, v, i);
  }

  lemma PatchedSector(disk: seq<Sector>, disk': seq<Sector>, g: Geometry, c: nat, v: u32, f: nat, j: nat)
    requires g.Sane(|disk|) && Mirrored(disk, g) && g.InRange(c) && Patched(disk, disk', g, c, v, g.numFats)
    requires f < g.numFats && j < g.fatSize
    ensures g.FatLba(f, j) < |disk| && g.fatBegin + j < |disk|
    ensures disk'[g.FatLba(f, j)] ==
              if j == c / 128 then Store32(disk[g.fatBegin + j], 4 * (c % 128), v) else disk[g.fatBegin + j]
  {
    hide Geometry.FatLba, Store32;
    FatLbaBounds(g, f, j);
    assert SameInCopy(disk, g, f, j);
    if j != c / 128 {
      forall f': nat | f' < g.numFats ensures g.FatLba(f, j) != g.FatLba(f', c / 128) {
        if g.FatLba(f, j) == g.FatLba(f', c / 128) { FatLbaInjective(g, f, j, f', c / 128); }
      }
    }
  }

  lemma PatchedMirrored(disk: seq<Sector>, disk': seq<Sector>, g: Geometry, c: nat, v: u32)
    requires g.Sane(|disk|) && Mirrored(disk, g) && g.InRange(c) && Patched(disk, disk', g, c, v, g.numFats)
    ensures Mirrored(disk', g)
  {
    hide Patched, SameInCopy, Geometry.Sane;
    forall f: nat, j: nat | f < g.numFats && j < g.fatSize
      ensures SameInCopy(disk', g, f, j)
    {
      PatchedCopies(disk, disk', g, c, v, f, j);
    }
    PatchedLength(disk, disk', g, c, v);
  }

  lemma PatchedLength(disk: seq<Sector>, disk': seq<Sector>, g: Geometry, c: nat, v: u32)
    requires g.Sane(|disk|) && g.InRange(c) && Patched(disk, disk', g, c, v, g.numFats)
    ensures |disk'| == |disk|
  {
  }

  lemma PatchedCopies(disk: seq<Sector>, disk': seq<Sector>, g: Geometry, c: nat, v: u32, f: nat, j: nat)
    requires g.Sane(|disk|) && Mirrored(disk, g) && g.InRange(c) && Patched(disk, disk', g, c, v, g.numFats)
    requires f < g.numFats && j < g.fatSize
    ensures SameInCopy(disk', g, f, j)
  {
    hide Patched, Geometry.FatLba, Mirrored, Store32;
    PatchedLength(disk, disk', g, c, v);
    PatchedSector(disk, disk', g, c, v, f, j);
    PatchedSector(disk, disk', g, c, v, 0, j);
    FirstCopy(g, j);
  }

  lemma FirstCopy(g: Geometry, j: nat)
    ensures g.FatLba(0, j) == g.fatBegin + j
  {
  }

  lemma PatchedEntry(disk: seq<Sector>, disk': seq<Sector>, g: Geometry, c: nat, v: u32, x: nat)
    requires g.Sane(|disk|) && Mirrored(disk, g) && g.InRange(c) && Patched(disk, disk', g, c, v, g.numFats)
    requires x < g.totalClusters + 2 && v < 0x1000_0000
    ensures g.fatBegin + x / 128 < |disk|
    ensures FatEntry(disk', g, x) == if x == c then v else FatEntry(disk, g, x)
  {
    hide Geometry.Sane, Mirrored, Patched, Geometry.FatLba, Store32, Load32;
    InFirstCopy(g, |disk|, x);
    PatchedSector(disk, disk', g, c, v, 0, x / 128);
    PatchedLength(disk, disk', g, c, v);
    if x / 128 == c / 128 {
      assert x != c ==> x % 128 != c % 128;
      LoadStore(disk[g.fatBegin + c / 128], 4 * (c % 128), v, 4 * (x % 128));
    }
  }

  lemma InFirstCopy(g: Geometry, n: nat, x: nat)
    requires g.Sane(n) && x < g.totalClusters + 2
    ensures x / 128 < g.fatSize && 0 < g.numFats && g.FatLba(0, x / 128) == g.fatBegin + x / 128
  {
  }

  /** All 32 bits of entry `x` in copy `f`. */
  ghost function RawEntry(disk: seq<Sector>, g: Geometry, f: nat, x: nat): int {
    if g.FatLba(f, x / 128) < |disk| then Load32(disk[g.FatLba(f, x / 128)], 4 * (x % 128)) else -1
  }

  /** In every copy, entry `c` is now exactly `v` and every other entry has all the bits it had. */
  ghost predicate RawWritten(d0: seq<Sector>, d: seq<Sector>, g: Geometry, c: nat, v: u32) {
    forall f: nat, x: nat :: f < g.numFats && x < g.totalClusters + 2 ==>
      RawEntry(d, g, f, x) == if x == c then v else RawEntry(d0, g, f, x)
  }

  /** The four bits that are reserved in entry `c` of copy `f` are what they were. */
  ghost predicate SameTop(d0: seq<Sector>, d: seq<Sector>, g: Geometry, f: nat, c: nat) {
    RawEntry(d, g, f, c) / 0x1000_0000 == RawEntry(d0, g, f, c) / 0x1000_0000
  }

  lemma RawPatched(d0: seq<Sector>, d: seq<Sector>, g: Geometry, c: nat, v: u32)
    requires Patching(d0, d, g, c, v, g.numFats)
    ensures RawWritten(d0, d, g, c, v)
    ensures forall f: nat :: f < g.numFats ==> RawEntry(d0, g, f, c) >= 0
  {
    hide Patched, Store32, Load32, Geometry.FatLba, Mirrored;
    forall f: nat, x: nat | f < g.numFats && x < g.totalClusters + 2
      ensures RawEntry(d0, g, f, x) >= 0 && RawEntry(d, g, f, x) == if x == c then v else RawEntry(d0, g, f, x)
    {
      RawPatchedAt(d0, d, g, c, v, f, x);
    }
  }

  lemma RawPatchedAt(d0: seq<Sector>, d: seq<Sector>, g: Geometry, c: nat, v: u32, f: nat, x: nat)
    requires Patching(d0, d, g, c, v, g.numFats) && f < g.numFats && x < g.totalClusters + 2
    ensures RawEntry(d0, g, f, x) >= 0 && RawEntry(d, g, f, x) == if x == c then v else RawEntry(d0, g, f, x)
  {
    hide Patched, Store32, Load32, Geometry.FatLba, Geometry.Sane;
    InFirstCopy(g, |d0|, x);
    assert SameInCopy(d0, g, f, x / 128);
    PatchedSector(d0, d, g, c, v, f, x / 128);
    PatchedLength(d0, d, g, c, v);
    if x / 128 == c / 128 {
      assert x != c ==> x % 128 != c % 128;
      LoadStore(d0[g.fatBegin + c / 128], 4 * (c % 128), v, 4 * (x % 128));
    }
  }

  /** The reserved bits survive a write exactly where they were clear. */
  lemma TopBitsKept(d0: seq<Sector>, d: seq<Sector>, g: Geometry, c: nat, v: u32, f: nat)
    requires RawWritten(d0, d, g, c, v) && v < 0x1000_0000 && g.InRange(c) && f < g.numFats
    requires RawEntry(d0, g, f, c) >= 0
    ensures SameTop(d0, d, g, f, c) <==> RawEntry(d0, g, f, c) < 0x1000_0000
  {
    hide RawEntry;
    assert RawEntry(d, g, f, c) == v;
  }

  /** An entry with a reserved bit set, marked as the end of a chain, loses the bit. */
  lemma TopBitLost(d0: seq<Sector>, d: seq<Sector>, g: Geometry, c: nat, f: nat)
    requires RawWritten(d0, d, g, c, 0x0FFF_FFFF) && g.InRange(c) && f < g.numFats
    requires RawEntry(d0, g, f, c) == 0x8000_0000
    ensures RawEntry(d, g, f, c) == 0x0FFF_FFFF && !SameTop(d0, d, g, f, c)
  {
    hide RawEntry;
    TopBitsKept(d0, d, g, c, 0x0FFF_FFFF, f);
  }

  lemma PatchedRefines(disk: seq<Sector>, disk': seq<Sector>, g: Geometry, fat: seq<int>, data: seq<seq<byte>>, c: nat,
                       v: u32)
    requires Refines(disk, g, fat, data) && g.InRange(c) && v < 0x1000_0000
    requires Patched(disk, disk', g, c, v, g.numFats)
    ensures Refines(disk', g, fat[c := v], data)
  {
    forall l | g.clusterBegin <= l < |disk| ensures disk'[l] == disk[l] {
      forall f: nat | f < g.numFats ensures l != g.FatLba(f, c / 128) { FatLbaBounds(g, f, c / 128); }
    }
    DataFrame(disk, disk', g, data);
    PatchedMirrored(disk, disk', g, c, v);
    forall x | 0 <= x < |fat| ensures g.fatBegin + x / 128 < |disk'| && fat[c := v][x] == FatEntry(disk', g, x) {
      PatchedEntry(disk, disk', g, c, v, x);
    }
  }

  /** Replacing the sectors of one cluster. */
  lemma ClusterWritten(disk: seq<Sector>, disk': seq<Sector>, g: Geometry, fat: seq<int>, data: seq<seq<byte>>, c: nat,
                       buf: seq<byte>)
    requires Refines(disk, g, fat, data) && g.InRange(c) && |disk'| == |disk|
    requires g.ClusterLba(c) + g.spc <= |disk|
    requires ClusterBytes(disk', g, c) == buf
    requires forall l :: 0 <= l < |disk| && !(g.ClusterLba(c) <= l < g.ClusterLba(c) + g.spc) ==> disk'[l] == disk[l]
    ensures Refines(disk', g, fat, data[c := buf])
  {
    ClusterLbaBounds(g, |disk|, c);
    forall f: nat, j: nat | f < g.numFats && j < g.fatSize
      ensures SameInCopy(disk', g, f, j)
    {
      FatLbaBounds(g, f, j);
      assert SameInCopy(disk, g, f, j);
      FatLbaBounds(g, 0, j);
      assert g.FatLba(0, j) == g.fatBegin + j;
    }
    forall x | 0 <= x < |fat| ensures g.fatBegin + x / 128 < |disk'| && fat[x] == FatEntry(disk', g, x) {
      FatLbaBounds(g, 0, x / 128);
      assert g.FatLba(0, x / 128) == g.fatBegin + x / 128;
    }
    forall x | 2 <= x < |data|
      ensures g.ClusterLba(x) + g.spc <= |disk'| && data[c := buf][x] == ClusterBytes(disk', g, x)
    {
      if x != c {
        var l := g.ClusterLba(x);
        ClusterLbaBounds(g, |disk|, x);
        ClusterLbaDisjoint(g, c, x);
        assert disk'[l..l + g.spc] == disk[l..l + g.spc];
      }
    }
  }

  /** The globals of the driver: the device, the mounted geometry, the FSInfo
      hint, and (ghost) what the sectors mean and which chain owns which cluster. */
  class Vol {
    var disk: seq<Sector>
    var geo: Geometry
    var nextFree: u32
    var root: u32
    ghost var fat: seq<int>
    ghost var data: seq<seq<byte>>
    ghost var own: map<int, seq<int>>
    ghost var owner: seq<int>
    ghost var lost: set<int>

    ghost predicate Valid()
      reads this
    {
      && Refines(disk, geo, fat, data)
      && (forall c :: 0 <= c < |fat| ==> 0 <= fat[c] < 0x1000_0000)
      && |fat| == |data| == geo.totalClusters + 2 && 3 <= |fat| <= BAD_CLUSTER && 1 <= geo.spc <= 128
      && (forall c :: 2 <= c < |data| ==> |data[c]| == geo.Bpc())
    }

    method ReadFat(c: u32) returns (v: u32)
      requires Valid()
      ensures v == if geo.InRange(c) then fat[c] else 0x0FFF_FFF7
    {
      if c < 2 || c >= geo.totalClusters + 2 { return BAD_CLUSTER; }
      FatOffset(c);
      var sector := disk[geo.fatBegin + c * 4 / SECTOR_SIZE];
      v := Load32(sector, c * 4 % SECTOR_SIZE) % 0x1000_0000;
    }

    method WriteFat(c: u32, v: u32) returns (r: int)
      requires Valid()
      modifies this`disk, this`fat
      ensures Valid()
      ensures r == 0 <==> geo.InRange(c)
      ensures fat == if geo.InRange(c) then old(fat)[c := v % 0x1000_0000] else old(fat)
      ensures r == 0 ==> RawWritten(old(disk), disk, geo, c, v % 0x1000_0000)
      ensures r == 0 ==> forall f: nat :: f < geo.numFats ==>
                (SameTop(old(disk), disk, geo, f, c) <==> RawEntry(old(disk), geo, f, c) < 0x1000_0000)
    {
      hide RawEntry, SameTop, Refines, Geometry.Sane, Geometry.FatLba, Patched, Store32;
      if c < 2 || c >= geo.totalClusters + 2 { return -1; }
      var value := v % 0x1000_0000;
      FatOffset(c);
      ghost var d0 := disk;
      PatchedNone(d0, geo, fat, data, c, value);
      for i := 0 to geo.numFats
        invariant fat == old(fat) && Patching(d0, disk, geo, c, value, i)
      {
        PatchingStep(d0, disk, geo, c, value, i);
        var lba := geo.fatBegin + i * geo.fatSize + c * 4 / SECTOR_SIZE;
        var sector := disk[lba];
        disk := disk[lba := Store32(sector, c * 4 % SECTOR_SIZE, value)];
      }
      PatchedRefines(d0, disk, geo, fat, data, c, value);
      RawPatched(d0, disk, geo, c, value);
      forall f: nat | f < geo.numFats
        ensures SameTop(d0, disk, geo, f, c) <==> RawEntry(d0, geo, f, c) < 0x1000_0000
      {
        TopBitsKept(d0, disk, geo, c, value, f);
      }
      fat := fat[c := value];
      r := 0;
    }

    method ReadCluster(c: u32) returns (r: int, buf: seq<byte>)
      requires Valid()
      ensures r == 0 <==> geo.InRange(c)
      ensures r == 0 ==> buf == data[c]
    {
      hide Refines, Geometry.Sane, Geometry.ClusterLba, Flat;
      if c < 2 || c >= geo.totalClusters + 2 { return -1, []; }
      ClusterPlace(disk, geo, fat, data, c);
      FlatNone<byte>();
      var lba := geo.clusterBegin + (c - 2) * geo.spc;
      buf := [];
      assert disk[lba..lba] == [];
      for i := 0 to geo.spc
        invariant buf == Flat(disk[lba..lba + i])
      {
        assert disk[lba..lba + i + 1] == disk[lba..lba + i] + [disk[lba + i]];
        FlatSnoc(disk[lba..lba + i], disk[lba + i]);
        buf := buf + disk[lba + i];
      }
      r := 0;
    }

    method WriteCluster(c: u32, buf: seq<byte>) returns (r: int)
      requires Valid() && |buf| == geo.Bpc()
      modifies this`disk, this`data
      ensures Valid()
      ensures r == 0 <==> geo.InRange(c)
      ensures data == if geo.InRange(c) then old(data)[c := buf] else old(data)
    {
      hide Refines, Geometry.Sane, Geometry.ClusterLba, Overlaid;
      if c < 2 || c >= geo.totalClusters + 2 { return -1; }
      ClusterPlace(disk, geo, fat, data, c);
      var lba := geo.clusterBegin + (c - 2) * geo.spc;
      ghost var d0 := disk;
      OverlaidNone(d0, lba, buf);
      for i := 0 to geo.spc
        invariant data == old(data) && |disk| == |d0| && Overlaid(d0, disk, lba, buf, i)
      {
        OverlaidNext(d0, disk, lba, buf, i);
        disk := disk[lba + i := buf[512 * i..512 * i + 512]];
      }
      OverlaidAll(d0, disk, geo, fat, data, c, buf);
      data := data[c := buf];
      r := 0;
    }
  }

  /** Where a cluster's sectors are. */
  lemma ClusterPlace(disk: seq<Sector>, g: Geometry, fat: seq<int>, data: seq<seq<byte>>, c: nat)
    requires Refines(disk, g, fat, data) && g.InRange(c)
    ensures g.ClusterLba(c) == g.clusterBegin + (c - 2) * g.spc
    ensures 0 <= g.ClusterLba(c) && g.ClusterLba(c) + g.spc <= |disk|
    ensures c < |data| && data[c] == Flat(disk[g.ClusterLba(c)..g.ClusterLba(c) + g.spc])
  {
    hide Mirrored, FatRefines;
    ClusterLbaBounds(g, |disk|, c);
  }

  /** The first `n` sectors of `buf` have been written from sector `lba` on. */
  ghost predicate Overlaid(d0: seq<Sector>, d: seq<Sector>, lba: nat, buf: seq<byte>, n: nat) {
    && |d| == |d0| && lba + n <= |d| && 512 * n <= |buf|
    && (forall l :: 0 <= l < |d0| && !(lba <= l < lba + n) ==> d[l] == d0[l])
    && Flat(d[lba..lba + n]) == buf[..512 * n]
  }

  lemma OverlaidNone(d: seq<Sector>, lba: nat, buf: seq<byte>)
    requires lba <= |d|
    ensures Overlaid(d, d, lba, buf, 0)
  {
  }

  lemma OverlaidNext(d0: seq<Sector>, d: seq<Sector>, lba: nat, buf: seq<byte>, n: nat)
    requires Overlaid(d0, d, lba, buf, n) && lba + n < |d| && 512 * n + 512 <= |buf|
    ensures Overlaid(d0, d[lba + n := buf[512 * n..512 * n + 512]], lba, buf, n + 1)
  {
    hide Flat;
    var sector := buf[512 * n..512 * n + 512];
    var d' := d[lba + n := sector];
    assert d'[lba..lba + n + 1] == d[lba..lba + n] + [sector];
    FlatSnoc(d[lba..lba + n], sector);
    assert buf[..512 * n] + sector == buf[..512 * (n + 1)];
  }

  lemma OverlaidAll(d0: seq<Sector>, d: seq<Sector>, g: Geometry, fat: seq<int>, data: seq<seq<byte>>, c: nat,
                    buf: seq<byte>)
    requires Refines(d0, g, fat, data) && g.InRange(c) && |buf| == g.Bpc()
    requires 0 <= g.ClusterLba(c) && Overlaid(d0, d, g.ClusterLba(c), buf, g.spc)
    ensures Refines(d, g, fat, data[c := buf])
  {
    hide Refines, Flat, Geometry.ClusterLba, Geometry.Sane;
    assert buf[..512 * g.spc] == buf;
    ClusterWritten(d0, d, g, fat, data, c, buf);
  }
}
