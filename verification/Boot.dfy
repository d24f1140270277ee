/** Start-up: a formatted volume, an empty handle table, and what the invariant of every
    later run says in terms of the table on disk. */
module Boot {
  import opened Bytes
  import opened Volume
  import opened Chains
  import opened ClusterOps
  import opened Contents
  import opened Catalog
  import opened FileIo
  import opened FileSystem
  import opened ObjectStore
  import opened Directory
  import opened Syscalls
  import opened Format
  import opened Paths

  method NewTable() returns (table: seq<File>)
    ensures |table| == MAX_FILES
    ensures forall a :: 0 <= a < MAX_FILES ==> fresh(table[a]) && !table[a].isOpen
    ensures forall a, b :: 0 <= a < b < MAX_FILES ==> table[a] != table[b]
  {
    table := [];
    for i := 0 to MAX_FILES
      invariant |table| == i
      invariant forall a :: 0 <= a < i ==> fresh(table[a]) && !table[a].isOpen
      invariant forall a, b :: 0 <= a < b < i ==> table[a] != table[b]
    {
      var f := new File();
      table := table + [f];
    }
  }

  /** Formatting and mounting any large enough disk establishes the invariants that every system call
      keeps: those of the files, of the descriptors and of the path. */
  method Start(vol: Vol, totalSectors: u32) returns (k: Kernel, c: Cwd)
    requires NumbersFit(totalSectors) && totalSectors <= |vol.disk|
    modifies vol
    ensures fresh(k) && fresh(c) && Settled(k, c) && c.OnTrack() && c.stack == []
    ensures k.fs.vol == vol && k.fs.open == {} && k.fs.refs == map[] && vol.lost == {}
    ensures k.fs.dirs == {2} && k.fs.curDir == vol.root == 2
    ensures vol.geo == GeometryFor(totalSectors)
    ensures forall n :: IsFree(vol.fat, n) <==> 3 <= n < vol.geo.totalClusters + 2
  {
    hide Sound, Body, Fs.Inv, GeometryFor, NumbersFit, Volume.Geometry.Bpc, Objects, Consistent;
    var _ := FormatDisk(vol, totalSectors);
    assert vol.geo.Bpc() % 32 == 0 && 0 <= vol.geo.Bpc() by { VolShape(vol); }
    ObjectsAre(vol);
    EmptyConsistent(Objects(vol.data, vol.own), vol.geo.Bpc());
    var fs := new Fs(vol, {2}, map[]);
    var table := NewTable();
    k := new Kernel(fs, table);
    c := new Cwd(fs);
  }

  /** The invariant, cluster by cluster: the chain behind a live slot is linked in the table,
      stays in range, ends in an end-of-chain mark, never repeats a cluster, holds no free
      one, shares none with another slot's chain, and is long enough for the recorded size. */
  lemma InvariantMeans(fs: Fs, id: SlotId, id': SlotId, i: nat, j: nat)
    requires fs.Inv() && id in fs.refs && id' in fs.refs && fs.refs[id].first != 0 && fs.refs[id'].first != 0
    ensures fs.refs[id].first in fs.vol.own && fs.refs[id'].first in fs.vol.own
    ensures var s, s', fat := fs.vol.own[fs.refs[id].first], fs.vol.own[fs.refs[id'].first], fs.vol.fat;
            && IsChain(fat, s) && s[0] == fs.refs[id].first && fs.refs[id].size <= |s| * fs.vol.geo.Bpc()
            && (i < |s| ==> 2 <= s[i] < fs.vol.geo.totalClusters + 2 && fat[s[i]] != FREE_CLUSTER)
            && (i < |s| && j < |s'| && s[i] == s'[j] ==> id == id' && i == j)
  {
    hide Volume.Refines, Body, Objects;
    EntryFacts(fs, id);
    EntryFacts(fs, id');
    ObjectsAre(fs.vol);
    VolShape(fs.vol);
    var h, h' := fs.refs[id].first, fs.refs[id'].first;
    OwnedChain(fs.vol, h);
    BodyLength(fs.vol.data, fs.vol.own[h], fs.vol.geo.Bpc());
    if i < |fs.vol.own[h]| && j < |fs.vol.own[h']| {
      OwnedDisjoint(fs.vol.fat, fs.vol.own, fs.vol.owner, h, h', i, j);
    }
    if i < |fs.vol.own[h]| { OwnedDisjoint(fs.vol.fat, fs.vol.own, fs.vol.owner, h, h, i, i); }
  }
}
