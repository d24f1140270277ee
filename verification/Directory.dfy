/** Scanning and extending directories on the volume. */
module Directory {
  import opened Bytes
  import opened Volume
  import opened Chains
  import opened Contents
  import opened ClusterOps
  import opened FileIo
  import opened Names
  import opened Slots

  /** Slot `k` of the directory on chain `s` is at byte `offset` of `cluster`. */
  ghost predicate Located(s: Chain, w: nat, k: int, cluster: int, offset: int) {
    exists i :: 0 <= i < |s| && s[i] == cluster && At(32 * k, i, offset, w)
  }

  /** Reads slot `j` of the cluster whose first slot is number `base`. */
  lemma SlotInCluster(data: seq<seq<byte>>, s: Chain, w: nat, base: nat, i: int, j: nat)
    requires InData(data, s) && Sized(data, w) && 0 <= i < |s| && At(32 * base, i, 0, w) && 32 * j + 32 <= w
    ensures base + j < Count(Body(data, s))
    ensures |data[s[i]]| == w && SlotAt(Body(data, s), base + j) == data[s[i]][32 * j..32 * j + 32]
    ensures At(32 * (base + j), i, 32 * j, w)
  {
    AtRead(data, s, w, 32 * base + 32 * j, i, 32 * j, 32);
  }

  /** The scan of a directory, or of whatever else cluster `dir` starts: `s` is the trail it follows. */
  method FindEntry(vol: Vol, dir: u32, name: seq<byte>, ghost s: Chain)
    returns (r: int, slot: Slot, cluster: u32, offset: u32, ghost k: int)
    requires vol.Valid() && Small(vol.fat) && IsTrail(vol.fat, s, dir)
    ensures InData(vol.data, s) && k == Find(Body(vol.data, s), ShortName(name))
    ensures r == 0 <==> k >= 0
    ensures r == 0 ==> 0 <= k < Count(Body(vol.data, s)) && slot == SlotAt(Body(vol.data, s), k)
    ensures r == 0 ==> Located(s, vol.geo.Bpc(), k, cluster, offset) && vol.geo.InRange(cluster)
    ensures r == 0 ==> offset + 32 <= vol.geo.Bpc()
  {
    hide Volume.Refines, Contents.Body, Contents.At, Chains.IsTrail, Names.ShortName, SlotAt;
    slot, cluster, offset := Zeros(32), 0, 0;
    TrailInData(vol, s, dir);
    var nm := ToShortName(name);
    var c, bpc := dir, vol.geo.Bpc();
    ghost var body := Body(vol.data, s);
    var count := bpc / 32;
    ghost var i, base := 0, 0;
    AtZero(bpc);
    while c >= 2 && c < EOC_MIN && c < vol.geo.totalClusters + 2
      invariant 0 <= i <= |s| && 0 <= base
      invariant i < |s| ==> c == s[i] && vol.geo.InRange(c)
      invariant i == |s| ==> !InTable(vol.fat, c)
      invariant At(32 * base, i, 0, bpc)
      invariant FindFrom(body, nm, base) == Find(body, nm)
      decreases |s| - i
    {
      var _, buf := vol.ReadCluster(c);
      for j := 0 to count
        invariant FindFrom(body, nm, base + j) == Find(body, nm)
      {
        SlotInCluster(vol.data, s, bpc, base, i, j);
        var entry: Slot := buf[32 * j..32 * j + 32];
        k := base + j;
        if entry[0] == 0 { return -1, slot, cluster, offset, -1; }
        if entry[0] != DELETED && entry[11] != ATTR_LFN && entry[..11] == nm {
          return 0, entry, c, 32 * j, k;
        }
      }
      AtNext(32 * base, i, 0, bpc);
      base := base + count;
      TrailNext(vol.fat, s, dir, i);
      c := vol.ReadFat(c);
      i := i + 1;
    }
    AtBody(vol.data, s, bpc, 32 * base, i, 0);
    return -1, slot, cluster, offset, -1;
  }

  lemma TrailNext(fat: seq<int>, s: Chain, c: int, i: nat)
    requires IsTrail(fat, s, c) && i < |s|
    ensures InTable(fat, s[i])
    ensures if i + 1 < |s| then fat[s[i]] == s[i + 1] && InTable(fat, s[i + 1]) else !InTable(fat, fat[s[i]])
  {
  }

  lemma TrailInData(vol: Vol, s: Chain, c: int)
    requires vol.Valid() && Small(vol.fat) && IsTrail(vol.fat, s, c)
    ensures InData(vol.data, s) && Sized(vol.data, vol.geo.Bpc()) && 0 < vol.geo.Bpc() && vol.geo.Bpc() % 32 == 0
    ensures |vol.fat| == vol.geo.totalClusters + 2
    ensures if |s| == 0 then !InTable(vol.fat, c) else s[0] == c && InTable(vol.fat, c)
  {
    hide Volume.Refines;
  }

  lemma AtZero(w: nat)
    requires 0 < w
    ensures At(0, 0, 0, w)
  {
  }

  /** Storing a slot into its cluster stores it into the directory. */
  lemma PutInCluster(data: seq<seq<byte>>, s: Chain, w: nat, k: nat, i: int, offset: nat, slot: Slot)
    requires InData(data, s) && Sized(data, w) && Distinct(s)
    requires 0 <= i < |s| && At(32 * k, i, offset, w) && offset + 32 <= w
    ensures k < Count(Body(data, s)) && |data[s[i]]| == w
    ensures var data' := data[s[i] := Splice(data[s[i]], offset, slot)];
            InData(data', s) && Body(data', s) == PutSlot(Body(data, s), k, slot) && SameOutside(data, data', s)
  {
    BodyWrite(data, s, w, i, offset, slot);
  }

  /** Appends a zeroed cluster to directory `dir`. */
  method GrowDirectory(vol: Vol, ghost dir: int, tail: u32) returns (c: u32)
    requires Sound(vol) && dir in vol.own && tail == vol.own[dir][|vol.own[dir]| - 1]
    modifies vol`disk, vol`fat, vol`nextFree, vol`own, vol`owner, vol`data
    ensures Sound(vol)
    ensures c == 0 <==> FreeSet(old(vol.fat)) == {}
    ensures c == 0 ==> vol.fat == old(vol.fat) && vol.own == old(vol.own) && vol.data == old(vol.data)
    ensures c != 0 ==> Grown(old(vol.fat), old(vol.own), old(vol.own)[dir], vol.fat, vol.own, dir)
    ensures dir in vol.own
    ensures c != 0 ==> vol.own[dir] == old(vol.own)[dir] + [c] && vol.geo.InRange(c)
    ensures c != 0 ==> SameOutside(old(vol.data), vol.data, vol.own[dir])
    ensures c != 0 ==> InData(old(vol.data), old(vol.own)[dir]) && InData(vol.data, vol.own[dir])
    ensures c != 0 ==> Body(vol.data, vol.own[dir]) == Body(old(vol.data), old(vol.own)[dir]) + Zeros(vol.geo.Bpc())
  {
    hide Volume.Refines, Contents.Body, Volume.Geometry.Bpc;
    ghost var s := vol.own[dir];
    GrownSame(vol.fat, vol.own, dir);
    c := Append(vol, dir, tail);
    if c != 0 {
      GrownAppend(old(vol.fat), old(vol.own), s, old(vol.fat), old(vol.own), old(vol.owner), dir, c);
      var _ := vol.WriteCluster(c, Zeros(vol.geo.Bpc()));
      GrowBody(old(vol.data), s, c, Zeros(vol.geo.Bpc()));
    }
  }

  lemma GrowBody(data: seq<seq<byte>>, s: Chain, c: int, block: seq<byte>)
    requires InData(data, s) && 2 <= c < |data| && c !in s
    ensures var data' := data[c := block];
            InData(data', s + [c]) && Body(data', s + [c]) == Body(data, s) + block && SameOutside(data, data', s + [c])
  {
    var data' := data[c := block];
    BodyFrame(data, data', s);
    BodySnoc(data', s, c);
    assert (s + [c])[|s|] == c;
  }

  /** The first reusable slot of one cluster of a directory, or `bpc / 32`. */
  method ScanCluster(vol: Vol, c: u32, ghost s: Chain, ghost i: nat, ghost base: nat) returns (j: nat, buf: seq<byte>)
    requires vol.Valid() && InData(vol.data, s) && i < |s| && c == s[i] && At(32 * base, i, 0, vol.geo.Bpc())
    ensures vol.geo.InRange(c) && buf == vol.data[c] && |buf| == vol.geo.Bpc()
    ensures 32 * j <= vol.geo.Bpc()
    ensures VacantFrom(Body(vol.data, s), base + j) == VacantFrom(Body(vol.data, s), base)
    ensures 32 * j < vol.geo.Bpc() ==> 32 * j + 32 <= vol.geo.Bpc() && At(32 * (base + j), i, 32 * j, vol.geo.Bpc())
    ensures 32 * j < vol.geo.Bpc() ==>
              base + j < Count(Body(vol.data, s)) && Vacant(SlotAt(Body(vol.data, s), base + j))
    ensures 32 * j < vol.geo.Bpc() ==> VacantFrom(Body(vol.data, s), base + j) == base + j
  {
    hide Volume.Refines, Contents.Body, Contents.At;
    var bpc := vol.geo.Bpc();
    var _, b := vol.ReadCluster(c);
    buf := b;
    j := 0;
    while j < bpc / 32
      invariant 0 <= j <= bpc / 32
      invariant VacantFrom(Body(vol.data, s), base + j) == VacantFrom(Body(vol.data, s), base)
    {
      SlotInCluster(vol.data, s, bpc, base, i, j);
      var entry: Slot := buf[32 * j..32 * j + 32];
      if entry[0] == 0 || entry[0] == DELETED { return; }
      j := j + 1;
    }
  }

  /** What a successful `CreateEntry` did to directory `dir`. */
  ghost predicate Entered(data0: seq<seq<byte>>, s0: Chain, data: seq<seq<byte>>, s: Chain, w: nat, slot: Slot) {
    && InData(data0, s0) && InData(data, s) && SameOutside(data0, data, s)
    && var b := Roomy(Body(data0, s0), w);
       VacantFrom(b, 0) < Count(b) && Body(data, s) == PutSlot(b, VacantFrom(b, 0), slot)
  }

  ghost predicate Full(data: seq<seq<byte>>, s: Chain) {
    InData(data, s) && VacantFrom(Body(data, s), 0) == Count(Body(data, s))
  }

  method CreateEntry(vol: Vol, dir: u32, name: seq<byte>, attr: byte, first: u32) returns (r: int)
    requires Sound(vol) && dir in vol.own
    modifies vol`disk, vol`fat, vol`nextFree, vol`own, vol`owner, vol`data
    ensures Sound(vol)
    ensures r == 0 || r == -1
    ensures r == -1 <==> FreeSet(old(vol.fat)) == {} && Full(old(vol.data), old(vol.own)[dir])
    ensures r == -1 ==> vol.fat == old(vol.fat) && vol.own == old(vol.own) && vol.data == old(vol.data)
    ensures r == 0 ==> Grown(old(vol.fat), old(vol.own), old(vol.own)[dir], vol.fat, vol.own, dir) && dir in vol.own
    ensures r == 0 ==>
              Entered(old(vol.data), old(vol.own)[dir], vol.data, vol.own[dir], vol.geo.Bpc(),
                      MakeSlot(ShortName(name), attr, first))
  {
    hide Volume.Refines, Contents.Body, Contents.At, Names.ShortName, Grown, MakeSlot, Entered, Room, Full, PutSlot;
    hide Volume.Geometry.Bpc, Slots.Vacant, Sound, FreeSet, VacantFrom, IsTrail, Contents.Distinct;
    var nm := ToShortName(name);
    var slot := MakeSlot(nm, attr, first);
    var c, bpc := dir, vol.geo.Bpc();
    OwnedChain(vol, dir);
    ghost var s0, data0 := vol.own[dir], vol.data;
    GrownSame(vol.fat, vol.own, dir);
    RoomStart(data0, s0, bpc);
    AtZero(bpc);
    ghost var i, base, grown := 0, 0, false;
    while c >= 2 && c < EOC_MIN
      invariant Sound(vol) && dir in vol.own && Grown(old(vol.fat), old(vol.own), s0, vol.fat, vol.own, dir)
      invariant if grown then FreeSet(old(vol.fat)) != {} else vol.fat == old(vol.fat) && vol.own == old(vol.own)
      invariant 0 <= i < |vol.own[dir]| && 0 <= base && c == vol.own[dir][i] && 2 <= c < EOC_MIN
      invariant At(32 * base, i, 0, bpc)
      invariant Room(data0, s0, vol.data, vol.own[dir], bpc, base, grown)
      decreases !grown, |vol.own[dir]| - i
    {
      OwnedChain(vol, dir);
      SoundValid(vol);
      var j, buf := ScanCluster(vol, c, vol.own[dir], i, base);
      if 32 * j < bpc {
        EnteredHere(data0, s0, vol.data, vol.own[dir], bpc, base, j, i, grown, slot);
        r := StoreCluster(vol, c, Splice(buf, 32 * j, slot));
        return;
      }
      RoomNext(data0, s0, vol.data, vol.own[dir], bpc, base, j, grown);
      AtNext(32 * base, i, 0, bpc);
      base := base + j;
      RoomSame(data0, s0, vol.data, vol.own[dir], bpc, base);
      c := Onward(vol, dir, c, i, base);
      if c == 0 { return -1; }
      grown := i + 1 == |s0|;
      i := i + 1;
    }
  }

  /** The state of a scan that has reached slot `base`, before or after growing. */
  ghost predicate Room(data0: seq<seq<byte>>, s0: Chain, data: seq<seq<byte>>, s: Chain, w: nat, base: nat,
                       grown: bool) {
    && InData(data0, s0) && InData(data, s) && SameOutside(data0, data, s)
    && VacantFrom(Body(data, s), base) == VacantFrom(Body(data, s), 0)
    && (!grown ==> data == data0 && s == s0)
    && (grown ==> Full(data0, s0) && Body(data, s) == Body(data0, s0) + Zeros(w))
    && (grown ==> VacantFrom(Body(data, s), base) == base)
  }

  lemma RoomSame(data0: seq<seq<byte>>, s0: Chain, data: seq<seq<byte>>, s: Chain, w: nat, base: nat)
    requires Room(data0, s0, data, s, w, base, false)
    ensures data == data0 && s == s0
  {
  }

  lemma SoundValid(vol: Vol)
    requires Sound(vol)
    ensures vol.Valid()
  {
  }

  method StoreCluster(vol: Vol, c: u32, buf: seq<byte>) returns (r: int)
    requires Sound(vol) && |buf| == vol.geo.Bpc() && vol.geo.InRange(c)
    modifies vol`disk, vol`data
    ensures Sound(vol) && r == 0 && c < |old(vol.data)| && vol.data == old(vol.data)[c := buf]
  {
    hide Volume.Refines, Owned, Volume.Geometry.Bpc;
    r := vol.WriteCluster(c, buf);
  }

  /** From the end of the i-th cluster of a directory without a vacant slot so far to the next one, which
      is a zeroed new one behind the last. */
  method Onward(vol: Vol, dir: u32, cluster: u32, ghost i: nat, ghost base: nat) returns (next: u32)
    requires Sound(vol) && dir in vol.own && i < |vol.own[dir]| && cluster == vol.own[dir][i]
    requires At(32 * base, i + 1, 0, vol.geo.Bpc())
    requires Room(vol.data, vol.own[dir], vol.data, vol.own[dir], vol.geo.Bpc(), base, false)
    modifies vol`disk, vol`fat, vol`nextFree, vol`own, vol`owner, vol`data
    ensures Sound(vol) && dir in vol.own
    ensures Grown(old(vol.fat), old(vol.own), old(vol.own)[dir], vol.fat, vol.own, dir)
    ensures next == 0 ==> FreeSet(old(vol.fat)) == {} && Full(old(vol.data), old(vol.own)[dir])
    ensures next == 0 || i + 1 < |old(vol.own)[dir]| ==>
              vol.fat == old(vol.fat) && vol.own == old(vol.own) && vol.data == old(vol.data)
    ensures next != 0 ==> i + 1 < |vol.own[dir]| && next == vol.own[dir][i + 1] && 2 <= next < EOC_MIN
    ensures next != 0 && i + 1 == |old(vol.own)[dir]| ==>
              && FreeSet(old(vol.fat)) != {}
              && Room(old(vol.data), old(vol.own)[dir], vol.data, vol.own[dir], vol.geo.Bpc(), base, true)
  {
    hide Volume.Refines, Contents.Body, Contents.At, Grown, Room, Full, Volume.Geometry.Bpc, Chains.Owned, FreeSet;
    OwnedChain(vol, dir);
    ghost var s, bpc := vol.own[dir], vol.geo.Bpc();
    GrownSame(vol.fat, vol.own, dir);
    ChainNext(vol.fat, s, i);
    next := vol.ReadFat(cluster);
    if next >= EOC_MIN {
      AtBody(vol.data, s, bpc, 32 * base, i + 1, 0);
      RoomFull(vol.data, s, vol.data, s, bpc, base);
      next := GrowDirectory(vol, dir, cluster);
      if next != 0 { RoomGrown(old(vol.data), s, vol.data, vol.own[dir], bpc, base); }
    }
  }

  lemma RoomStart(data: seq<seq<byte>>, s: Chain, w: nat)
    requires InData(data, s)
    ensures Room(data, s, data, s, w, 0, false)
  {
  }

  lemma RoomNext(data0: seq<seq<byte>>, s0: Chain, data: seq<seq<byte>>, s: Chain, w: nat, base: nat, j: nat,
                 grown: bool)
    requires Room(data0, s0, data, s, w, base, grown) && 0 < j
    requires InData(data, s) && VacantFrom(Body(data, s), base + j) == VacantFrom(Body(data, s), base)
    ensures !grown && Room(data0, s0, data, s, w, base + j, grown)
  {
  }

  lemma RoomFull(data0: seq<seq<byte>>, s0: Chain, data: seq<seq<byte>>, s: Chain, w: nat, base: nat)
    requires Room(data0, s0, data, s, w, base, false) && InData(data, s) && 32 * base == |Body(data, s)|
    ensures Full(data0, s0) && data == data0 && s == s0
  {
  }

  lemma RoomGrown(data0: seq<seq<byte>>, s0: Chain, data: seq<seq<byte>>, s: Chain, w: nat, base: nat)
    requires InData(data0, s0) && InData(data, s) && SameOutside(data0, data, s)
    requires Full(data0, s0) && 32 * base == |Body(data0, s0)| && 32 <= w && w % 32 == 0
    requires Body(data, s) == Body(data0, s0) + Zeros(w)
    ensures Room(data0, s0, data, s, w, base, true)
  {
    hide Body;
    GrownVacant(Body(data0, s0), w);
  }

  lemma EnteredHere(data0: seq<seq<byte>>, s0: Chain, data: seq<seq<byte>>, s: Chain, w: nat, base: nat, j: nat,
                    i: int, grown: bool, slot: Slot)
    requires Room(data0, s0, data, s, w, base, grown) && Sized(data, w) && Distinct(s) && w % 32 == 0
    requires 0 <= i < |s| && 32 * j + 32 <= w && At(32 * (base + j), i, 32 * j, w)
    requires VacantFrom(Body(data, s), base) == VacantFrom(Body(data, s), base + j) == base + j < Count(Body(data, s))
    ensures |data[s[i]]| == w
    ensures Entered(data0, s0, data[s[i] := Splice(data[s[i]], 32 * j, slot)], s, w, slot)
    ensures !Full(data0, s0) || grown
  {
    hide Body, VacantFrom, At, PutSlot;
    PutInCluster(data, s, w, base + j, i, 32 * j, slot);
    var data' := data[s[i] := Splice(data[s[i]], 32 * j, slot)];
    assert Body(data, s) == Roomy(Body(data0, s0), w);
    forall c | 0 <= c < |data0| && c !in s ensures data'[c] == data0[c] {
      assert data'[c] == data[c];
    }
  }

  lemma OwnedChain(vol: Vol, h: int)
    requires Sound(vol) && h in vol.own
    ensures IsChain(vol.fat, vol.own[h]) && vol.own[h][0] == h && Small(vol.fat) && IsTrail(vol.fat, vol.own[h], h)
    ensures InData(vol.data, vol.own[h]) && Distinct(vol.own[h]) && Sized(vol.data, vol.geo.Bpc())
    ensures 0 < vol.geo.Bpc() && vol.geo.Bpc() % 32 == 0 && vol.geo.InRange(h)
  {
    hide Volume.Refines;
    ChainDistinct(vol.fat, vol.own[h]);
  }

  /** A located slot can be read and rewritten in its cluster. */
  lemma PutLocated(vol: Vol, d: int, k: nat, cluster: int, offset: nat, slot: Slot)
    requires Sound(vol) && d in vol.own && Located(vol.own[d], vol.geo.Bpc(), k, cluster, offset)
    requires offset + 32 <= vol.geo.Bpc()
    ensures vol.geo.InRange(cluster) && |vol.data[cluster]| == vol.geo.Bpc() && InData(vol.data, vol.own[d])
    ensures k < Count(Body(vol.data, vol.own[d]))
    ensures SlotAt(Body(vol.data, vol.own[d]), k) == vol.data[cluster][offset..offset + 32]
    ensures var data' := vol.data[cluster := Splice(vol.data[cluster], offset, slot)];
            && InData(data', vol.own[d]) && SameOutside(vol.data, data', vol.own[d])
            && Body(data', vol.own[d]) == PutSlot(Body(vol.data, vol.own[d]), k, slot)
  {
    hide Volume.Refines, Owned, Body, At, PutSlot, Volume.Geometry.Bpc, SameOutside;
    OwnedChain(vol, d);
    var s := vol.own[d];
    var i :| 0 <= i < |s| && s[i] == cluster && At(32 * k, i, offset, vol.geo.Bpc());
    AtRead(vol.data, s, vol.geo.Bpc(), 32 * k, i, offset, 32);
    PutInCluster(vol.data, s, vol.geo.Bpc(), k, i, offset, slot);
  }
}
