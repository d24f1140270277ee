/** Allocating and freeing clusters on a mounted volume. */
module ClusterOps {
  import opened Bytes
  import opened Volume
  import opened Chains

  /** The volume is well encoded and every cluster is accounted for: free, in a live
      chain, or in use by nobody (`lost`, which no operation changes). */
  ghost predicate Sound(vol: Vol)
    reads vol
  {
    && vol.Valid() && Owned(vol.fat, vol.own, vol.owner)
    && (forall c :: 2 <= c < |vol.owner| ==> (vol.owner[c] == 1 <==> c in vol.lost))
  }

  /** Where the search for a free cluster starts, whatever the FSInfo hint says. */
  function Start(n: nat, hint: u32): nat { if hint < 2 || hint >= n + 2 then 2 else hint }

  /** How many clusters a wrap-around scan from `start` passes before `c`. */
  function Distance(n: nat, start: nat, c: int): int {
    if start <= c then c - start else c - start + n
  }

  /** `c` is the first free cluster in cyclic order from the hint. */
  ghost predicate FirstFree(fat: seq<int>, hint: u32, c: int)
    requires |fat| >= 2
  {
    && IsFree(fat, c)
    && forall x: int :: IsFree(fat, x) ==>
         Distance(|fat| - 2, Start(|fat| - 2, hint), c) <= Distance(|fat| - 2, Start(|fat| - 2, hint), x)
  }

  /** The same said of the entries: from the hint, if it is in the table, and else from cluster 2 on, wrapping
      around at the end of the table, no entry before `c` is free. */
  ghost predicate NextFree(fat: seq<int>, hint: u32, c: int) {
    && 2 <= c < |fat| && fat[c] == 0
    && var h := if 2 <= hint < |fat| then hint else 2;
       if h <= c then forall x :: h <= x < c ==> fat[x] != 0
       else (forall x :: h <= x < |fat| ==> fat[x] != 0) && (forall x :: 2 <= x < c ==> fat[x] != 0)
  }

  lemma FirstIsNext(fat: seq<int>, hint: u32, c: int)
    requires |fat| >= 2
    ensures FirstFree(fat, hint, c) <==> NextFree(fat, hint, c)
  {
    if FirstFree(fat, hint, c) {
      forall x | 2 <= x < |fat| && fat[x] == 0
        ensures Distance(|fat| - 2, Start(|fat| - 2, hint), c) <= Distance(|fat| - 2, Start(|fat| - 2, hint), x)
      {
        assert IsFree(fat, x);
      }
    }
  }

  method AllocCluster(vol: Vol) returns (c: u32)
    requires vol.Valid()
    modifies vol`disk, vol`fat, vol`nextFree
    ensures vol.Valid()
    ensures c == 0 <==> FreeSet(old(vol.fat)) == {}
    ensures c == 0 ==> vol.fat == old(vol.fat) && vol.nextFree == old(vol.nextFree)
    ensures c != 0 ==> NextFree(old(vol.fat), old(vol.nextFree), c)
    ensures c != 0 ==> vol.fat == old(vol.fat)[c := 0x0FFF_FFFF] && vol.nextFree == c + 1
  {
    hide Vol.Valid, FirstFree, FreeSet, NextFree;
    TableShape(vol);
    var n := vol.geo.totalClusters;
    ghost var fat0, start := vol.fat, Start(n, vol.nextFree);
    var cluster: int := vol.nextFree;
    if cluster < 2 { cluster := 2; }
    for i := 0 to n
      invariant vol.fat == fat0 && vol.Valid() && vol.nextFree == old(vol.nextFree)
      invariant 0 <= cluster < TWO32
      invariant i > 0 ==> cluster == if start + i <= n + 2 then start + i else start + i - n
      invariant i == 0 ==> cluster == start || (start == 2 && cluster >= n + 2)
      invariant forall x: int :: InTable(fat0, x) && Distance(n, start, x) < i ==> fat0[x] != FREE_CLUSTER
    {
      if cluster >= n + 2 { cluster := 2; }
      assert Distance(n, start, cluster) == i;
      var value := vol.ReadFat(cluster);
      if value == FREE_CLUSTER {
        FoundFirst(fat0, vol.nextFree, cluster, i);
        FirstIsNext(fat0, vol.nextFree, cluster);
        Take(vol, cluster);
        return cluster;
      }
      assert forall x: int :: InTable(fat0, x) && Distance(n, start, x) == i ==> x == cluster;
      cluster := cluster + 1;
    }
    NoneFree(fat0, start);
    c := 0;
  }

  method Take(vol: Vol, c: u32)
    requires vol.Valid() && vol.geo.InRange(c)
    modifies vol`disk, vol`fat, vol`nextFree
    ensures vol.Valid() && c < |old(vol.fat)| && vol.fat == old(vol.fat)[c := EOC_MAX] && vol.nextFree == c + 1
  {
    hide Volume.Refines;
    var _ := vol.WriteFat(c, EOC_MAX);
    vol.nextFree := c + 1;
  }

  lemma TableShape(vol: Vol)
    requires vol.Valid()
    ensures |vol.fat| == vol.geo.totalClusters + 2 && 3 <= |vol.fat| <= BAD_CLUSTER
  {
  }

  /** Nothing nearer than cluster `c` is free. */
  lemma FoundFirst(fat: seq<int>, hint: u32, c: int, i: nat)
    requires IsFree(fat, c) && |fat| >= 2 && Distance(|fat| - 2, Start(|fat| - 2, hint), c) == i
    requires forall x: int ::
               InTable(fat, x) && Distance(|fat| - 2, Start(|fat| - 2, hint), x) < i ==> fat[x] != FREE_CLUSTER
    ensures FirstFree(fat, hint, c) && FreeSet(fat) != {}
  {
    assert c in FreeSet(fat);
  }

  lemma NoneFree(fat: seq<int>, start: nat)
    requires 2 <= start < |fat|
    requires forall x: int :: InTable(fat, x) && Distance(|fat| - 2, start, x) < |fat| - 2 ==> fat[x] != FREE_CLUSTER
    ensures FreeSet(fat) == {}
  {
    forall x: int | InTable(fat, x) ensures fat[x] != FREE_CLUSTER { assert Distance(|fat| - 2, start, x) < |fat| - 2; }
  }

  /** Works on any table: `Valid` says nothing about chains. */
  method FreeClusterChain(vol: Vol, first: u32)
    requires vol.Valid()
    modifies vol`disk, vol`fat
    ensures vol.Valid()
    ensures vol.fat == FreeFrom(old(vol.fat), first)
  {
    hide Volume.Refines;
    var cluster := first;
    while cluster >= 2 && cluster < EOC_MIN && cluster < vol.geo.totalClusters + 2
      invariant vol.Valid() && 0 <= cluster < TWO32
      invariant FreeFrom(vol.fat, cluster) == FreeFrom(old(vol.fat), first)
      decreases |UsedSet(vol.fat)|, if InTable(vol.fat, cluster) then 1 else 0
    {
      UsedShrinks(vol.fat, cluster);
      var next := vol.ReadFat(cluster);
      var _ := vol.WriteFat(cluster, FREE_CLUSTER);
      cluster := next;
    }
  }

  /** Allocates a cluster as a new chain. */
  method NewChain(vol: Vol) returns (c: u32)
    requires Sound(vol)
    modifies vol`disk, vol`fat, vol`nextFree, vol`own, vol`owner
    ensures Sound(vol)
    ensures c == 0 <==> FreeSet(old(vol.fat)) == {}
    ensures c == 0 ==> vol.fat == old(vol.fat) && vol.own == old(vol.own) && vol.owner == old(vol.owner)
    ensures c != 0 ==> IsFree(old(vol.fat), c) && c !in old(vol.own)
    ensures c != 0 ==> vol.fat == old(vol.fat)[c := EOC_MAX]
    ensures c != 0 ==> vol.own == old(vol.own)[c := [c]] && vol.owner == old(vol.owner)[c := c]
  {
    hide Volume.Refines;
    c := AllocCluster(vol);
    if c != 0 {
      OwnedNew(old(vol.fat), vol.own, vol.owner, c);
      vol.own, vol.owner := vol.own[c := [c]], vol.owner[c := c];
    }
  }

  lemma TailInTable(fat: seq<int>, own: map<int, Chain>, owner: seq<int>, h: int)
    requires Owned(fat, own, owner) && h in own
    ensures Small(fat) && |own[h]| > 0 && 2 <= own[h][|own[h]| - 1] < |fat| && 2 <= h && |owner| == |fat|
    ensures forall c :: IsFree(fat, c) ==> owner[c] == 0
  {
    assert IsChain(fat, own[h]);
  }

  /** Allocates a cluster and links it behind `tail`, the last cluster of chain `h`. */
  method Append(vol: Vol, ghost h: int, tail: u32) returns (next: u32)
    requires Sound(vol) && h in vol.own && tail == vol.own[h][|vol.own[h]| - 1]
    modifies vol`disk, vol`fat, vol`nextFree, vol`own, vol`owner
    ensures Sound(vol)
    ensures next == 0 <==> FreeSet(old(vol.fat)) == {}
    ensures next == 0 ==> vol.fat == old(vol.fat) && vol.own == old(vol.own) && vol.owner == old(vol.owner)
    ensures next != 0 ==> IsFree(old(vol.fat), next) && vol.fat == old(vol.fat)[next := EOC_MAX][tail := next]
    ensures next != 0 ==>
              vol.own == old(vol.own)[h := old(vol.own)[h] + [next]] && vol.owner == old(vol.owner)[next := h]
  {
    hide Volume.Refines, Owned, FreeSet, Start, Distance;
    TailInTable(vol.fat, vol.own, vol.owner, h);
    next := AllocCluster(vol);
    if next != 0 {
      OwnedAppend(old(vol.fat), vol.own, vol.owner, h, next, tail);
      assert next % 0x1000_0000 == next;
      var _ := vol.WriteFat(tail, next);
      vol.own, vol.owner := vol.own[h := vol.own[h] + [next]], vol.owner[next := h];
    }
  }

  /** Frees a live chain and strikes it from the books. */
  method DropChain(vol: Vol, first: u32)
    requires Sound(vol) && first in vol.own
    modifies vol`disk, vol`fat, vol`own, vol`owner
    ensures Sound(vol)
    ensures vol.fat == FreeFrom(old(vol.fat), first)
    ensures FreeSet(vol.fat) == FreeSet(old(vol.fat)) + (set c | c in old(vol.own)[first])
    ensures vol.own == old(vol.own) - {first as int}
  {
    hide Volume.Refines, FreeFrom, IsChain, Owned;
    ghost var s := vol.own[first];
    OwnedHead(vol.fat, vol.own, vol.owner, first);
    FreeChainExact(vol.fat, s, 0);
    assert s[0..] == s;
    FreeClusterChain(vol, first);
    ghost var owner := vol.owner;
    ghost var owner' := seq(|owner|, x requires 0 <= x < |owner| => if x in s then 0 else owner[x]);
    OwnedFree(old(vol.fat), vol.own, owner, first, owner');
    vol.own, vol.owner := vol.own - {first as int}, owner';
  }

  lemma OwnedHead(fat: seq<int>, own: map<int, Chain>, owner: seq<int>, h: int)
    requires Owned(fat, own, owner) && h in own
    ensures Small(fat) && IsChain(fat, own[h]) && own[h][0] == h
    ensures forall i :: 0 <= i < |own[h]| ==> InTable(fat, own[h][i]) && owner[own[h][i]] == h >= 2
  {
  }

  /** `free` is what the live chains and the lost clusters leave over of `n` clusters. */
  ghost predicate FreeRest(free: set<int>, n: nat, lost: set<int>, own: map<int, Chain>) {
    forall c :: c in free <==> 2 <= c < n && c !in lost && !InSome(own, c)
  }

  ghost predicate InSome(own: map<int, Chain>, c: int) { exists h :: h in own && c in own[h] }

  /** Live chains share no cluster and hold no lost one. */
  ghost predicate Partition(n: nat, lost: set<int>, own: map<int, Chain>) {
    && (forall h, h', c :: h in own && h' in own && c in own[h] && c in own[h'] ==> h == h')
    && (forall h, c :: h in own && c in own[h] ==> 2 <= c < n)
    && (forall h, c :: h in own && c in own[h] ==> c !in lost)
  }

  lemma FreeIsTheRest(vol: Vol)
    requires Sound(vol)
    ensures FreeRest(FreeSet(vol.fat), |vol.fat|, vol.lost, vol.own) && Partition(|vol.fat|, vol.lost, vol.own)
  {
  }

}
