/** Cluster chains inside a file allocation table, and who owns which cluster. */
module Chains {
  import opened Volume

  type Chain = seq<int>

  predicate InTable(fat: seq<int>, c: int) { 2 <= c < |fat| }

  predicate IsFree(fat: seq<int>, c: int) { InTable(fat, c) && fat[c] == 0 }

  function FreeSet(fat: seq<int>): set<int> { set c | 2 <= c < |fat| && fat[c] == 0 }

  /** `s` runs through the table from `s[0]` and stops at an end-of-chain mark. */
  ghost predicate IsChain(fat: seq<int>, s: Chain) {
    && |s| > 0
    && (forall i :: 0 <= i < |s| ==> 2 <= s[i] < |fat|)
    && (forall i :: 0 <= i < |s| - 1 ==> fat[s[i]] == s[i + 1])
    && fat[s[|s| - 1]] >= 0x0FFF_FFF8
  }

  /** `s` is what a walk over the table from `c` visits before it leaves the table. */
  ghost predicate IsTrail(fat: seq<int>, s: Chain, c: int) {
    if |s| == 0 then !InTable(fat, c)
    else
      && s[0] == c
      && (forall i :: 0 <= i < |s| ==> InTable(fat, s[i]))
      && (forall i :: 0 <= i < |s| - 1 ==> fat[s[i]] == s[i + 1])
      && !InTable(fat, fat[s[|s| - 1]])
  }

  lemma {:induction false} TrailUnique(fat: seq<int>, s: Chain, t: Chain, c: int)
    requires IsTrail(fat, s, c) && IsTrail(fat, t, c)
    ensures s == t
    decreases |s|
  {
    if |s| > 0 {
      TrailTail(fat, s, c);
      TrailTail(fat, t, c);
      TrailUnique(fat, s[1..], t[1..], fat[c]);
      assert s == [c] + s[1..] && t == [c] + t[1..];
    }
  }

  lemma TrailTail(fat: seq<int>, s: Chain, c: int)
    requires IsTrail(fat, s, c) && InTable(fat, c)
    ensures |s| > 0 && IsTrail(fat, s[1..], fat[c])
  {
  }

  /** The trail from `c`, if the table has one: none runs into a cycle. */
  ghost function TrailFrom(fat: seq<int>, c: int): Chain {
    if exists s :: IsTrail(fat, s, c) then var s :| IsTrail(fat, s, c); s else []
  }

  lemma TrailFromIs(fat: seq<int>, s: Chain, c: int)
    requires IsTrail(fat, s, c)
    ensures TrailFrom(fat, c) == s
  {
    hide IsTrail;
    TrailUnique(fat, TrailFrom(fat, c), s, c);
  }

  /** The table is small enough that no cluster number looks like a mark. */
  predicate Small(fat: seq<int>) { 2 <= |fat| <= 0x0FFF_FFF7 }

  lemma {:induction false} ChainAcyclic(fat: seq<int>, s: Chain, i: nat, j: nat)
    requires Small(fat) && IsChain(fat, s) && i < j < |s|
    ensures s[i] != s[j]
    decreases |s| - j
  {
    assert fat[s[i]] == s[i + 1];
    if j < |s| - 1 {
      assert fat[s[j]] == s[j + 1];
      ChainAcyclic(fat, s, i + 1, j + 1);
    }
  }

  /** Ghost bookkeeping: `own` maps the first cluster of every live chain to the
      chain; `owner[c]` is 0 for a free cluster, the chain's first cluster for an
      owned one, and 1 for a cluster in use that belongs to no live chain. */
  ghost predicate Owned(fat: seq<int>, own: map<int, Chain>, owner: seq<int>) {
    && Small(fat) && |owner| == |fat|
    && AllChains(fat, own)
    && Labelled(own, owner)
    && (forall c :: 2 <= c < |fat| ==> 0 <= owner[c] && (owner[c] == 0 <==> fat[c] == 0))
    && Covered(own, owner)
  }

  ghost predicate AllChains(fat: seq<int>, own: map<int, Chain>) {
    forall h :: h in own ==> IsChain(fat, own[h]) && own[h][0] == h
  }

  ghost predicate Labelled(own: map<int, Chain>, owner: seq<int>) {
    forall h, i :: h in own && 0 <= i < |own[h]| ==> 0 <= own[h][i] < |owner| && owner[own[h][i]] == h
  }

  ghost predicate Covered(own: map<int, Chain>, owner: seq<int>) {
    forall c :: 2 <= c < |owner| && owner[c] >= 2 ==> owner[c] in own && c in own[owner[c]]
  }

  /** The chain that starts with `h`; none where there is no such chain. */
  ghost function OwnAt(own: map<int, Chain>, h: int): Chain { if h in own then own[h] else [] }

  /** Distinct live chains share no cluster, and no live chain holds a free one. */
  lemma OwnedDisjoint(fat: seq<int>, own: map<int, Chain>, owner: seq<int>, h: int, h': int, i: nat, j: nat)
    requires Owned(fat, own, owner) && h in own && h' in own && i < |own[h]| && j < |own[h']|
    ensures own[h][i] == own[h'][j] ==> h == h' && i == j
    ensures 2 <= own[h][i] < |fat| && fat[own[h][i]] != 0
  {
    assert owner[own[h][i]] == h && owner[own[h'][j]] == h';
    if h == h' && own[h][i] == own[h'][j] {
      if i < j { ChainAcyclic(fat, own[h], i, j); }
      if j < i { ChainAcyclic(fat, own[h], j, i); }
    }
  }

  lemma SuffixIsTrail(fat: seq<int>, s: Chain, i: nat)
    requires Small(fat) && IsChain(fat, s) && i < |s|
    ensures IsTrail(fat, s[i..], s[i])
  {
    var t := s[i..];
    forall k | 0 <= k < |t| ensures InTable(fat, t[k]) && (k < |t| - 1 ==> fat[t[k]] == t[k + 1]) {
      assert t[k] == s[i + k];
    }
    assert t[|t| - 1] == s[|s| - 1];
  }

  /** Where no cluster is lost, every walk over the table ends. */
  lemma TrailExists(fat: seq<int>, own: map<int, Chain>, owner: seq<int>, c: int)
    requires Owned(fat, own, owner) && forall x :: 2 <= x < |owner| ==> owner[x] != 1
    ensures IsTrail(fat, TrailFrom(fat, c), c)
  {
    if !InTable(fat, c) {
      TrailFromIs(fat, [], c);
    } else if owner[c] == 0 {
      TrailFromIs(fat, [c], c);
    } else {
      OwnedTrail(fat, own, owner, c);
    }
  }

  lemma OwnedTrail(fat: seq<int>, own: map<int, Chain>, owner: seq<int>, c: int)
    requires Owned(fat, own, owner) && InTable(fat, c) && owner[c] >= 2
    ensures IsTrail(fat, TrailFrom(fat, c), c)
  {
    var s := own[owner[c]];
    assert c in s && IsChain(fat, s);
    hide Owned, TrailFrom;
    var i :| 0 <= i < |s| && s[i] == c;
    SuffixIsTrail(fat, s, i);
    TrailFromIs(fat, s[i..], c);
  }

  lemma ChainFrame(fat: seq<int>, fat': seq<int>, s: Chain)
    requires IsChain(fat, s) && |fat'| == |fat|
    requires forall i :: 0 <= i < |s| ==> fat'[s[i]] == fat[s[i]]
    ensures IsChain(fat', s)
  {
  }

  /** A freshly allocated cluster is a chain of its own. */
  lemma OwnedNew(fat: seq<int>, own: map<int, Chain>, owner: seq<int>, c: int)
    requires Owned(fat, own, owner) && IsFree(fat, c)
    ensures c !in own
    ensures Owned(fat[c := EOC_MAX], own[c := [c]], owner[c := c])
  {
  }

  /** Linking a one-cluster chain behind the last cluster of another chain. */
  lemma OwnedLink(fat: seq<int>, own: map<int, Chain>, owner: seq<int>, h: int, c: int)
    requires Owned(fat, own, owner) && h in own && c in own && h != c && own[c] == [c]
    ensures Owned(fat[own[h][|own[h]| - 1] := c], (own - {c})[h := own[h] + [c]], owner[c := h])
  {
    var s := own[h];
    var last := s[|s| - 1];
    var own', owner' := (own - {c})[h := s + [c]], owner[c := h];
    assert owner[last] == h && owner[own[c][0]] == c;
    LinkAllChains(fat, own, owner, h, c);
    assert Labelled(own', owner') by {
      forall k, i | k in own' && 0 <= i < |own'[k]| ensures own'[k][i] < |owner| && owner'[own'[k][i]] == k {
        if k != h {
          assert owner[own[k][i]] == k;
        } else if i < |s| {
          assert owner[own[h][i]] == h;
        }
      }
    }
    assert Covered(own', owner') by {
      forall x | 2 <= x < |owner'| && owner'[x] >= 2 ensures owner'[x] in own' && x in own'[owner'[x]] {
        if x == c {
          assert (s + [c])[|s|] == c;
        } else {
          assert owner[x] in own && x in own[owner[x]];
          assert owner[x] != c;
        }
      }
    }
  }

  /** Growing chain `h` by a free cluster: allocate it, then link it. */
  lemma OwnedAppend(fat: seq<int>, own: map<int, Chain>, owner: seq<int>, h: int, c: int, tail: int)
    requires Owned(fat, own, owner) && h in own && IsFree(fat, c) && tail == own[h][|own[h]| - 1]
    ensures InTable(fat, tail) && tail != c
    ensures Owned(fat[c := EOC_MAX][tail := c], own[h := own[h] + [c]], owner[c := h])
  {
    hide Owned;
    OwnedNew(fat, own, owner, c);
    TailOwned(fat, own, owner, h, c);
    OwnedLink(fat[c := EOC_MAX], own[c := [c]], owner[c := c], h, c);
    assert (own[c := [c]] - {c})[h := own[h] + [c]] == own[h := own[h] + [c]];
    assert owner[c := c][c := h] == owner[c := h];
  }

  lemma TailOwned(fat: seq<int>, own: map<int, Chain>, owner: seq<int>, h: int, c: int)
    requires Owned(fat, own, owner) && h in own && IsFree(fat, c)
    ensures |owner| == |fat| && |own[h]| > 0 && h != c
    ensures own[h][|own[h]| - 1] != c && InTable(fat, own[h][|own[h]| - 1])
  {
    assert owner[own[h][|own[h]| - 1]] == h && owner[own[h][0]] == h;
  }

  lemma LinkAllChains(fat: seq<int>, own: map<int, Chain>, owner: seq<int>, h: int, c: int)
    requires Owned(fat, own, owner) && h in own && c in own && h != c && own[c] == [c]
    ensures AllChains(fat[own[h][|own[h]| - 1] := c], (own - {c})[h := own[h] + [c]])
  {
  }

  /** The table after `fat32_free_cluster_chain(c)`, on any table at all. */
  function FreeFrom(fat: seq<int>, c: int): (r: seq<int>)
    requires Small(fat)
    ensures |r| == |fat|
    decreases |UsedSet(fat)|, if InTable(fat, c) then 1 else 0
  {
    if InTable(fat, c) then
      UsedShrinks(fat, c);
      FreeFrom(fat[c := FREE_CLUSTER], fat[c])
    else fat
  }

  function UsedSet(fat: seq<int>): set<int> { set c | 2 <= c < |fat| && fat[c] != FREE_CLUSTER }

  lemma UsedShrinks(fat: seq<int>, c: int)
    requires InTable(fat, c)
    ensures fat[c] != FREE_CLUSTER ==> |UsedSet(fat[c := FREE_CLUSTER])| < |UsedSet(fat)|
    ensures fat[c] == FREE_CLUSTER ==> fat[c := FREE_CLUSTER] == fat
  {
    if fat[c] != FREE_CLUSTER {
      assert c in UsedSet(fat);
      assert UsedSet(fat[c := FREE_CLUSTER]) == UsedSet(fat) - {c};
    }
  }

  /** `p` follows table entries from `c`, staying inside the table. */
  ghost predicate IsPath(fat: seq<int>, p: Chain, c: int) {
    && |p| > 0 && p[0] == c
    && (forall i :: 0 <= i < |p| ==> InTable(fat, p[i]))
    && (forall i :: 0 <= i < |p| - 1 ==> fat[p[i]] == p[i + 1])
  }

  ghost predicate Reachable(fat: seq<int>, c: int, x: int) {
    exists p: Chain :: IsPath(fat, p, c) && p[|p| - 1] == x
  }

  /** Every table, cyclic and cross-linked ones included: exactly the clusters
      reachable from the start become free, and no other entry changes. */
  lemma {:induction false} FreesExactlyReachable(fat: seq<int>, c: int, x: int)
    requires Small(fat) && InTable(fat, x)
    ensures FreeFrom(fat, c)[x] == if Reachable(fat, c, x) then 0 else fat[x]
    decreases |UsedSet(fat)|, if InTable(fat, c) then 1 else 0
  {
    if InTable(fat, c) {
      UsedShrinks(fat, c);
      var fat', next := fat[c := FREE_CLUSTER], fat[c];
      FreesExactlyReachable(fat', next, x);
      if Reachable(fat', next, x) {
        var p: Chain :| IsPath(fat', p, next) && p[|p| - 1] == x;
        PathFromFreed(fat, c, p);
        assert IsPath(fat, [c] + p, c) && ([c] + p)[|[c] + p| - 1] == x;
      }
      if Reachable(fat, c, x) && x != c {
        var p: Chain :| IsPath(fat, p, c) && p[|p| - 1] == x;
        PathAvoiding(fat, c, p);
      }
      if x == c {
        assert IsPath(fat, [c], c) && [c][|[c]| - 1] == x;
      }
    } else {
      forall p: Chain | |p| > 0 && p[0] == c ensures !IsPath(fat, p, c) { assert !InTable(fat, p[0]); }
    }
  }

  /** A path in the table with `c` freed is a path in the original table. */
  lemma PathFromFreed(fat: seq<int>, c: int, p: Chain)
    requires InTable(fat, c) && IsPath(fat[c := FREE_CLUSTER], p, fat[c])
    ensures IsPath(fat, [c] + p, c)
  {
  }

  /** A path away from `c` survives freeing `c`, once loops through `c` are cut. */
  lemma {:induction false} PathAvoiding(fat: seq<int>, c: int, p: Chain)
    requires InTable(fat, c) && IsPath(fat, p, c) && p[|p| - 1] != c
    ensures Reachable(fat[c := FREE_CLUSTER], fat[c], p[|p| - 1])
    decreases |p|
  {
    if i :| 1 <= i < |p| && p[i] == c {
      assert IsPath(fat, p[i..], c);
      PathAvoiding(fat, c, p[i..]);
    } else {
      var q := p[1..];
      assert IsPath(fat[c := FREE_CLUSTER], q, fat[c]);
      assert q[|q| - 1] == p[|p| - 1];
    }
  }

  /** Freeing a well-formed chain frees its clusters and nothing else. */
  lemma {:induction false} FreeChainExact(fat: seq<int>, s: Chain, k: nat)
    requires Small(fat) && IsChain(fat, s) && k < |s|
    ensures |FreeFrom(fat, s[k])| == |fat|
    ensures forall x :: 0 <= x < |fat| ==> FreeFrom(fat, s[k])[x] == if x in s[k..] then 0 else fat[x]
    decreases |s| - k
  {
    var fat' := fat[s[k] := FREE_CLUSTER];
    if k == |s| - 1 {
      assert !InTable(fat', fat[s[k]]);
      assert s[k..] == [s[k]];
    } else {
      ChainRest(fat, s, k);
      assert InTable(fat, s[k]);
      hide IsChain;
      var t := s[k + 1..];
      FreeChainExact(fat', t, 0);
      assert t[0..] == t && FreeFrom(fat, s[k]) == FreeFrom(fat', t[0]);
      assert s[k..] == [s[k]] + t;
      hide FreeFrom;
    }
  }

  /** Freeing the k-th cluster leaves the rest of the chain a chain. */
  lemma ChainRest(fat: seq<int>, s: Chain, k: nat)
    requires Small(fat) && IsChain(fat, s) && k < |s| - 1
    ensures fat[s[k]] == s[k + 1..][0] && IsChain(fat[s[k] := FREE_CLUSTER], s[k + 1..]) && s[k] !in s[k + 1..]
  {
    forall i | k + 1 <= i < |s| ensures s[i] != s[k] { ChainAcyclic(fat, s, k, i); }
    var t := s[k + 1..];
    forall i | 0 <= i < |t| ensures t[i] == s[k + 1 + i] && t[i] != s[k] { }
  }

  /** Dropping an owned chain from the books when its clusters are freed. */
  lemma OwnedFree(fat: seq<int>, own: map<int, Chain>, owner: seq<int>, h: int, owner': seq<int>)
    requires Owned(fat, own, owner) && h in own && |owner'| == |owner|
    requires forall x :: 0 <= x < |owner| ==> owner'[x] == if x in own[h] then 0 else owner[x]
    ensures Owned(FreeFrom(fat, h), own - {h}, owner')
  {
    var s := own[h];
    var fat' := FreeFrom(fat, h);
    FreeChainExact(fat, s, 0);
    assert s[0..] == s;
    forall k | k in own && k != h ensures IsChain(fat', own[k]) {
      forall i | 0 <= i < |own[k]| ensures own[k][i] !in s {
        assert owner[own[k][i]] == k;
        forall j | 0 <= j < |s| ensures s[j] != own[k][i] { assert owner[own[h][j]] == h; }
      }
      ChainFrame(fat, fat', own[k]);
    }
    forall k, i | k in own - {h} && 0 <= i < |own[k]| ensures owner'[own[k][i]] == k {
      assert owner[own[k][i]] == k;
      forall j | 0 <= j < |s| ensures s[j] != own[k][i] { assert owner[own[h][j]] == h; }
    }
    forall x | 2 <= x < |fat'| && owner'[x] >= 2 ensures owner'[x] in own - {h} && x in own[owner'[x]] {
      assert owner[x] in own && x in own[owner[x]];
    }
  }
}
