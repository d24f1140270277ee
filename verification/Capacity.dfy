/** How many clusters a file takes, and where they come from. */
module Capacity {
  import opened Arith
  import opened Chains
  import opened ClusterOps
  import opened Contents
  import opened FileIo
  import opened Bytes
  import opened Flatten

  /** The clusters that hold `n` bytes of a file that was written to: at least one. */
  function ClustersFor(n: nat, w: nat): (r: nat)
    requires 0 < w
    ensures r >= 1
  {
    if n == 0 then 1 else (n - 1) / w + 1
  }

  lemma ClustersForMonotone(m: nat, n: nat, w: nat)
    requires 0 < w && m <= n
    ensures ClustersFor(m, w) <= ClustersFor(n, w)
  {
    if 0 < m < n {
      AtPosition(m - 1, w);
      AtPosition(n - 1, w);
      if (n - 1) / w < (m - 1) / w { MulStep((n - 1) / w, (m - 1) / w, w); }
    }
  }

  /** A chain that holds `n` bytes has at least that many clusters. */
  lemma LongEnough(s: Chain, n: nat, w: nat)
    requires 0 < w && |s| > 0 && n <= |s| * w
    ensures ClustersFor(n, w) <= |s|
  {
    if n > 0 {
      AtPosition(n - 1, w);
      if |s| <= (n - 1) / w { MulMono(|s|, (n - 1) / w, w); }
    }
  }

  /** A chain that was used up before `n` bytes were written has fewer. */
  lemma TooShort(s: Chain, p: nat, n: nat, w: nat)
    requires 0 < w && UsedUp(s, w, p) && p < n
    ensures |s| < ClustersFor(n, w)
  {
    AtPosition(n - 1, w);
    assert |s| * w == (|s| - 1) * w + w;
    if (n - 1) / w < |s| - 1 { MulStep((n - 1) / w, |s| - 1, w); }
  }

  /** What saving a file can draw on: whether the name is known, the free clusters, those of the file that is
      overwritten, the one a new name may cost the directory, and the bytes of a cluster. */
  datatype Budget = Budget(known: bool, free: nat, given: nat, cost: nat, w: nat)

  /** Enough to open the file for writing. */
  predicate Opens(b: Budget) { b.known || 1 + b.cost <= b.free }

  /** Exactly what saving `n` bytes takes. A file that exists and is not written to takes no cluster. */
  predicate Affords(b: Budget, n: nat, writes: bool) {
    && 0 < b.w
    && if b.known then writes ==> ClustersFor(n, b.w) <= b.free + b.given else ClustersFor(n, b.w) + b.cost <= b.free
  }

  /** The clusters that writes of `chunks` one after the other ask for, to a chain of `l` at first; a write of
      nothing at the end of a full cluster asks for one more. */
  function Asked(chunks: seq<seq<byte>>, l: nat, w: nat): nat
    requires 0 < w
  {
    if |chunks| == 0 then l
    else if |chunks[|chunks| - 1]| == 0 then |Flat(chunks)| / w + 1
    else ClustersFor(|Flat(chunks)|, w)
  }

  /** The free clusters that are left after the save. */
  function Leftover(b: Budget, chunks: seq<seq<byte>>): nat {
    if b.w == 0 then 0
    else
      var l, n := if b.known then 0 else 1, |Flat(chunks)|;
      var least := if b.known && |chunks| == 0 then 0 else ClustersFor(n, b.w);
      var rest := b.free + b.given - b.cost - least;
      AskedBound(chunks, l, b.w);
      if rest > 0 then rest - (Asked(chunks, l, b.w) - least) else 0
  }

  lemma AskedStep(chunks: seq<seq<byte>>, chunk: seq<byte>, l: nat, w: nat)
    requires 0 < w && l <= 1
    ensures Asked(chunks, l, w) <= Reaching(|Flat(chunks)|, |chunk|, w) == Asked(chunks + [chunk], l, w)
  {
    hide Flat;
    FlatSnoc(chunks, chunk);
    FlatNone<byte>();
    AskedBound(chunks, l, w);
    if |chunk| > 0 { ReachesFurther(|Flat(chunks)|, |chunk|, w); }
  }

  lemma AskedBound(chunks: seq<seq<byte>>, l: nat, w: nat)
    requires 0 < w && l <= 1
    ensures Asked(chunks, l, w) <= |Flat(chunks)| / w + 1
    ensures |chunks| > 0 ==> ClustersFor(|Flat(chunks)|, w) <= Asked(chunks, l, w) <= ClustersFor(|Flat(chunks)|, w) + 1
  {
    hide Flat;
    var n := |Flat(chunks)|;
    if n > 0 {
      ReachesFurther(n - 1, 2, w);
      if n / w > (n - 1) / w + 1 { NextBlock(n, w); }
    }
  }

  lemma NextBlock(n: nat, w: nat)
    requires 0 < w && 0 < n
    ensures n / w <= (n - 1) / w + 1
  {
    AtPosition(n, w);
    AtPosition(n - 1, w);
    if n / w > (n - 1) / w + 1 { MulStep((n - 1) / w + 1, n / w, w); }
  }

  /** A chain of `l` clusters is as long as asked for, or there are no more. */
  predicate Tight(l: nat, asked: nat, full: bool) { l == asked || (full && l < asked) }

  lemma TightStep(s: Chain, s': Chain, chunks: seq<seq<byte>>, chunk: seq<byte>, l: nat, w: nat, full: bool,
                  full': bool)
    requires 0 < w && l <= 1 && Tight(|s|, Asked(chunks, l, w), full)
    requires Stretched(s, s', |Flat(chunks)|, |chunk|, w, full' && |chunk| == 0)
    ensures Tight(|s'|, Asked(chunks + [chunk], l, w), full')
  {
    hide Flat, Asked, Reaching;
    AskedStep(chunks, chunk, l, w);
  }

  /** From the balance of clusters and the length `l` of the new chain: the save succeeded exactly when it could be
      afforded, and what is left. */
  lemma Accounts(b: Budget, chunks: seq<seq<byte>>, free: nat, l: nat, ok: bool)
    requires 0 < b.w && b.cost <= 1 && (b.known ==> b.cost == 0) && (!b.known ==> b.given == 0)
    requires free + l + b.cost == b.free + b.given
    requires ok ==> Tight(l, Asked(chunks, if b.known then 0 else 1, b.w), free == 0)
    requires ok && (!b.known || |chunks| > 0) ==> ClustersFor(|Flat(chunks)|, b.w) <= l
    requires !ok ==> |chunks| > 0 && free == 0 && l < ClustersFor(|Flat(chunks)|, b.w)
    ensures ok <==> Affords(b, |Flat(chunks)|, |chunks| > 0)
    ensures ok ==> free == Leftover(b, chunks)
  {
    hide Flat;
    FlatNone<byte>();
    AskedBound(chunks, if b.known then 0 else 1, b.w);
  }

  ghost function Clusters(s: Chain): set<int> { set c | c in s }

  lemma {:induction false} ClustersCount(s: Chain)
    requires Distinct(s)
    ensures |Clusters(s)| == |s|
  {
    if |s| > 0 {
      var t := s[..|s| - 1];
      assert s == t + [s[|s| - 1]];
      assert s[|s| - 1] !in t;
      ClustersCount(t);
      assert Clusters(s) == Clusters(t) + {s[|s| - 1]};
    }
  }

  /** Against `own0`, chain `h0` is gone, chain `h` is new, directory `d` may be longer,
      and every other chain is what it was. */
  ghost predicate Footprint(own0: map<int, Chain>, own: map<int, Chain>, d: int, h0: int, h: int) {
    && d in own0 && d in own && own0[d] <= own[d] && d != h && d != h0
    && (h0 in own ==> h0 == h) && (h in own0 ==> h == h0)
    && forall x :: x != d && x != h && x != h0 ==> (x in own <==> x in own0) && (x in own0 ==> own[x] == own0[x])
  }

  /** The books of a volume with `n` table entries. */
  ghost predicate Balanced(free: set<int>, n: nat, lost: set<int>, own: map<int, Chain>) {
    FreeRest(free, n, lost, own) && Partition(n, lost, own) && forall h :: h in own ==> Distinct(own[h])
  }

  /** Cluster `c` is neither lost nor in a chain other than `d` and `h`. */
  ghost predicate Available(n: nat, lost: set<int>, own: map<int, Chain>, d: int, h: int, c: int) {
    2 <= c < n && c !in lost && forall x :: x in own && x != d && x != h ==> c !in own[x]
  }

  /** Cluster `c` is in a chain other than `d` and `h`. */
  ghost predicate InOther(own: map<int, Chain>, d: int, h: int, c: int) {
    exists x :: x in own && x != d && x != h && c in own[x]
  }

  lemma InSomeIs(own: map<int, Chain>, d: int, h: int, c: int)
    ensures InSome(own, c) <==> InOther(own, d, h, c) || c in OwnAt(own, h) || c in OwnAt(own, d)
  {
    if c in OwnAt(own, h) { assert h in own && c in own[h]; }
    if c in OwnAt(own, d) { assert d in own && c in own[d]; }
    if InOther(own, d, h, c) {
      var x :| x in own && x != d && x != h && c in own[x];
      assert InSome(own, c);
    }
  }

  lemma OursAlone(n: nat, lost: set<int>, own: map<int, Chain>, d: int, h: int, c: int)
    requires Partition(n, lost, own) && (c in OwnAt(own, h) || c in OwnAt(own, d))
    ensures !InOther(own, d, h, c) && 2 <= c < n && c !in lost
  {
    if c in OwnAt(own, h) { OnlyThere(n, lost, own, h, c); } else { OnlyThere(n, lost, own, d, c); }
  }

  lemma OnlyThere(n: nat, lost: set<int>, own: map<int, Chain>, y: int, c: int)
    requires Partition(n, lost, own) && y in own && c in own[y]
    ensures 2 <= c < n && c !in lost && forall x :: x in own && x != y ==> c !in own[x]
  {
  }

  lemma AvailableIs(free: set<int>, n: nat, lost: set<int>, own: map<int, Chain>, d: int, h: int, c: int)
    requires Balanced(free, n, lost, own)
    ensures Available(n, lost, own, d, h, c) <==> c in free + Clusters(OwnAt(own, h)) + Clusters(OwnAt(own, d))
  {
    hide Partition, InSome;
    InSomeIs(own, d, h, c);
    assert Available(n, lost, own, d, h, c) <==> 2 <= c < n && c !in lost && !InOther(own, d, h, c);
    if c in OwnAt(own, h) || c in OwnAt(own, d) { OursAlone(n, lost, own, d, h, c); }
  }

  lemma Disjoint(free: set<int>, n: nat, lost: set<int>, own: map<int, Chain>, d: int, h: int)
    requires Balanced(free, n, lost, own) && d != h
    ensures |free + Clusters(OwnAt(own, h)) + Clusters(OwnAt(own, d))| == |free| + |OwnAt(own, h)| + |OwnAt(own, d)|
  {
    ClustersCount(OwnAt(own, h));
    ClustersCount(OwnAt(own, d));
    var a, b := Clusters(OwnAt(own, h)), Clusters(OwnAt(own, d));
    forall c | c in a || c in b ensures c !in free {
      var x := if c in a then h else d;
      assert x in own && c in own[x];
      assert InSome(own, c);
    }
    assert free !! a && free !! b && a !! b;
  }

  /** What the new chain and the directory take is what the free set and the old chain give. */
  lemma Balance(free0: set<int>, free: set<int>, n: nat, lost: set<int>, own0: map<int, Chain>, own: map<int, Chain>,
                d: int, h0: int, h: int)
    requires Balanced(free0, n, lost, own0) && Balanced(free, n, lost, own) && Footprint(own0, own, d, h0, h)
    ensures |free| + |OwnAt(own, h)| + |OwnAt(own, d)| == |free0| + |OwnAt(own0, h0)| + |OwnAt(own0, d)|
  {
    hide Balanced, Clusters;
    var s := free + Clusters(OwnAt(own, h)) + Clusters(OwnAt(own, d));
    var s0 := free0 + Clusters(OwnAt(own0, h0)) + Clusters(OwnAt(own0, d));
    forall c ensures c in s <==> c in s0 {
      AvailableIs(free, n, lost, own, d, h, c);
      AvailableIs(free0, n, lost, own0, d, h0, c);
    }
    assert s == s0;
    Disjoint(free, n, lost, own, d, h);
    Disjoint(free0, n, lost, own0, d, h0);
  }
}
