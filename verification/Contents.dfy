/** The bytes held by a chain of clusters, as one sequence. */
module Contents {
  import opened Bytes
  import opened Arith
  import opened Flatten
  import opened Chains

  ghost predicate InData(data: seq<seq<byte>>, s: Chain) {
    forall i :: 0 <= i < |s| ==> 2 <= s[i] < |data|
  }

  ghost predicate Sized(data: seq<seq<byte>>, w: nat) {
    forall c :: 2 <= c < |data| ==> |data[c]| == w
  }

  ghost predicate Distinct(s: Chain) {
    forall i, j :: 0 <= i < j < |s| ==> s[i] != s[j]
  }

  function Pick(data: seq<seq<byte>>, s: Chain): (r: seq<seq<byte>>)
    requires InData(data, s)
    ensures |r| == |s| && forall i :: 0 <= i < |s| ==> r[i] == data[s[i]]
  {
    seq(|s|, i requires 0 <= i < |s| => data[s[i]])
  }

  /** The clusters of `s`, end to end. */
  function Body(data: seq<seq<byte>>, s: Chain): seq<byte>
    requires InData(data, s)
  {
    Flat(Pick(data, s))
  }

  lemma BodyLength(data: seq<seq<byte>>, s: Chain, w: nat)
    requires InData(data, s) && Sized(data, w)
    ensures |Body(data, s)| == |s| * w
  {
    FlatLength(Pick(data, s), w);
  }

  lemma BodyBlock(data: seq<seq<byte>>, s: Chain, w: nat, k: nat)
    requires InData(data, s) && Sized(data, w) && k < |s|
    ensures |Body(data, s)| == |s| * w && k * w + w <= |s| * w
    ensures Body(data, s)[k * w..k * w + w] == data[s[k]]
  {
    FlatBlock(Pick(data, s), w, k);
  }

  lemma BodySnoc(data: seq<seq<byte>>, s: Chain, c: int)
    requires InData(data, s) && 2 <= c < |data|
    ensures InData(data, s + [c]) && Body(data, s + [c]) == Body(data, s) + data[c]
  {
    assert Pick(data, s + [c]) == Pick(data, s) + [data[c]];
    FlatSnoc(Pick(data, s), data[c]);
  }

  lemma BodyFrame(data: seq<seq<byte>>, data': seq<seq<byte>>, s: Chain)
    requires InData(data, s) && |data'| == |data|
    requires forall i :: 0 <= i < |s| ==> data'[s[i]] == data[s[i]]
    ensures InData(data', s) && Body(data', s) == Body(data, s)
  {
    assert Pick(data', s) == Pick(data, s);
  }

  /** Overwriting part of the k-th cluster overwrites that part of the body. */
  lemma BodyWrite(data: seq<seq<byte>>, s: Chain, w: nat, k: nat, o: nat, d: seq<byte>)
    requires InData(data, s) && Sized(data, w) && Distinct(s) && k < |s| && o + |d| <= w
    ensures |Body(data, s)| == |s| * w && k * w + o + |d| <= |s| * w
    ensures var data' := data[s[k] := Splice(data[s[k]], o, d)];
            InData(data', s) && Body(data', s) == Splice(Body(data, s), k * w + o, d)
  {
    var ss := Pick(data, s);
    var x := Splice(data[s[k]], o, d);
    FlatSplice(ss, w, k, o, d);
    var data' := data[s[k] := x];
    forall i | 0 <= i < |s| ensures Pick(data', s)[i] == ss[k := x][i] {
      if i < k { assert s[i] != s[k]; }
      if k < i { assert s[k] != s[i]; }
    }
    assert Pick(data', s) == ss[k := x];
  }

  /** Position `p` is byte `o` of block `k`. */
  ghost predicate At(p: int, k: int, o: int, w: int) {
    0 <= k && 0 <= o < w && p == k * w + o
  }

  lemma AtPosition(p: nat, w: nat)
    requires 0 < w
    ensures At(p, p / w, p % w, w)
  {
  }

  lemma AtNext(p: int, k: int, o: int, w: int)
    requires At(p, k, o, w)
    ensures At(p + (w - o), k + 1, 0, w)
  {
  }

  /** Inside the body means inside one of its clusters, and conversely. */
  lemma AtBody(data: seq<seq<byte>>, s: Chain, w: nat, p: int, k: int, o: int)
    requires InData(data, s) && Sized(data, w) && At(p, k, o, w)
    ensures k < |s| <==> p < |Body(data, s)|
    ensures k == |s| && o == 0 ==> p == |Body(data, s)|
    ensures k < |s| ==> p - o + w <= |Body(data, s)|
  {
    BodyLength(data, s, w);
    if k < |s| { MulStep(k, |s|, w); } else { MulMono(|s|, k, w); }
  }

  lemma SliceSlice<T>(s: seq<T>, b: nat, w: nat, o: nat, n: nat)
    requires b + w <= |s| && o + n <= w
    ensures s[b..b + w][o..o + n] == s[b + o..b + o + n]
  {
    var u, v := s[b..b + w][o..o + n], s[b + o..b + o + n];
    assert forall i :: 0 <= i < n ==> u[i] == v[i];
  }

  lemma AtRead(data: seq<seq<byte>>, s: Chain, w: nat, p: int, k: int, o: int, n: nat)
    requires InData(data, s) && Sized(data, w) && At(p, k, o, w) && k < |s| && o + n <= w
    ensures 0 <= p && p + n <= |Body(data, s)|
    ensures Body(data, s)[p..p + n] == data[s[k]][o..o + n]
  {
    BodyBlock(data, s, w, k);
    MulMono(0, k, w);
    SliceSlice(Body(data, s), k * w, w, o, n);
  }

  lemma ChainDistinct(fat: seq<int>, s: Chain)
    requires Small(fat) && IsChain(fat, s)
    ensures Distinct(s)
  {
    forall i, j | 0 <= i < j < |s| ensures s[i] != s[j] { ChainAcyclic(fat, s, i, j); }
  }

  lemma SpliceEmpty<T>(s: seq<T>, p: nat)
    requires p <= |s|
    ensures Splice(s, p, []) == s
  {
  }

  lemma SpliceGrow<T>(s: seq<T>, p: nat, d: seq<T>, t: seq<T>)
    requires p + |d| <= |s|
    ensures Splice(s, p, d) + t == Splice(s + t, p, d)
  {
  }
}
