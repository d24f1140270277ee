/** Equal-width blocks laid end to end: sectors in a cluster, clusters in a chain. */
module Flatten {
  import opened Bytes
  import opened Arith

  predicate Uniform<T>(ss: seq<seq<T>>, w: nat) {
    forall i :: 0 <= i < |ss| ==> |ss[i]| == w
  }

  function Flat<T>(ss: seq<seq<T>>): seq<T> {
    if |ss| == 0 then [] else Flat(ss[..|ss| - 1]) + ss[|ss| - 1]
  }

  lemma {:induction false} FlatLength<T>(ss: seq<seq<T>>, w: nat)
    requires Uniform(ss, w)
    ensures |Flat(ss)| == |ss| * w
  {
    if |ss| > 0 {
      FlatLength(ss[..|ss| - 1], w);
      assert |ss| * w == (|ss| - 1) * w + w;
    }
  }

  lemma FlatNone<T>()
    ensures Flat<T>([]) == []
  {
  }

  lemma FlatSnoc<T>(ss: seq<seq<T>>, s: seq<T>)
    ensures Flat(ss + [s]) == Flat(ss) + s
  {
  }

  lemma {:induction false} FlatAppend<T>(a: seq<seq<T>>, b: seq<seq<T>>)
    ensures Flat(a + b) == Flat(a) + Flat(b)
  {
    if |b| == 0 {
      assert a + b == a;
    } else {
      var b' := b[..|b| - 1];
      FlatAppend(a, b');
      assert a + b == (a + b') + [b[|b| - 1]];
      FlatSnoc(a + b', b[|b| - 1]);
    }
  }

  /** Block `k` sits at offset `k * w`. */
  lemma FlatBlock<T>(ss: seq<seq<T>>, w: nat, k: nat)
    requires Uniform(ss, w) && k < |ss|
    ensures |Flat(ss)| == |ss| * w
    ensures k * w + w <= |ss| * w
    ensures Flat(ss)[k * w..k * w + w] == ss[k]
  {
    hide Flat;
    FlatLength(ss, w);
    FlatSplit(ss, w, k, ss[k]);
    assert ss[k := ss[k]] == ss;
    MulStep(k, |ss|, w);
    MiddlePart(Flat(ss[..k]), ss[k], Flat(ss[k + 1..]));
  }

  lemma MiddlePart<T>(a: seq<T>, x: seq<T>, b: seq<T>)
    ensures (a + x + b)[|a|..|a| + |x|] == x
  {
  }

  /** Rewriting part of one block rewrites exactly that part of the whole. */
  lemma FlatSplice<T>(ss: seq<seq<T>>, w: nat, k: nat, o: nat, d: seq<T>)
    requires Uniform(ss, w) && k < |ss| && o + |d| <= w
    ensures |Flat(ss)| == |ss| * w
    ensures k * w + o + |d| <= |ss| * w
    ensures Flat(ss[k := Splice(ss[k], o, d)]) == Splice(Flat(ss), k * w + o, d)
  {
    var a, y, b := ss[..k], ss[k], ss[k + 1..];
    FlatBlock(ss, w, k);
    FlatSplit(ss, w, k, y);
    FlatSplit(ss, w, k, Splice(y, o, d));
    assert ss[k := y] == ss;
    SpliceMiddle(Flat(a), y, Flat(b), o, d);
  }

  lemma FlatSplit<T>(ss: seq<seq<T>>, w: nat, k: nat, x: seq<T>)
    requires Uniform(ss, w) && k < |ss|
    ensures |Flat(ss[..k])| == k * w
    ensures Flat(ss[k := x]) == Flat(ss[..k]) + x + Flat(ss[k + 1..])
  {
    var a, b := ss[..k], ss[k + 1..];
    FlatLength(a, w);
    assert ss[k := x] == (a + [x]) + b;
    FlatAppend(a + [x], b);
    FlatSnoc(a, x);
  }
}
