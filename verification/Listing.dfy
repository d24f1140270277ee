/** Enumerating a directory by index. */
module Listing {
  import opened Bytes
  import opened Volume
  import opened Chains
  import opened Contents
  import opened Names
  import opened Slots
  import opened Directory

  /** The first live slot at or after `k` that the scan can see, or -1. */
  function NextLive(b: seq<byte>, k: nat): (r: int)
    ensures r == -1 || k <= r < Count(b)
    decreases Count(b) - k
  {
    if k >= Count(b) || End(SlotAt(b, k)) then -1
    else if Live(SlotAt(b, k)) then k
    else NextLive(b, k + 1)
  }

  datatype Info = Info(name: seq<byte>, size: u32, attr: byte, first: u32)

  function InfoOf(s: Slot): (r: Info)
    ensures r.name == Display(s[..11]) && r.attr == s[11]
    ensures r.size == Word(s[28], s[29], s[30], s[31]) && r.first == Word(s[26], s[27], s[20], s[21])
  {
    SlotFields(s);
    Info(Display(NameOf(s)), SizeOf(s), s[11], FirstOf(s))
  }

  /** From any cluster: `s` is the trail that a scan from there follows. */
  method ReadDir(vol: Vol, dir: u32, index: u32, ghost s: Chain) returns (r: int, info: Info, index': u32)
    requires vol.Valid() && Small(vol.fat) && IsTrail(vol.fat, s, dir)
    ensures InData(vol.data, s)
    ensures r == if NextLive(Body(vol.data, s), index) >= 0 then 0 else -1
    ensures r == 0 ==>
              && info == InfoOf(SlotAt(Body(vol.data, s), NextLive(Body(vol.data, s), index)))
              && index' == Wrap32(index as int + 1)
    ensures r == -1 ==> index' == index
  {
    hide Volume.Refines, Body, Contents.At, IsTrail, SlotAt, Count, InfoOf, Volume.Geometry.Bpc, NextLive;
    TrailInData(vol, s, dir);
    var bpc := vol.geo.Bpc();
    var count := bpc / 32;
    IndexAt(index, bpc);
    ghost var i: nat := index / count;
    var c := SkipWalk(vol, dir, index / count, s);
    var start: nat := index % count;
    ghost var base: nat := index - start;
    while c >= 2 && c < EOC_MIN
      invariant i < |s| ==> c == s[i] && vol.geo.InRange(c)
      invariant i >= |s| ==> !InTable(vol.fat, c)
      invariant At(32 * base, i, 0, bpc) && 32 * start <= bpc
      invariant NextLive(Body(vol.data, s), base + start) == NextLive(Body(vol.data, s), index)
      decreases |s| - i
    {
      var st, buf := vol.ReadCluster(c);
      if st != 0 {
        PastEnd(vol.data, s, bpc, base, start, i);
        return -1, Info([], 0, 0, 0), index;
      }
      var j := ScanLive(vol, buf, start, s, i, base);
      if 32 * j < bpc {
        var entry: Slot := buf[32 * j..32 * j + 32];
        if entry[0] == 0 { return -1, Info([], 0, 0, 0), index; }
        var name := DisplayName(entry[..11]);
        InfoIs(entry);
        return 0, Info(name, SizeOf(entry), entry[11], FirstOf(entry)), Wrap32(index as int + 1);
      }
      start := 0;
      AtNext(32 * base, i, 0, bpc);
      base := base + j;
      TrailNext(vol.fat, s, dir, i);
      c := vol.ReadFat(c);
      i := i + 1;
    }
    PastEnd(vol.data, s, bpc, base, start, i);
    return -1, Info([], 0, 0, 0), index;
  }

  /** The first slot from `start` on that ends the scan of one cluster: a live slot or
      a never-used one; `bpc / 32` if there is none. */
  method ScanLive(vol: Vol, buf: seq<byte>, start: nat, ghost s: Chain, ghost i: nat, ghost base: nat) returns (j: nat)
    requires vol.Valid() && InData(vol.data, s) && i < |s| && vol.geo.InRange(s[i]) && buf == vol.data[s[i]]
    requires At(32 * base, i, 0, vol.geo.Bpc()) && 32 * start <= vol.geo.Bpc()
    ensures 32 * j <= vol.geo.Bpc() && |buf| == vol.geo.Bpc()
    ensures NextLive(Body(vol.data, s), base + start) == NextLive(Body(vol.data, s), base + j)
    ensures 32 * j < vol.geo.Bpc() ==> 32 * j + 32 <= vol.geo.Bpc() && base + j < Count(Body(vol.data, s))
    ensures 32 * j < vol.geo.Bpc() ==> SlotAt(Body(vol.data, s), base + j) == buf[32 * j..32 * j + 32]
    ensures 32 * j < vol.geo.Bpc() ==>
              NextLive(Body(vol.data, s), base + j) == if buf[32 * j] == 0 then -1 else base + j
  {
    hide Volume.Refines, Body, Contents.At;
    var bpc := vol.geo.Bpc();
    j := start;
    while j < bpc / 32
      invariant j <= bpc / 32
      invariant NextLive(Body(vol.data, s), base + start) == NextLive(Body(vol.data, s), base + j)
    {
      SlotInCluster(vol.data, s, bpc, base, i, j);
      var entry: Slot := buf[32 * j..32 * j + 32];
      if entry[0] == 0 { return; }
      if entry[0] != DELETED && entry[11] != ATTR_LFN { return; }
      j := j + 1;
    }
  }

  lemma InfoIs(s: Slot)
    ensures InfoOf(s) == Info(Display(s[..11]), SizeOf(s), s[11], FirstOf(s))
  {
  }

  lemma PastEnd(data: seq<seq<byte>>, s: Chain, w: nat, base: nat, start: nat, i: int)
    requires InData(data, s) && Sized(data, w) && At(32 * base, i, 0, w) && i >= |s|
    ensures NextLive(Body(data, s), base + start) == -1
  {
    AtBody(data, s, w, 32 * base, i, 0);
  }

  lemma IndexAt(index: nat, w: nat)
    requires 0 < w && w % 32 == 0
    ensures 0 < w / 32 && At(32 * (index - index % (w / 32)), index / (w / 32), 0, w) && 32 * (index % (w / 32)) <= w
    ensures 0 <= index % (w / 32) <= index && 0 <= index / (w / 32)
  {
  }

  /** Walks `skip` links; past the end of the trail the walk is stuck outside the table. */
  method SkipWalk(vol: Vol, first: u32, skip: nat, ghost s: Chain) returns (c: u32)
    requires vol.Valid() && Small(vol.fat) && IsTrail(vol.fat, s, first)
    ensures skip < |s| ==> c == s[skip] && vol.geo.InRange(c)
    ensures skip >= |s| ==> !InTable(vol.fat, c)
  {
    hide Volume.Refines, IsTrail;
    TrailInData(vol, s, first);
    c := first;
    var i := 0;
    while i < skip && c >= 2
      invariant 0 <= i <= skip
      invariant i < |s| ==> c == s[i] && vol.geo.InRange(c)
      invariant i >= |s| ==> !InTable(vol.fat, c)
    {
      if i < |s| { TrailNext(vol.fat, s, first, i); }
      c := vol.ReadFat(c);
      i := i + 1;
    }
  }

  /** The slots reported by calls with indices `k`, `k + 1`, ... until one fails. */
  function Reported(b: seq<byte>, k: nat): seq<int>
    decreases Count(b) - k
  {
    if NextLive(b, k) < 0 then [] else [NextLive(b, k)] + Reported(b, k + 1)
  }

  /** What calls with indices 0, 1, ... below `n` return. */
  ghost predicate Lists(b: seq<byte>, infos: seq<Info>, n: nat) {
    && |infos| == n
    && forall i: nat :: i < n ==> NextLive(b, i) >= 0 && infos[i] == InfoOf(SlotAt(b, NextLive(b, i)))
  }

  /** The root's listing: what it prints is what the calls report, until one fails. */
  method ListDir(vol: Vol, ghost s: Chain) returns (infos: seq<Info>)
    requires vol.Valid() && Small(vol.fat) && IsTrail(vol.fat, s, vol.root)
    requires InData(vol.data, s) && Count(Body(vol.data, s)) < TWO32
    ensures |infos| == |Reported(Body(vol.data, s), 0)|
    ensures forall i :: 0 <= i < |infos| ==>
              var j := Reported(Body(vol.data, s), 0)[i];
              0 <= j < Count(Body(vol.data, s)) && infos[i] == InfoOf(SlotAt(Body(vol.data, s), j))
  {
    hide Volume.Refines, Body, IsTrail, SlotAt, Count, InfoOf, Vol.Valid, NextLive, Reported, Chains.Small, Lists;
    hide Wrap32;
    infos := [];
    var index: u32 := 0;
    ListsNone(Body(vol.data, s));
    while true
      invariant Lists(Body(vol.data, s), infos, index) && index <= Count(Body(vol.data, s))
      decreases Count(Body(vol.data, s)) - index
    {
      var r, info, next := ReadDir(vol, vol.root, index, s);
      if r != 0 { break; }
      ListsNext(Body(vol.data, s), infos, index, info);
      infos := infos + [info];
      index := next;
    }
    ListsAll(Body(vol.data, s), infos, index);
  }

  lemma ListsNone(b: seq<byte>)
    ensures Lists(b, [], 0)
  {
  }

  lemma ListsNext(b: seq<byte>, infos: seq<Info>, index: u32, info: Info)
    requires Lists(b, infos, index) && Count(b) < TWO32 && NextLive(b, index) >= 0
    requires info == InfoOf(SlotAt(b, NextLive(b, index)))
    ensures Wrap32(index as int + 1) == index + 1 <= Count(b) && Lists(b, infos + [info], index + 1)
  {
    hide NextLive, SlotAt, InfoOf, Count;
  }

  lemma ListsAll(b: seq<byte>, infos: seq<Info>, index: nat)
    requires Lists(b, infos, index) && NextLive(b, index) < 0
    ensures |infos| == |Reported(b, 0)|
    ensures forall i :: 0 <= i < |infos| ==>
              var j := Reported(b, 0)[i];
              0 <= j < Count(b) && infos[i] == InfoOf(SlotAt(b, j))
  {
    hide NextLive, SlotAt, InfoOf, Count, Reported;
    ReportedIs(b, 0, index);
  }

  lemma {:induction false} ReportedIs(b: seq<byte>, k: nat, n: nat)
    requires NextLive(b, k + n) < 0 && forall i: nat :: i < k + n ==> NextLive(b, i) >= 0
    ensures |Reported(b, k)| == n && forall i :: 0 <= i < n ==> Reported(b, k)[i] == NextLive(b, k + i)
    decreases n
  {
    hide NextLive;
    if n > 0 { ReportedIs(b, k + 1, n - 1); }
  }

  lemma {:induction false} NextLiveIs(b: seq<byte>, k: nat)
    ensures NextLive(b, k) >= 0 ==> Live(SlotAt(b, NextLive(b, k)))
    ensures forall j :: k <= j < Count(b) && Live(SlotAt(b, j)) && (forall i :: k <= i < j ==> !End(SlotAt(b, i))) ==>
              0 <= NextLive(b, k) <= j
    decreases Count(b) - k
  {
    if k < Count(b) && !End(SlotAt(b, k)) && !Live(SlotAt(b, k)) {
      NextLiveIs(b, k + 1);
    }
  }

  /** Every live slot of a well-kept directory is reported, at the call with its own index. */
  lemma {:induction false} AllReported(b: seq<byte>, k: nat, j: nat)
    requires ZeroTail(b) && k <= j < Count(b) && Live(SlotAt(b, j))
    ensures j - k < |Reported(b, k)| && Reported(b, k)[j - k] == j
    decreases j - k
  {
    hide SlotAt;
    NextLiveIs(b, k);
    assert forall i :: k <= i < j ==> !End(SlotAt(b, i));
    if k < j { AllReported(b, k + 1, j); }
  }

  /** Only live slots are reported, never out of order. */
  lemma {:induction false} ReportedOrdered(b: seq<byte>, k: nat)
    ensures forall i :: 0 <= i < |Reported(b, k)| ==>
              k + i <= Reported(b, k)[i] < Count(b) && Live(SlotAt(b, Reported(b, k)[i]))
    ensures forall i, j :: 0 <= i < j < |Reported(b, k)| ==> Reported(b, k)[i] <= Reported(b, k)[j]
    decreases Count(b) - k
  {
    if NextLive(b, k) >= 0 {
      var rest := Reported(b, k + 1);
      ReportedOrdered(b, k + 1);
      NextLiveIs(b, k);
      forall j | 0 <= j < |rest| ensures NextLive(b, k) <= rest[j] {
        if j == 0 { NextLiveMonotone(b, k); } else { assert rest[0] <= rest[j]; NextLiveMonotone(b, k); }
      }
    }
  }

  lemma {:induction false} NextLiveMonotone(b: seq<byte>, k: nat)
    ensures NextLive(b, k + 1) >= 0 && NextLive(b, k) >= 0 ==> NextLive(b, k) <= NextLive(b, k + 1)
  {
  }

  /** No slot before the last one in use is deleted or part of a long name. */
  ghost predicate Dense(b: seq<byte>) {
    forall i, j :: 0 <= i < j < Count(b) && Live(SlotAt(b, j)) ==> Live(SlotAt(b, i))
  }

  /** Enumeration reports every entry exactly once if and only if the directory is dense;
      otherwise an entry behind a gap is reported again for every slot of the gap. */
  lemma OnceIffDense(b: seq<byte>)
    requires ZeroTail(b)
    ensures Dense(b) <==> forall i, j :: 0 <= i < j < |Reported(b, 0)| ==> Reported(b, 0)[i] < Reported(b, 0)[j]
  {
    var r := Reported(b, 0);
    ReportedOrdered(b, 0);
    if Dense(b) {
      forall i | 0 <= i < |r| ensures r[i] == i {
        assert Live(SlotAt(b, r[i]));
        AllReported(b, 0, i);
      }
    }
    if !Dense(b) {
      var i, j :| 0 <= i < j < Count(b) && Live(SlotAt(b, j)) && !Live(SlotAt(b, i));
      AllReported(b, 0, j);
      assert r[j] == j && |r| > j;
      GapRepeats(b, i, j);
    }
  }

  /** The call at a slot that is not live repeats the answer of the next call. */
  lemma GapRepeats(b: seq<byte>, i: nat, j: nat)
    requires ZeroTail(b) && i < j < Count(b) && Live(SlotAt(b, j)) && !Live(SlotAt(b, i))
    ensures i + 1 < |Reported(b, 0)| && Reported(b, 0)[i] == Reported(b, 0)[i + 1]
  {
    AllReported(b, 0, j);
    ReportedAt(b, 0, i);
    ReportedAt(b, 0, i + 1);
    assert !End(SlotAt(b, i));
  }

  lemma {:induction false} ReportedAt(b: seq<byte>, k: nat, i: nat)
    requires i < |Reported(b, k)|
    ensures Reported(b, k)[i] == NextLive(b, k + i)
    decreases i
  {
    if i > 0 { ReportedAt(b, k + 1, i - 1); }
  }
}
