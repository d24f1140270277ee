/** Byte-level reads and writes through a file handle. */
module FileIo {
  import opened Bytes
  import opened Arith
  import opened Volume
  import opened Chains
  import opened Contents
  import opened ClusterOps

  /** `fat32_file_t`. */
  class File {
    var first: u32
    var current: u32
    var size: u32
    var position: u32
    var dirCluster: u32
    var dirOffset: u32
    var flags: byte
    var isOpen: bool
    var attr: byte

    constructor ()
      ensures !isOpen && first == 0 && size == 0 && position == 0
    {
      first, current, size, position := 0, 0, 0, 0;
      dirCluster, dirOffset, flags, isOpen, attr := 0, 0, 0, false, 0;
    }

    /** `memset(file, 0, sizeof(*file))`. */
    method Clear()
      modifies this
      ensures !isOpen && first == 0 && size == 0 && position == 0
    {
      first, current, size, position := 0, 0, 0, 0;
      dirCluster, dirOffset, flags, isOpen, attr := 0, 0, 0, false, 0;
    }
  }

  /** The chain behind a handle: none while the first cluster is 0. */
  ghost predicate HasChain(fat: seq<int>, first: int, s: Chain) {
    (first == 0 && s == []) || (IsChain(fat, s) && s[0] == first)
  }

  const SEEK_SET: byte := 0
  const SEEK_CUR: byte := 1
  const SEEK_END: byte := 2

  /** The position is set modulo 2^32 and never checked against the size. */
  method Seek(file: File, offset: int, whence: byte) returns (r: int)
    requires -0x8000_0000 <= offset < 0x8000_0000
    modifies file`position
    ensures r == 0 <==> file.isOpen && whence <= 2
    ensures r != 0 ==> r == -1 && file.position == old(file.position)
    ensures r == 0 && whence == 0 ==> file.position == Wrap32(offset)
    ensures r == 0 && whence == 1 ==> file.position == Wrap32(old(file.position) + offset)
    ensures r == 0 && whence == 2 ==> file.position == Wrap32(file.size + offset)
  {
    if !file.isOpen { return -1; }
    var base: int;
    if whence == SEEK_SET {
      base := 0;
    } else if whence == SEEK_CUR {
      base := file.position;
    } else if whence == SEEK_END {
      base := file.size;
    } else {
      return -1;
    }
    file.position := Wrap32(base + offset);
    return 0;
  }

  /** How many bytes a read delivers: the request is clamped to the recorded size
      in 32-bit arithmetic, then to what the chain holds. */
  function ReadCount(pos: u32, size: u32, fileSize: u32, avail: nat): (n: nat)
    requires fileSize <= avail
  {
    if pos >= fileSize then 0
    else
      var want := if Wrap32(pos as int + size) > fileSize then fileSize - pos else size;
      Min(want, avail - pos)
  }

  /** The promised count, min(size, fileSize - position), is delivered exactly
      when the sum does not wrap, or the chain has no slack behind the file. */
  lemma ReadCountExact(pos: u32, size: u32, fileSize: u32, avail: nat)
    requires fileSize <= avail
    ensures ReadCount(pos, size, fileSize, avail) == (if pos >= fileSize then 0 else Min(size, fileSize - pos))
      <==> pos >= fileSize || pos as int + size < TWO32 || avail == fileSize
  {
  }

  /** A wrapped request reads past the end of the file into the slack. */
  lemma ReadPastEnd()
    ensures ReadCount(1, 0xFFFF_FFFF, 10, 512) == 511
  {
  }

  lemma ReadStep(data: seq<seq<byte>>, s: Chain, w: nat, pos: nat, got: nat, k: nat, o: nat, n: nat, out: seq<byte>)
    requires InData(data, s) && Sized(data, w) && k < |s| && o + n <= w && At(pos + got, k, o, w)
    requires pos + got <= |Body(data, s)| && out == Body(data, s)[pos..pos + got]
    ensures pos + got + n <= |Body(data, s)| && |data[s[k]]| == w
    ensures out + data[s[k]][o..o + n] == Body(data, s)[pos..pos + got + n]
  {
    hide Body, At;
    AtRead(data, s, w, pos + got, k, o, n);
    var body := Body(data, s);
    assert body[pos..pos + got] + body[pos + got..pos + got + n] == body[pos..pos + got + n];
  }

  method Read(vol: Vol, file: File, size: u32, ghost s: Chain) returns (r: int, out: seq<byte>)
    requires vol.Valid() && HasChain(vol.fat, file.first, s)
    requires InData(vol.data, s) && file.size <= |Body(vol.data, s)|
    modifies file`position, file`current
    ensures !file.isOpen ==> r == -1 && file.position == old(file.position)
    ensures file.isOpen ==> r == |out| == ReadCount(old(file.position), size, file.size, |Body(vol.data, s)|)
    ensures file.isOpen && r > 0 ==> old(file.position) + r <= |Body(vol.data, s)|
    ensures file.isOpen && r > 0 ==> out == Body(vol.data, s)[old(file.position)..old(file.position) + r]
    ensures file.isOpen ==> file.position == Wrap32(old(file.position) + r)
  {
    hide Volume.Refines, Contents.Body, Contents.At, Volume.Geometry.Bpc, Volume.Geometry.Sane, Chains.IsChain;
    hide Bytes.Wrap32, Contents.Sized;
    if !file.isOpen { return -1, []; }
    WrapSmall(file.position);
    var pos: int, bpc := file.position, vol.geo.Bpc();
    ValidShape(vol);
    if pos >= file.size { return 0, []; }
    var rem: int := size;
    if Wrap32(pos + size) > file.size { rem := file.size - pos; }
    AtPosition(pos, bpc);
    AtBody(vol.data, s, bpc, pos, pos / bpc, pos % bpc);
    var cluster := SkipRead(vol, file.first, pos / bpc, s);
    file.current := cluster;
    out := ReadClusters(vol, file, rem, cluster, pos % bpc, pos, pos / bpc, s);
    r := |out|;
  }

  /** The copy loop: `start` is the k-th cluster of the chain, and position `pos` its byte `offset`. */
  method ReadClusters(vol: Vol, file: File, want: nat, start: u32, offset: nat, ghost pos: nat, ghost index: nat,
                      ghost s: Chain) returns (out: seq<byte>)
    requires vol.Valid() && IsChain(vol.fat, s) && InData(vol.data, s) && pos <= |Body(vol.data, s)|
    requires index < |s| && start == s[index] && offset < vol.geo.Bpc() && At(pos, index, offset, vol.geo.Bpc())
    requires file.position == Wrap32(pos)
    modifies file`position
    ensures |out| == Min(want, |Body(vol.data, s)| - pos)
    ensures out == Body(vol.data, s)[pos..pos + |out|]
    ensures file.position == Wrap32(pos + |out|)
  {
    hide Volume.Refines, Contents.Body, Contents.At, Volume.Geometry.Bpc, Volume.Geometry.Sane, Chains.IsChain;
    hide Bytes.Wrap32, Contents.Sized;
    ValidShape(vol);
    ghost var body := Body(vol.data, s);
    var bpc, cluster, rem, o := vol.geo.Bpc(), start, want, offset;
    ghost var k, got := index, 0;
    out := [];
    while rem > 0 && cluster >= 2 && cluster < EOC_MIN
      invariant 0 <= rem && got + rem == want && |out| == got
      invariant pos + got <= |body| && out == body[pos..pos + got]
      invariant file.position == Wrap32(pos + got)
      invariant rem > 0 ==> At(pos + got, k, o, bpc) && 0 <= o < bpc && 0 <= k <= |s|
      invariant rem > 0 && k < |s| ==> cluster == s[k]
      invariant rem > 0 && k == |s| ==> cluster >= EOC_MIN && pos + got == |body|
    {
      var ok, buf := vol.ReadCluster(cluster);
      if ok != 0 { break; }
      var n := bpc - o;
      if n > rem { n := rem; }
      ReadStep(vol.data, s, bpc, pos, got, k, o, n, out);
      out := out + buf[o..o + n];
      PositionStep(pos, got, n);
      got := got + n;
      rem := rem - n;
      file.position := Wrap32(file.position as int + n);
      if rem > 0 {
        AtNext(pos + got - n, k, o, bpc);
        ChainNext(vol.fat, s, k);
        cluster := vol.ReadFat(cluster);
        k := k + 1;
        AtBody(vol.data, s, bpc, pos + got, k, 0);
      }
      o := 0;
    }
  }

  lemma ChainNext(fat: seq<int>, s: Chain, k: nat)
    requires IsChain(fat, s) && k < |s|
    ensures 2 <= s[k] < |fat| && (k + 1 < |s| ==> 2 <= s[k + 1] < |fat|)
    ensures if k + 1 < |s| then fat[s[k]] == s[k + 1] else fat[s[k]] >= EOC_MIN
  {
  }

  lemma ChainHead(fat: seq<int>, own: map<int, Chain>, h: int)
    requires AllChains(fat, own) && h in own
    ensures |own[h]| > 0 && own[h][0] == h && 2 <= h < |fat|
  {
  }

  lemma ValidShape(vol: Vol)
    requires vol.Valid()
    ensures 0 < vol.geo.Bpc() && Sized(vol.data, vol.geo.Bpc()) && |vol.fat| == |vol.data| == vol.geo.totalClusters + 2
  {
    hide Volume.Refines;
  }

  lemma WrapSmall(x: u32)
    ensures Wrap32(x) == x
  {
  }

  lemma PositionStep(pos: nat, got: nat, n: nat)
    ensures Wrap32(Wrap32(pos + got) as int + n) == Wrap32(pos + got + n)
  {
  }

  /** Walks `skip` links of a chain that is long enough. */
  method SkipRead(vol: Vol, first: u32, skip: nat, ghost s: Chain) returns (cluster: u32)
    requires vol.Valid() && IsChain(vol.fat, s) && s[0] == first && skip < |s|
    ensures cluster == s[skip]
  {
    hide Volume.Refines;
    cluster := first;
    var i := 0;
    while i < skip && cluster >= 2
      invariant 0 <= i <= skip && cluster == s[i]
    {
      cluster := vol.ReadFat(cluster);
      i := i + 1;
    }
  }

  /** Chain `h` grew out of `s0` by clusters that were free in `fat0`; no other
      chain and no other table entry changed. */
  ghost predicate Grown(fat0: seq<int>, own0: map<int, Chain>, s0: Chain, fat: seq<int>, own: map<int, Chain>, h: int) {
    && h in own && own == own0[h := own[h]] && |fat| == |fat0|
    && s0 <= own[h]
    && (forall i :: |s0| <= i < |own[h]| ==> IsFree(fat0, own[h][i]))
    && (forall c :: 0 <= c < |fat0| && c !in own[h] ==> fat[c] == fat0[c])
  }

  ghost predicate SameOutside(data0: seq<seq<byte>>, data: seq<seq<byte>>, s: Chain) {
    |data| == |data0| && forall c :: 0 <= c < |data0| && c !in s ==> data[c] == data0[c]
  }

  /** The first `got` bytes of `buf` have reached position `pos` of chain `s`. */
  ghost predicate Written(data0: seq<seq<byte>>, data: seq<seq<byte>>, s: Chain, pos: nat, buf: seq<byte>, got: nat) {
    && InData(data0, s) && SameOutside(data0, data, s)
    && got <= |buf| && pos + got <= |Body(data0, s)|
    && Body(data, s) == Splice(Body(data0, s), pos, buf[..got])
  }

  lemma GrownSame(fat: seq<int>, own: map<int, Chain>, h: int)
    requires h in own
    ensures Grown(fat, own, own[h], fat, own, h)
  {
  }

  lemma GrownNew(fat: seq<int>, own: map<int, Chain>, c: int)
    requires IsFree(fat, c)
    ensures Grown(fat, own, [], fat[c := EOC_MAX], own[c := [c]], c)
  {
  }

  lemma GrownAppend(fat0: seq<int>, own0: map<int, Chain>, s0: Chain, fat: seq<int>, own: map<int, Chain>,
                    owner: seq<int>, h: int, c: int)
    requires Grown(fat0, own0, s0, fat, own, h) && Owned(fat, own, owner) && IsFree(fat, c)
    ensures var tail := own[h][|own[h]| - 1];
            InTable(fat, tail) && IsFree(fat0, c) && c !in own[h] &&
            Grown(fat0, own0, s0, fat[c := EOC_MAX][tail := c], own[h := own[h] + [c]], h)
  {
  }

  lemma WrittenGrow(data0: seq<seq<byte>>, data: seq<seq<byte>>, s: Chain, pos: nat, buf: seq<byte>, got: nat, c: int)
    requires Written(data0, data, s, pos, buf, got) && 2 <= c < |data0| && c !in s
    ensures Written(data0, data, s + [c], pos, buf, got)
  {
    BodySnoc(data0, s, c);
    BodySnoc(data, s, c);
    SpliceGrow(Body(data0, s), pos, buf[..got], data0[c]);
    forall x | 0 <= x < |data0| && x !in s + [c] ensures data[x] == data0[x] {
      forall i | 0 <= i < |s| ensures s[i] != x { assert (s + [c])[i] == s[i]; }
    }
  }

  lemma WrittenStep(data0: seq<seq<byte>>, data: seq<seq<byte>>, s: Chain, w: nat, pos: nat, buf: seq<byte>, got: nat,
                    k: int, o: int, n: nat)
    requires Written(data0, data, s, pos, buf, got) && Sized(data, w) && Distinct(s)
    requires At(pos + got, k, o, w) && k < |s| && o + n <= w && got + n <= |buf|
    ensures Written(data0, data[s[k] := Splice(data[s[k]], o, buf[got..got + n])], s, pos, buf, got + n)
  {
    var d := buf[got..got + n];
    BodyWrite(data, s, w, k, o, d);
    assert buf[..got] + d == buf[..got + n];
    SpliceTwice(Body(data0, s), pos, buf[..got], d);
    forall x | 0 <= x < |data0| && x !in s ensures data[s[k] := Splice(data[s[k]], o, d)][x] == data0[x] {
      assert s[k] in s;
    }
  }

  /** The cluster after `cluster`, the k-th of chain `first`; allocates and links
      a new one at the end of the chain. Returns 0 when no cluster is free. */
  method NextCluster(vol: Vol, first: u32, cluster: u32, ghost k: nat, ghost fat0: seq<int>, ghost own0: map<int,
                     Chain>, ghost s0: Chain)
    returns (next: u32)
    requires Sound(vol) && Grown(fat0, own0, s0, vol.fat, vol.own, first)
    requires k < |vol.own[first]| && cluster == vol.own[first][k]
    modifies vol`disk, vol`fat, vol`nextFree, vol`own, vol`owner
    ensures Sound(vol) && Grown(fat0, own0, s0, vol.fat, vol.own, first)
    ensures next == 0 ==> FreeSet(vol.fat) == {} && vol.own == old(vol.own) && k + 1 == |vol.own[first]|
    ensures next != 0 ==> 2 <= next < |vol.fat| && k + 1 < |vol.own[first]| && next == vol.own[first][k + 1]
    ensures next != 0 ==> if k + 1 < |old(vol.own)[first]| then vol.own == old(vol.own)
              else next !in old(vol.own)[first] && vol.own[first] == old(vol.own)[first] + [next]
  {
    hide Volume.Refines, Chains.IsChain, Chains.Labelled, Chains.Covered;
    ChainNext(vol.fat, vol.own[first], k);
    next := vol.ReadFat(cluster);
    if next >= EOC_MIN {
      next := Append(vol, first, cluster);
      if next != 0 {
        GrownAppend(fat0, own0, s0, old(vol.fat), old(vol.own), old(vol.owner), first, next);
      }
    }
  }

  lemma ZeroNotAHead(vol: Vol)
    requires Sound(vol)
    ensures 0 !in vol.own
  {
    hide Volume.Refines;
  }

  /** Position `p` lies at or behind the end of chain `s`. */
  ghost predicate UsedUp(s: Chain, w: nat, p: int) { |s| * w <= p }

  lemma UsedUpSkipping(s: Chain, w: nat, p: nat)
    requires 0 < w && |s| <= p / w
    ensures UsedUp(s, w, p)
  {
    MulMono(|s|, p / w, w);
  }

  lemma UsedUpAt(s: Chain, w: nat, p: int)
    requires At(p, |s|, 0, w)
    ensures UsedUp(s, w, p)
  {
  }

  /** The clusters a chain needs for a write of `n` bytes at `p`; the walk to `p` asks for its cluster also when
      there is nothing to write. */
  function Reaching(p: nat, n: nat, w: nat): (k: nat)
    requires 0 < w
    ensures k > p / w
  {
    if n == 0 then p / w + 1 else ReachesFurther(p, n, w); (p + n - 1) / w + 1
  }

  lemma ReachesFurther(p: nat, n: nat, w: nat)
    requires 0 < w && n > 0
    ensures p / w <= (p + n - 1) / w
  {
    AtPosition(p, w);
    AtPosition(p + n - 1, w);
    if (p + n - 1) / w < p / w { MulStep((p + n - 1) / w, p / w, w); }
  }

  /** Chain `s0` became as long as a write of `n` bytes at `p` asks for and no longer, or ran out of clusters. */
  ghost predicate Stretched(s0: Chain, s: Chain, p: nat, n: nat, w: nat, full: bool)
    requires 0 < w
  {
    |s| == Max(|s0|, Reaching(p, n, w)) || (full && |s0| <= |s| < Reaching(p, n, w))
  }

  /** The last `m` bytes of the write went to the k-th cluster. */
  lemma StretchedLast(s0: Chain, s: Chain, p: nat, n: nat, m: nat, k: int, o: int, w: nat)
    requires 0 < w && 0 < m <= n && At(p + n - m, k, o, w) && o + m <= w && |s| == Max(|s0|, k + 1)
    ensures Stretched(s0, s, p, n, w, false)
  {
    AtPosition(p + n - 1, w);
    BlockUnique((p + n - 1) / w, (p + n - 1) % w, k, o + m - 1, w);
  }

  lemma StretchedNone(s: Chain, p: nat, k: int, o: int, w: nat)
    requires At(p, k, o, w) && 0 <= o < w && k < |s|
    ensures Stretched(s, s, p, 0, w, false)
  {
    AtPosition(p, w);
    BlockUnique(p / w, p % w, k, o, w);
  }

  lemma StretchedSkipping(s0: Chain, s: Chain, p: nat, n: nat, w: nat)
    requires 0 < w && |s0| <= |s| <= p / w
    ensures Stretched(s0, s, p, n, w, true)
  {
  }

  /** First a cluster if there was none, then as far as `p`, then as far as the data. */
  lemma StretchedTwice(s0: Chain, s1: Chain, s2: Chain, s: Chain, p: nat, n: nat, w: nat, full: bool, full': bool)
    requires 0 < w && |s1| == Max(|s0|, 1) && |s2| == Max(|s1|, p / w + 1) && Stretched(s2, s, p, n, w, full)
    requires full ==> full'
    ensures Stretched(s0, s, p, n, w, full')
  {
  }

  /** A chain used up with bytes left to write is shorter than the write asks for. */
  lemma StretchedShort(s0: Chain, s: Chain, p: nat, n: nat, got: nat, k: int, w: nat)
    requires 0 < w && got < n && At(p + got, k + 1, 0, w) && |s| == k + 1 >= |s0|
    ensures Stretched(s0, s, p, n, w, true)
  {
    AtPosition(p + n - 1, w);
    if (p + n - 1) / w < k + 1 { MulStep((p + n - 1) / w, k + 1, w); }
  }

  /** Walks `skip` links, growing the chain where it is too short. */
  method SkipWrite(vol: Vol, first: u32, skip: nat, ghost fat0: seq<int>, ghost own0: map<int, Chain>, ghost s0: Chain)
    returns (ok: bool, cluster: u32)
    requires Sound(vol) && Grown(fat0, own0, s0, vol.fat, vol.own, first)
    modifies vol`disk, vol`fat, vol`nextFree, vol`own, vol`owner
    ensures Sound(vol) && Grown(fat0, own0, s0, vol.fat, vol.own, first)
    ensures ok ==> 2 <= cluster < |vol.fat| && skip < |vol.own[first]| && cluster == vol.own[first][skip]
    ensures !ok ==> FreeSet(vol.fat) == {} && |vol.own[first]| <= skip
    ensures ok ==> |vol.own[first]| == Max(|old(vol.own)[first]|, skip + 1)
    ensures |vol.own[first]| >= |old(vol.own)[first]|
  {
    hide Volume.Refines, Chains.IsChain, Chains.Labelled, Chains.Covered;
    cluster := first;
    var i := 0;
    ChainHead(vol.fat, vol.own, first);
    while i < skip && cluster >= 2
      invariant Sound(vol) && Grown(fat0, own0, s0, vol.fat, vol.own, first)
      invariant 0 <= i <= skip && i < |vol.own[first]| && 2 <= cluster < |vol.fat| && cluster == vol.own[first][i]
      invariant |vol.own[first]| == Max(|old(vol.own)[first]|, i + 1)
    {
      cluster := NextCluster(vol, first, cluster, i, fat0, own0, s0);
      if cluster == 0 { return false, 0; }
      i := i + 1;
    }
    ok := true;
  }

  lemma SoundShape(vol: Vol)
    requires Sound(vol)
    ensures vol.Valid() && 0 < vol.geo.Bpc() && |vol.fat| == vol.geo.totalClusters + 2
  {
    hide Volume.Refines;
  }

  /** Gives a file without clusters its first one. */
  method Begin(vol: Vol, file: File) returns (ok: bool)
    requires Sound(vol) && (file.first == 0 || file.first in vol.own)
    modifies vol`disk, vol`fat, vol`nextFree, vol`own, vol`owner, file`first, file`current
    ensures Sound(vol)
    ensures !ok <==> old(file.first) == 0 && FreeSet(old(vol.fat)) == {}
    ensures !ok ==> vol.fat == old(vol.fat) && vol.own == old(vol.own) && file.first == old(file.first)
    ensures ok && old(file.first) != 0 ==> file.first == old(file.first)
    ensures ok ==>
              Grown(old(vol.fat), old(vol.own), OwnAt(old(vol.own), old(file.first)), vol.fat, vol.own, file.first)
    ensures ok ==> |OwnAt(vol.own, file.first)| == Max(|OwnAt(old(vol.own), old(file.first))|, 1)
  {
    hide Volume.Refines, Chains.FreeSet, Grown, Chains.Labelled, Chains.Covered;
    assert 0 !in vol.own by { ZeroNotAHead(vol); }
    ghost var fat0, own0 := vol.fat, vol.own;
    if file.first == 0 {
      file.first := NewChain(vol);
      if file.first == 0 { return false; }
      file.current := file.first;
      GrownNew(fat0, own0, file.first);
    } else {
      GrownSame(fat0, own0, file.first);
      ChainHead(fat0, own0, file.first);
    }
    ok := true;
  }

  method Write(vol: Vol, file: File, buf: seq<byte>) returns (r: int)
    requires Sound(vol) && (file.first == 0 || file.first in vol.own)
    requires file.position as int + |buf| < TWO32
    modifies vol`disk, vol`fat, vol`nextFree, vol`own, vol`owner, vol`data
    modifies file`first, file`current, file`size, file`position
    ensures Sound(vol)
    ensures r == -1 || 0 <= r <= |buf|
    ensures r == -1 <==> !file.isOpen || (old(file.first) == 0 && FreeSet(old(vol.fat)) == {})
    ensures r == -1 ==> vol.fat == old(vol.fat) && vol.data == old(vol.data) && vol.own == old(vol.own)
    ensures r == -1 ==>
              file.first == old(file.first) && file.size == old(file.size) && file.position == old(file.position)
    ensures r >= 0 ==> old(file.first) != 0 ==> file.first == old(file.first)
    ensures r >= 0 ==>
              Grown(old(vol.fat), old(vol.own), OwnAt(old(vol.own), old(file.first)), vol.fat, vol.own, file.first)
    ensures r == 0 ==> vol.data == old(vol.data)
    ensures r > 0 ==> Written(old(vol.data), vol.data, vol.own[file.first], old(file.position), buf, r)
    ensures 0 <= r < |buf| ==>
              FreeSet(vol.fat) == {} && UsedUp(OwnAt(vol.own, file.first), vol.geo.Bpc(), old(file.position) + r)
    ensures 0 < vol.geo.Bpc()
    ensures r >= 0 ==>
              Stretched(OwnAt(old(vol.own), old(file.first)), OwnAt(vol.own, file.first), old(file.position), |buf|,
                        vol.geo.Bpc(), FreeSet(vol.fat) == {} && (r < |buf| || |buf| == 0))
    ensures r >= 0 ==> file.position == old(file.position) + r
    ensures r >= 0 ==> file.size == if r > 0 then Max(old(file.size), old(file.position) + r) else old(file.size)
  {
    hide Volume.Refines, Chains.Owned, Contents.Body, Contents.At, Volume.Geometry.Bpc, Chains.FreeSet, Grown, Written;
    hide SameOutside, UsedUp, Stretched, Sound, Contents.Distinct, Chains.IsChain, Reaching;
    SoundShape(vol);
    if !file.isOpen { return -1; }
    ghost var fat0, own0, s0 := vol.fat, vol.own, OwnAt(vol.own, file.first);
    var begun := Begin(vol, file);
    if !begun { return -1; }
    var pos: int, bpc := file.position, vol.geo.Bpc();
    AtPosition(pos, bpc);
    GrownOwns(vol, fat0, own0, s0, file.first);
    ghost var s1 := vol.own[file.first];
    var ok, cluster := SkipWrite(vol, file.first, pos / bpc, fat0, own0, s0);
    GrownOwns(vol, fat0, own0, s0, file.first);
    SoundShape(vol);
    if !ok {
      UsedUpSkipping(vol.own[file.first], bpc, pos);
      StretchedSkipping(s0, vol.own[file.first], pos, |buf|, bpc);
      return 0;
    }
    ghost var s2 := vol.own[file.first];
    file.current := cluster;
    WrittenStart(vol, vol.own[file.first], pos, pos / bpc, pos % bpc, buf);
    r := WriteClusters(vol, file, buf, cluster, pos % bpc, pos / bpc, fat0, own0, s0);
    StretchedTwice(s0, s1, s2, vol.own[file.first], pos, |buf|, bpc, r < |buf|,
                   FreeSet(vol.fat) == {} && (r < |buf| || |buf| == 0));
  }

  /** Stores the next `n` bytes of `buf` into the k-th cluster of chain `s`. */
  method CopyBlock(vol: Vol, cluster: u32, stale: seq<byte>, o: nat, rem: nat, buf: seq<byte>, got: nat, n: nat,
                   ghost s: Chain, ghost k: nat, ghost data0: seq<seq<byte>>, ghost pos: nat) returns (block: seq<byte>)
    requires Sound(vol) && vol.geo.InRange(cluster) && |stale| == vol.geo.Bpc() && o < vol.geo.Bpc()
    requires k < |s| && cluster == s[k] && Distinct(s) && At(pos + got, k, o, vol.geo.Bpc())
    requires n == Min(vol.geo.Bpc() - o, rem) && got + n <= |buf| && Written(data0, vol.data, s, pos, buf, got)
    modifies vol`disk, vol`data
    ensures Sound(vol) && |block| == vol.geo.Bpc() && |vol.data| == |old(vol.data)|
    ensures Written(data0, vol.data, s, pos, buf, got + n)
  {
    hide Volume.Refines, Chains.Owned, Contents.Body, Contents.At, Volume.Geometry.Bpc, Written, Contents.Distinct;
    WrittenStep(data0, vol.data, s, vol.geo.Bpc(), pos, buf, got, k, o, n);
    block := PutBlock(vol, cluster, stale, o, rem, buf[got..got + n]);
  }

  /** From the end of the k-th cluster to the next one, which what was written so far does not notice. */
  method MoveOn(vol: Vol, h: u32, cluster: u32, ghost k: nat, ghost fat0: seq<int>, ghost own0: map<int, Chain>,
                ghost s0: Chain, ghost data0: seq<seq<byte>>, ghost pos: nat, ghost buf: seq<byte>, ghost got: nat)
    returns (next: u32)
    requires Sound(vol) && Grown(fat0, own0, s0, vol.fat, vol.own, h) && h in vol.own
    requires k < |vol.own[h]| && cluster == vol.own[h][k] && At(pos + got, k + 1, 0, vol.geo.Bpc())
    requires Written(data0, vol.data, vol.own[h], pos, buf, got) && |data0| == |vol.data|
    modifies vol`disk, vol`fat, vol`nextFree, vol`own, vol`owner
    ensures Sound(vol) && Grown(fat0, own0, s0, vol.fat, vol.own, h) && h in vol.own
    ensures Written(data0, vol.data, vol.own[h], pos, buf, got)
    ensures next == 0 ==> FreeSet(vol.fat) == {} && UsedUp(vol.own[h], vol.geo.Bpc(), pos + got)
    ensures next != 0 ==> k + 1 < |vol.own[h]| && next == vol.own[h][k + 1]
    ensures next != 0 ==> |vol.own[h]| == Max(|old(vol.own)[h]|, k + 2)
    ensures next == 0 ==> |vol.own[h]| == |old(vol.own)[h]| == k + 1
    ensures next != 0 ==> vol.geo.InRange(next) && Distinct(vol.own[h])
  {
    hide Volume.Refines, Chains.Owned, Contents.Body, Contents.At, Volume.Geometry.Bpc, Chains.FreeSet, Written;
    hide SameOutside, UsedUp, Contents.Distinct, Volume.Geometry.Sane, Contents.Sized;
    ghost var s := vol.own[h];
    next := NextCluster(vol, h, cluster, k, fat0, own0, s0);
    GrownOwns(vol, fat0, own0, s0, h);
    if next == 0 {
      UsedUpAt(vol.own[h], vol.geo.Bpc(), pos + got);
    } else if k + 1 == |s| {
      WrittenGrow(data0, vol.data, s, pos, buf, got, next);
    }
  }

  /** The copy loop: `cluster` is the k-th of the chain and `position` its byte `offset`. */
  method WriteClusters(vol: Vol, file: File, buf: seq<byte>, start: u32, offset: nat, ghost index: nat,
                       ghost fat0: seq<int>, ghost own0: map<int, Chain>, ghost s0: Chain)
    returns (got: nat)
    requires Sound(vol) && Grown(fat0, own0, s0, vol.fat, vol.own, file.first) && file.first in vol.own
    requires index < |vol.own[file.first]| && start == vol.own[file.first][index] && vol.geo.InRange(start)
    requires offset < vol.geo.Bpc() && At(file.position, index, offset, vol.geo.Bpc()) && Distinct(vol.own[file.first])
    requires Written(vol.data, vol.data, vol.own[file.first], file.position, buf, 0)
    requires file.position as int + |buf| < TWO32
    modifies vol`disk, vol`fat, vol`nextFree, vol`own, vol`owner, vol`data, file`size, file`position
    ensures Sound(vol) && Grown(fat0, own0, s0, vol.fat, vol.own, file.first) && file.first in vol.own
    ensures Written(old(vol.data), vol.data, vol.own[file.first], old(file.position), buf, got)
    ensures got == 0 ==> vol.data == old(vol.data)
    ensures got <= |buf| && (got < |buf| ==> FreeSet(vol.fat) == {})
    ensures got < |buf| ==> UsedUp(vol.own[file.first], vol.geo.Bpc(), old(file.position) + got)
    ensures Stretched(old(vol.own)[file.first], vol.own[file.first], old(file.position), |buf|, vol.geo.Bpc(),
                      got < |buf|)
    ensures file.position == old(file.position) + got
    ensures file.size == if got > 0 then Max(old(file.size), old(file.position) + got) else old(file.size)
  {
    hide Volume.Refines, Chains.Owned, Contents.Body, Contents.At, Volume.Geometry.Bpc, Chains.FreeSet, Grown, Written;
    hide SameOutside, UsedUp, Contents.Distinct, Sound, Stretched, Reaching, Vol.Valid;
    SoundShape(vol);
    var pos: int, bpc := file.position, vol.geo.Bpc();
    var h := file.first;
    var cluster, o, rem := start, offset, |buf|;
    ghost var k, s1 := index, vol.own[h];
    StretchedNone(s1, pos, index, offset, bpc);
    var block := StaleBuffer(bpc);
    got := 0;
    while rem > 0 && cluster >= 2
      invariant Sound(vol) && Grown(fat0, own0, s0, vol.fat, vol.own, h) && h in vol.own
      invariant |block| == bpc && 0 <= rem && got + rem == |buf| && |vol.data| == |old(vol.data)|
      invariant Written(old(vol.data), vol.data, vol.own[h], pos, buf, got)
      invariant got == 0 ==> vol.data == old(vol.data)
      invariant rem > 0 ==> At(pos + got, k, o, bpc) && 0 <= o < bpc && 0 <= k < |vol.own[h]|
      invariant rem > 0 ==> vol.geo.InRange(cluster) && cluster == vol.own[h][k] && Distinct(vol.own[h])
      invariant if rem > 0 then |vol.own[h]| == Max(|s1|, k + 1) else Stretched(s1, vol.own[h], pos, |buf|, bpc, false)
      invariant file.position == pos + got
      invariant file.size == if got > 0 then Max(old(file.size), pos + got) else old(file.size)
    {
      var n := bpc - o;
      if n > rem { n := rem; }
      block := CopyBlock(vol, cluster, block, o, rem, buf, got, n, vol.own[h], k, old(vol.data), pos);
      got := got + n;
      rem := rem - n;
      file.position := file.position + n;
      if file.position > file.size { file.size := file.position; }
      if rem > 0 {
        AtNext(pos + got - n, k, o, bpc);
        cluster := MoveOn(vol, h, cluster, k, fat0, own0, s0, old(vol.data), pos, buf, got);
        if cluster == 0 {
          StretchedShort(s1, vol.own[h], pos, |buf|, got, k, bpc);
          break;
        }
        k := k + 1;
      } else {
        StretchedLast(s1, vol.own[h], pos, |buf|, n, k, o, bpc);
      }
      o := 0;
    }
  }

  /** Overlays `chunk` at offset `o` of a cluster. The old contents are fetched only
      when the chunk does not cover the whole cluster. */
  method PutBlock(vol: Vol, cluster: u32, stale: seq<byte>, o: nat, rem: nat,
                  chunk: seq<byte>) returns (block: seq<byte>)
    requires vol.Valid() && vol.geo.InRange(cluster) && |stale| == vol.geo.Bpc()
    requires o < vol.geo.Bpc() && |chunk| == Min(vol.geo.Bpc() - o, rem)
    modifies vol`disk, vol`data
    ensures vol.Valid() && |block| == vol.geo.Bpc()
    ensures |old(vol.data)[cluster]| == vol.geo.Bpc()
    ensures vol.data == old(vol.data)[cluster := Splice(old(vol.data)[cluster], o, chunk)]
  {
    hide Volume.Refines, Volume.Geometry.Bpc;
    block := stale;
    if o > 0 || rem < vol.geo.Bpc() {
      var st;
      st, block := vol.ReadCluster(cluster);
    }
    block := Splice(block, o, chunk);
    assert block == Splice(vol.data[cluster], o, chunk);
    var _ := vol.WriteCluster(cluster, block);
  }

  /** The static cluster buffer holds whatever an earlier call left in it. */
  method StaleBuffer(n: nat) returns (b: seq<byte>)
    ensures |b| == n
  {
    b := Zeros(n);
  }

  lemma GrownOwns(vol: Vol, fat0: seq<int>, own0: map<int, Chain>, s0: Chain, h: int)
    requires Sound(vol) && Grown(fat0, own0, s0, vol.fat, vol.own, h)
    ensures h in vol.own && IsChain(vol.fat, vol.own[h]) && Distinct(vol.own[h])
  {
    hide Volume.Refines;
    ChainDistinct(vol.fat, vol.own[h]);
  }

  lemma WrittenStart(vol: Vol, s: Chain, pos: nat, k: int, o: int, buf: seq<byte>)
    requires vol.Valid() && IsChain(vol.fat, s) && At(pos, k, o, vol.geo.Bpc()) && k < |s|
    ensures Written(vol.data, vol.data, s, pos, buf, 0)
  {
    AtBody(vol.data, s, vol.geo.Bpc(), pos, k, o);
    assert buf[..0] == [];
    SpliceEmpty(Body(vol.data, s), pos);
  }
}
