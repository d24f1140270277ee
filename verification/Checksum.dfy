/** The Internet checksum (sections 1 and 2 of RFC 1071), over little-endian words. */
module Checksum {
  import opened Bytes

  /** Sum of the 16-bit words of `buf`; a last odd byte counts as a word of its own. */
  function WordSum(buf: seq<byte>): (s: nat)
    ensures s <= 0xFFFF * ((|buf| + 1) / 2)
    decreases |buf|
  {
    if |buf| == 0 then 0
    else if |buf| == 1 then buf[0]
    else Load16(buf, 0) + WordSum(buf[2..])
  }

  /** The 16-bit value congruent to `s` modulo 65535 that is 0 only for 0. */
  function Folded(s: nat): (r: u16)
  {
    if s == 0 then 0 else (s - 1) % 0xFFFF + 1
  }

  function ChecksumOf(buf: seq<byte>): u16 { 0xFFFF - Folded(WordSum(buf)) }

  lemma FoldStep(s: nat)
    ensures Folded(s % 0x1_0000 + s / 0x1_0000) == Folded(s)
  {
  }

  /** The sum is kept in 32 bits, which it must not overflow; no buffer of up to 131074
      bytes can. */
  method Checksum(buf: seq<byte>) returns (c: u16)
    requires WordSum(buf) < TWO32
    ensures c == ChecksumOf(buf)
  {
    var sum: nat, p := 0, 0;
    assert buf[0..] == buf;
    while |buf| - p > 1
      invariant 0 <= p <= |buf| && sum + WordSum(buf[p..]) == WordSum(buf)
    {
      assert buf[p..][2..] == buf[p + 2..];
      sum := sum + Load16(buf, p);
      p := p + 2;
    }
    if |buf| - p > 0 {
      sum := sum + buf[p];
      p := p + 1;
    }
    assert sum == WordSum(buf);
    while sum / 0x1_0000 != 0
      invariant Folded(sum) == Folded(WordSum(buf))
      decreases sum
    {
      FoldStep(sum);
      sum := sum % 0x1_0000 + sum / 0x1_0000;
    }
    c := 0xFFFF - sum;
  }

  /** A last odd byte counts as if a zero followed it (section 4.1 of RFC 1071). */
  lemma {:induction false} ChecksumPadded(buf: seq<byte>)
    requires |buf| % 2 == 1
    ensures ChecksumOf(buf + [0]) == ChecksumOf(buf)
  {
    PaddedSum(buf);
  }

  lemma {:induction false} PaddedSum(buf: seq<byte>)
    requires |buf| % 2 == 1
    ensures WordSum(buf + [0]) == WordSum(buf)
    decreases |buf|
  {
    if |buf| == 1 {
      assert WordSum((buf + [0])[2..]) == 0;
    } else {
      assert (buf + [0])[2..] == buf[2..] + [0];
      PaddedSum(buf[2..]);
    }
  }

  lemma {:induction false} WordSumAppend(a: seq<byte>, b: seq<byte>)
    requires |a| % 2 == 0
    ensures WordSum(a + b) == WordSum(a) + WordSum(b)
    decreases |a|
  {
    if |a| == 0 {
      assert a + b == b;
    } else {
      assert (a + b)[2..] == a[2..] + b;
      WordSumAppend(a[2..], b);
    }
  }

  /** Storing the checksum of a packet into its zeroed, word-aligned checksum field makes
      the packet's own checksum 0, so a receiver can verify it. */
  lemma ChecksumVerifies(buf: seq<byte>, o: nat)
    requires o % 2 == 0 && o + 2 <= |buf| && Load16(buf, o) == 0
    ensures ChecksumOf(Store16(buf, o, ChecksumOf(buf))) == 0
  {
    var c := ChecksumOf(buf);
    var out := Store16(buf, o, c);
    var a, b := buf[..o], buf[o + 2..];
    SplitSum(buf, o);
    SplitSum(out, o);
    assert out[..o] == a && out[o + 2..] == b;
    var s := WordSum(buf);
    assert WordSum(out) == s + c;
    FoldComplement(s);
  }

  lemma SplitSum(buf: seq<byte>, o: nat)
    requires o % 2 == 0 && o + 2 <= |buf|
    ensures WordSum(buf) == WordSum(buf[..o]) + Load16(buf, o) + WordSum(buf[o + 2..])
  {
    var t := buf[o..];
    assert buf == buf[..o] + t;
    WordSumAppend(buf[..o], t);
    assert t[2..] == buf[o + 2..] && Load16(t, 0) == Load16(buf, o);
  }

  lemma FoldComplement(s: nat)
    ensures Folded(s + (0xFFFF - Folded(s))) == 0xFFFF
  {
  }

  function Swap16(w: u16): u16 { w % 0x100 * 0x100 + w / 0x100 }

  /** The buffer with the two bytes of every word exchanged. */
  function SwapBytes(buf: seq<byte>): (r: seq<byte>)
    requires |buf| % 2 == 0
    ensures |r| == |buf|
    decreases |buf|
  {
    if |buf| == 0 then [] else [buf[1], buf[0]] + SwapBytes(buf[2..])
  }

  /** Byte order independence: swapping every word of the data swaps the checksum. */
  lemma ChecksumByteOrder(buf: seq<byte>)
    requires |buf| % 2 == 0
    ensures ChecksumOf(SwapBytes(buf)) == Swap16(ChecksumOf(buf))
  {
    hide WordSum, Folded, SwapBytes, Swap16;
    var q := SwappedSum(buf);
    SwapFolded(WordSum(buf), WordSum(SwapBytes(buf)), q);
    SwapComplement(Folded(WordSum(buf)));
  }

  lemma SwapComplement(f: u16)
    ensures Swap16(0xFFFF - f) == 0xFFFF - Swap16(f)
  {
  }

  function WordOf(lo: int, hi: int): int { lo + 0x100 * hi }

  lemma HeadWord(buf: seq<byte>)
    requires |buf| >= 2
    ensures WordSum(buf) == WordOf(buf[0], buf[1]) + WordSum(buf[2..])
  {
  }

  lemma SwapHead(buf: seq<byte>)
    requires |buf| % 2 == 0 && |buf| > 0
    ensures SwapBytes(buf)[0] == buf[1] && SwapBytes(buf)[1] == buf[0] && SwapBytes(buf)[2..] == SwapBytes(buf[2..])
  {
  }

  /** Swapping multiplies the sum by 256, up to a multiple of 65535. */
  lemma {:induction false} SwappedSum(buf: seq<byte>) returns (q: int)
    requires |buf| % 2 == 0
    ensures WordSum(SwapBytes(buf)) == 0x100 * WordSum(buf) + 0xFFFF * q
    ensures WordSum(SwapBytes(buf)) == 0 <==> WordSum(buf) == 0
    decreases |buf|
  {
    q := 0;
    if |buf| > 0 {
      SwapHead(buf);
      HeadWord(buf);
      HeadWord(SwapBytes(buf));
      hide WordSum, SwapBytes;
      q := SwappedSum(buf[2..]);
      q := q - buf[1];
    }
  }

  lemma SwapFolded(s: nat, t: nat, k: int)
    requires t == 0x100 * s + 0xFFFF * k && (t == 0 <==> s == 0)
    ensures Folded(t) == Swap16(Folded(s))
  {
    var f := Folded(s);
    if s > 0 {
      var q := (s - 1) / 0xFFFF;
      assert s == q * 0xFFFF + f;
      var hi, lo := f / 0x100, f % 0x100;
      assert Swap16(f) == lo * 0x100 + hi && f == 0x100 * hi + lo;
      assert 0x100 * f == Swap16(f) as int + 0xFFFF * hi;
      assert t == Swap16(f) as int + 0xFFFF * (hi + 0x100 * q + k);
      FoldedUnique(t, Swap16(f), hi + 0x100 * q + k);
    }
  }

  lemma FoldedUnique(t: nat, r: u16, m: int)
    requires t > 0 && r > 0 && t == r as int + 0xFFFF * m
    ensures Folded(t) == r
  {
  }
}
