/** Machine words, little-endian fields inside byte buffers, and block copies. */
module Bytes {

  type byte = x: int | 0 <= x < 0x100
  type u16 = x: int | 0 <= x < 0x1_0000
  type u32 = x: int | 0 <= x < 0x1_0000_0000

  const TWO32: nat := 0x1_0000_0000

  /** Unsigned 32-bit wrap-around. */
  function Wrap32(x: int): (r: u32) { x % TWO32 }

  /** The effect of `memcpy(s + p, d, |d|)`. */
  function Splice<T>(s: seq<T>, p: nat, d: seq<T>): (r: seq<T>)
    requires p + |d| <= |s|
    ensures |r| == |s|
    ensures forall k :: 0 <= k < |s| ==> r[k] == if p <= k < p + |d| then d[k - p] else s[k]
  {
    s[..p] + d + s[p + |d|..]
  }

  /** What `memset(p, 0, n)` leaves in an n-byte buffer. */
  function Zeros(n: nat): (r: seq<byte>)
    ensures |r| == n && forall k :: 0 <= k < n ==> r[k] == 0
  {
    seq(n, _ => 0)
  }

  /** The 32-bit little-endian load at offset `o`. */
  function Load32(s: seq<byte>, o: nat): (v: u32)
    requires o + 4 <= |s|
  {
    var a: int, b: int, c: int, d: int := s[o], s[o + 1], s[o + 2], s[o + 3];
    a + 0x100 * b + 0x1_0000 * c + 0x100_0000 * d
  }

  function Load16(s: seq<byte>, o: nat): (v: u16)
    requires o + 2 <= |s|
  {
    var a: int, b: int := s[o], s[o + 1];
    a + 0x100 * b
  }

  function Le32(v: u32): (r: seq<byte>)
    ensures |r| == 4 && Load32(r, 0) == v
  {
    var a, b := v / 0x100, v / 0x100 / 0x100;
    [v % 0x100, a % 0x100, b % 0x100, b / 0x100]
  }

  function Le16(v: u16): (r: seq<byte>)
    ensures |r| == 2 && Load16(r, 0) == v
  {
    [v % 0x100, v / 0x100]
  }

  /** The 32-bit little-endian store at offset `o`. */
  function Store32(s: seq<byte>, o: nat, v: u32): (r: seq<byte>)
    requires o + 4 <= |s|
    ensures |r| == |s| && Load32(r, o) == v
    ensures forall k :: 0 <= k < |s| && !(o <= k < o + 4) ==> r[k] == s[k]
  {
    var d := Le32(v);
    var r := Splice(s, o, d);
    assert r[o] == d[0] && r[o + 1] == d[1] && r[o + 2] == d[2] && r[o + 3] == d[3];
    r
  }

  /** A store is seen by a load at the same place and by none clear of it. */
  lemma LoadStore(m: seq<byte>, a: nat, v: u32, b: nat)
    requires a + 4 <= |m| && b + 4 <= |m|
    ensures b == a ==> Load32(Store32(m, a, v), b) == v
    ensures b + 4 <= a || a + 4 <= b ==> Load32(Store32(m, a, v), b) == Load32(m, b)
  {
  }

  function Store16(s: seq<byte>, o: nat, v: u16): (r: seq<byte>)
    requires o + 2 <= |s|
    ensures |r| == |s| && Load16(r, o) == v
    ensures forall k :: 0 <= k < |s| && !(o <= k < o + 2) ==> r[k] == s[k]
  {
    var d := Le16(v);
    var r := Splice(s, o, d);
    assert r[o] == d[0] && r[o + 1] == d[1];
    r
  }

  lemma SpliceTwice<T>(s: seq<T>, p: nat, a: seq<T>, b: seq<T>)
    requires p + |a| + |b| <= |s|
    ensures Splice(Splice(s, p, a), p + |a|, b) == Splice(s, p, a + b)
  {
  }

  lemma SpliceMiddle<T>(a: seq<T>, y: seq<T>, b: seq<T>, o: nat, d: seq<T>)
    requires o + |d| <= |y|
    ensures Splice(a + y + b, |a| + o, d) == a + Splice(y, o, d) + b
  {
  }

  function Min(a: int, b: int): int { if a <= b then a else b }
  function Max(a: int, b: int): int { if a <= b then b else a }
}
