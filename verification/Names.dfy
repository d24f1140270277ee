/** Eight-dot-three names: from a path component to the 11 bytes of a slot, and back. */
module Names {
  import opened Bytes

  const SPACE: byte := 0x20
  const DOT: byte := 0x2E

  type Name11 = s: seq<byte> | |s| == 11 witness Zeros(11)

  function Up(c: byte): byte { if 0x61 <= c <= 0x7A then c - 32 else c }

  /** The same byte, or one letter in its two cases. */
  predicate SameLetter(a: byte, b: byte) {
    a == b || (0x61 <= a <= 0x7A && b == a - 32) || (0x61 <= b <= 0x7A && a == b - 32)
  }

  predicate Lower(c: byte) { 0x61 <= c <= 0x7A }

  /** Raising keeps the letter, leaves no lower case, and merges nothing but the two cases of a letter. */
  lemma UpIs(a: byte, b: byte)
    ensures SameLetter(a, Up(a)) && !Lower(Up(a))
    ensures Up(a) == Up(b) <==> SameLetter(a, b)
  {
  }

  /** Index of the last dot, or -1. */
  function LastDot(name: seq<byte>): (d: int)
    ensures -1 <= d < |name| && IsLastDot(name, d)
  {
    if |name| == 0 then -1
    else if name[|name| - 1] == DOT then |name| - 1
    else LastDot(name[..|name| - 1])
  }

  predicate IsLastDot(name: seq<byte>, d: int) {
    && -1 <= d < |name| && (d >= 0 ==> name[d] == 0x2E)
    && forall i :: d < i < |name| ==> name[i] != 0x2E
  }

  /** Byte `u` is byte `c` in upper case. */
  predicate Raised(c: byte, u: byte) { SameLetter(c, u) && !Lower(u) }

  /** The 11 bytes for a name whose last dot is at `d`: eight of the part before it and three of the part
      behind it, in upper case and padded with spaces. */
  ghost predicate IsShortName(name: seq<byte>, d: int, short: seq<byte>) {
    && IsLastDot(name, d) && |short| == 11
    && (forall k :: 0 <= k < 8 ==>
          if k < (if d < 0 then |name| else d) then Raised(name[k], short[k]) else short[k] == 0x20)
    && (forall k :: 8 <= k < 11 ==>
          if d >= 0 && d + k - 7 < |name| then Raised(name[d + k - 7], short[k]) else short[k] == 0x20)
  }

  function Stem(name: seq<byte>): seq<byte> { if LastDot(name) < 0 then name else name[..LastDot(name)] }

  function Extension(name: seq<byte>): seq<byte> { if LastDot(name) < 0 then [] else name[LastDot(name) + 1..] }

  /** The first `n` bytes of `s` in upper case, padded with spaces. */
  function Field(s: seq<byte>, n: nat): (r: seq<byte>)
    ensures |r| == n
  {
    seq(n, i requires 0 <= i < n => if i < |s| then Up(s[i]) else SPACE)
  }

  function ShortName(name: seq<byte>): Name11 { Field(Stem(name), 8) + Field(Extension(name), 3) }

  lemma RaisedIs(c: byte, u: byte)
    ensures Raised(c, u) <==> u == Up(c)
  {
  }

  lemma ShortNameByte(name: seq<byte>, k: nat)
    requires k < 11
    ensures ShortName(name)[k] == ByteOf(if k < 8 then Stem(name) else Extension(name), if k < 8 then k else k - 8)
  {
    hide Stem, Extension, Up;
  }

  /** Byte `k` of a padded field. */
  function ByteOf(s: seq<byte>, k: nat): byte { if k < |s| then Up(s[k]) else SPACE }

  /** `IsShortName` says it all. */
  lemma ShortNameMeans(name: seq<byte>)
    ensures IsShortName(name, LastDot(name), ShortName(name))
    ensures forall d, short: seq<byte> :: IsShortName(name, d, short) ==> short == ShortName(name)
  {
    hide *;
    ShortNameIsOne(name);
    forall d, short: seq<byte> | IsShortName(name, d, short) ensures short == ShortName(name) {
      ShortNameUnique(name, LastDot(name), d, ShortName(name), short);
    }
  }

  lemma ShortNameIsOne(name: seq<byte>)
    ensures IsShortName(name, LastDot(name), ShortName(name))
  {
    hide Up, ShortName, LastDot, Raised, IsLastDot;
    assert IsLastDot(name, LastDot(name));
    forall k | 0 <= k < 8
      ensures if k < (if LastDot(name) < 0 then |name| else LastDot(name)) then Raised(name[k], ShortName(name)[k])
              else ShortName(name)[k] == 0x20
    {
      StemByte(name, k);
    }
    forall k | 8 <= k < 11
      ensures if LastDot(name) >= 0 && LastDot(name) + k - 7 < |name|
              then Raised(name[LastDot(name) + k - 7], ShortName(name)[k]) else ShortName(name)[k] == 0x20
    {
      ExtensionByte(name, k);
    }
  }

  lemma StemByte(name: seq<byte>, k: nat)
    requires k < 8
    ensures if k < (if LastDot(name) < 0 then |name| else LastDot(name)) then Raised(name[k], ShortName(name)[k])
            else ShortName(name)[k] == 0x20
  {
    hide Up, ShortName, LastDot, Raised, IsLastDot;
    ShortNameByte(name, k);
    if k < |Stem(name)| { RaisedIs(name[k], ShortName(name)[k]); }
  }

  lemma ExtensionByte(name: seq<byte>, k: nat)
    requires 8 <= k < 11
    ensures if LastDot(name) >= 0 && LastDot(name) + k - 7 < |name|
            then Raised(name[LastDot(name) + k - 7], ShortName(name)[k]) else ShortName(name)[k] == 0x20
  {
    hide Up, ShortName, LastDot, Raised, IsLastDot;
    ShortNameByte(name, k);
    if k - 8 < |Extension(name)| { RaisedIs(name[LastDot(name) + k - 7], ShortName(name)[k]); }
  }

  lemma ShortNameUnique(name: seq<byte>, d: int, e: int, s: seq<byte>, short: seq<byte>)
    requires IsShortName(name, d, s) && IsShortName(name, e, short)
    ensures short == s
  {
    hide Up, Raised;
    assert d == e;
    forall k | 0 <= k < 11 ensures short[k] == s[k] {
      if k < 8 && k < (if d < 0 then |name| else d) {
        RaisedIs(name[k], s[k]);
        RaisedIs(name[k], short[k]);
      } else if k >= 8 && d >= 0 && d + k - 7 < |name| {
        RaisedIs(name[d + k - 7], s[k]);
        RaisedIs(name[d + k - 7], short[k]);
      }
    }
  }

  method ToShortName(name: seq<byte>) returns (short: seq<byte>)
    ensures short == ShortName(name) && IsShortName(name, LastDot(name), short)
  {
    hide Field, LastDot, Up, IsShortName, ShortName, IsLastDot;
    NoDot();
    assert name[..0] == [];
    short := seq(11, _ => SPACE);
    var dot, p := -1, 0;
    while p < |name|
      invariant 0 <= p <= |name| && dot == LastDot(name[..p])
    {
      LastDotNext(name, p);
      if name[p] == DOT { dot := p; }
      p := p + 1;
    }
    assert name[..|name|] == name;
    var nameLen := if dot >= 0 then dot else |name|;
    var extLen := if dot >= 0 then |name| - dot - 1 else 0;
    if nameLen > 8 { nameLen := 8; }
    if extLen > 3 { extLen := 3; }
    for i := 0 to nameLen
      invariant |short| == 11
      invariant forall k :: 0 <= k < 11 ==> short[k] == if k < i then Up(name[k]) else SPACE
    {
      short := short[i := Up(name[i])];
    }
    if dot >= 0 {
      for i := 0 to extLen
        invariant |short| == 11
        invariant forall k :: 0 <= k < 8 ==> short[k] == if k < nameLen then Up(name[k]) else SPACE
        invariant forall k :: 8 <= k < 11 ==> short[k] == if k < 8 + i then Up(name[dot + 1 + (k - 8)]) else SPACE
      {
        short := short[8 + i := Up(name[dot + 1 + i])];
      }
    }
    assert forall k :: 0 <= k < |Extension(name)| ==> Extension(name)[k] == name[dot + 1 + k];
    ShortNameIs(name, dot, short);
    ShortNameMeans(name);
  }

  lemma LastDotNext(name: seq<byte>, p: nat)
    requires p < |name|
    ensures LastDot(name[..p + 1]) == if name[p] == DOT then p else LastDot(name[..p])
  {
    assert name[..p + 1][..p] == name[..p];
  }

  lemma NoDot()
    ensures LastDot([]) == -1
  {
  }

  /** The 8.3 name, byte by byte. */
  lemma ShortNameIs(name: seq<byte>, dot: int, short: seq<byte>)
    requires dot == LastDot(name) && |short| == 11
    requires forall k :: 0 <= k < 8 ==> short[k] == if k < |Stem(name)| then Up(Stem(name)[k]) else SPACE
    requires forall k :: 8 <= k < 11 ==>
               short[k] == if k - 8 < |Extension(name)| then Up(Extension(name)[k - 8]) else SPACE
    ensures short == ShortName(name)
  {
    hide LastDot, Stem, Extension;
    var a, b := Field(Stem(name), 8), Field(Extension(name), 3);
    forall k | 0 <= k < 11 ensures short[k] == (a + b)[k] {
      assert k >= 8 ==> (a + b)[k] == b[k - 8];
    }
  }

  predicate SameIgnoringCase(a: seq<byte>, b: seq<byte>) {
    |a| == |b| && forall i :: 0 <= i < |a| ==> SameLetter(a[i], b[i])
  }

  /** Letter case never tells two names apart. */
  lemma ShortNameIgnoresCase(a: seq<byte>, b: seq<byte>)
    requires SameIgnoringCase(a, b)
    ensures ShortName(a) == ShortName(b)
  {
  }

  /** A name the 11 bytes have room for: eight and three characters, no spaces, no dot at the end. */
  predicate Fits(name: seq<byte>) {
    && 0x20 !in name && |Stem(name)| <= 8 && |Extension(name)| <= 3
    && (LastDot(name) >= 0 ==> |Extension(name)| > 0)
  }

  /** Such names are told apart by everything but letter case. */
  lemma ShortNameTells(a: seq<byte>, b: seq<byte>)
    requires Fits(a) && Fits(b)
    ensures ShortName(a) == ShortName(b) <==> SameIgnoringCase(a, b)
  {
    if SameIgnoringCase(a, b) { ShortNameIgnoresCase(a, b); }
    if ShortName(a) == ShortName(b) {
      hide LastDot, Up, SameLetter, Field, SameIgnoringCase;
      SplitName(a);
      SplitName(b);
      FieldTells(Stem(a), Stem(b), 8);
      FieldTells(Extension(a), Extension(b), 3);
      SameJoined(Stem(a), Extension(a), Stem(b), Extension(b));
    }
  }

  lemma SameJoined(sa: seq<byte>, ea: seq<byte>, sb: seq<byte>, eb: seq<byte>)
    requires SameIgnoringCase(sa, sb) && SameIgnoringCase(ea, eb)
    ensures SameIgnoringCase(Joined(sa, ea), Joined(sb, eb))
  {
    hide SameLetter;
    UpIs(0x2E, 0x2E);
  }

  function Joined(stem: seq<byte>, ext: seq<byte>): seq<byte> { if ext == [] then stem else stem + [0x2E] + ext }

  lemma SplitName(name: seq<byte>)
    requires Fits(name)
    ensures name == Joined(Stem(name), Extension(name)) && 0x20 !in Stem(name) && 0x20 !in Extension(name)
    ensures ShortName(name)[..8] == Field(Stem(name), 8) && ShortName(name)[8..] == Field(Extension(name), 3)
  {
    hide Field;
  }

  lemma NotPadding(s: seq<byte>)
    requires 0x20 !in s
    ensures forall k :: 0 <= k < |s| ==> ByteOf(s, k) != 0x20
    ensures ByteOf(s, |s|) == 0x20
  {
    forall k | 0 <= k < |s| ensures ByteOf(s, k) != 0x20 { assert s[k] in s; }
  }

  lemma FieldTells(s: seq<byte>, t: seq<byte>, n: nat)
    requires |s| <= n && |t| <= n && 0x20 !in s && 0x20 !in t
    ensures Field(s, n) == Field(t, n) ==> SameIgnoringCase(s, t)
  {
    hide Up;
    if Field(s, n) == Field(t, n) {
      forall i | 0 <= i < n ensures ByteOf(s, i) == ByteOf(t, i) { assert Field(s, n)[i] == Field(t, n)[i]; }
      assert |s| == |t| by {
        NotPadding(s);
        NotPadding(t);
      }
      forall i | 0 <= i < |s| ensures SameLetter(s[i], t[i]) {
        assert ByteOf(s, i) == ByteOf(t, i);
        UpIs(s[i], t[i]);
      }
    }
  }

  /** The bytes of `s` before its first space. */
  function Trimmed(s: seq<byte>): (r: seq<byte>)
    ensures |r| <= |s| && r == s[..|r|] && SPACE !in r
    ensures |r| < |s| ==> s[|r|] == SPACE
  {
    if |s| == 0 || s[0] == SPACE then [] else [s[0]] + Trimmed(s[1..])
  }

  /** What readdir prints for a slot name. */
  function Display(n: Name11): seq<byte> {
    Trimmed(n[..8]) + if n[8] != SPACE then [DOT] + Trimmed(n[8..]) else []
  }

  /** Spaces only as padding on the right. */
  predicate Padded(s: seq<byte>) { forall i, j :: 0 <= i < j < |s| && s[i] == SPACE ==> s[j] == SPACE }

  predicate NoLower(s: seq<byte>) { forall i :: 0 <= i < |s| ==> Up(s[i]) == s[i] }

  /** The slot names whose printed form names them. */
  predicate Canonical(n: Name11) {
    && Padded(n[..8]) && Padded(n[8..]) && NoLower(n)
    && DOT !in n[8..]
    && (n[8] == SPACE ==> DOT !in n[..8])
  }

  lemma TrimmedIs(s: seq<byte>, j: nat)
    requires j <= |s| && SPACE !in s[..j] && (j < |s| ==> s[j] == SPACE)
    ensures Trimmed(s) == s[..j]
  {
    hide Trimmed;
    assert j <= |Trimmed(s)|;
  }

  method DisplayName(n: Name11) returns (out: seq<byte>)
    ensures out == Display(n)
  {
    hide Trimmed;
    out := [];
    var j := 0;
    while j < 8 && n[j] != SPACE
      invariant 0 <= j <= 8 && out == n[..8][..j] && SPACE !in out
    {
      out := out + [n[j]];
      j := j + 1;
    }
    TrimmedIs(n[..8], j);
    if n[8] != SPACE {
      ghost var stem := out;
      out := out + [DOT];
      j := 8;
      while j < 11 && n[j] != SPACE
        invariant 8 <= j <= 11 && out == stem + [DOT] + n[8..][..j - 8] && SPACE !in n[8..][..j - 8]
      {
        assert n[8..][..j - 7] == n[8..][..j - 8] + [n[j]];
        out := out + [n[j]];
        j := j + 1;
      }
      TrimmedIs(n[8..], j - 8);
    }
  }

  lemma FieldOfTrimmed(s: seq<byte>)
    ensures Field(Trimmed(s), |s|) == s <==> Padded(s) && NoLower(s)
  {
    hide Trimmed;
    var t := Trimmed(s);
    if Padded(s) && NoLower(s) { FieldComplete(s, t); }
    if Field(t, |s|) == s { FieldPadded(s, t); }
  }

  lemma FieldComplete(s: seq<byte>, t: seq<byte>)
    requires Padded(s) && NoLower(s) && t <= s && (|t| < |s| ==> s[|t|] == SPACE)
    ensures Field(t, |s|) == s
  {
  }

  lemma FieldPadded(s: seq<byte>, t: seq<byte>)
    requires Field(t, |s|) == s && t <= s && SPACE !in t
    ensures Padded(s) && NoLower(s)
  {
  }

  /** A field cut short by a dot differs from what was printed. */
  lemma FieldTooShort(t: seq<byte>, s: seq<byte>)
    requires |t| < |Trimmed(s)|
    ensures Field(t, |s|) != s
  {
    hide Trimmed;
    var r := Trimmed(s);
    assert Field(t, |s|)[|t|] == SPACE;
    assert r[|t|] in r && s[|t|] == r[|t|];
  }

  lemma TrimmedDots(s: seq<byte>)
    ensures DOT in Trimmed(s) ==> DOT in s
    ensures Padded(s) && DOT in s ==> DOT in Trimmed(s)
  {
  }

  /** How the printed name of a slot with an extension splits again. */
  lemma SplitWithExtension(ta: seq<byte>, te: seq<byte>)
    ensures var d := ta + ([DOT] + te);
            if DOT in te then |Extension(d)| < |te| else Stem(d) == ta && Extension(d) == te
  {
    hide LastDot;
    var d := ta + ([DOT] + te);
    var l := LastDot(d);
    assert d[|ta|] == DOT;
    if DOT in te {
      var i :| 0 <= i < |te| && te[i] == DOT;
      assert d[|ta| + 1 + i] == DOT;
    } else {
      forall i | |ta| < i < |d| ensures d[i] != DOT { assert d[i] == te[i - |ta| - 1]; }
      assert l == |ta|;
      assert d[..l] == ta && d[l + 1..] == te;
    }
  }

  lemma SplitPlain(ta: seq<byte>)
    ensures if DOT in ta then |Stem(ta)| < |ta| else Stem(ta) == ta && Extension(ta) == []
  {
  }

  /** The printed name leads back to the same slot name exactly for canonical names. */
  lemma DisplayRoundTrip(n: Name11)
    ensures ShortName(Display(n)) == n <==> Canonical(n)
  {
    hide Trimmed, LastDot, Padded, NoLower, Stem, Extension, Field;
    var a, e := n[..8], n[8..];
    FieldOfTrimmed(a);
    FieldOfTrimmed(e);
    TrimmedDots(a);
    TrimmedDots(e);
    NoLowerParts(n);
    var d := Display(n);
    var fa, fe := Field(Stem(d), 8), Field(Extension(d), 3);
    assert ShortName(d) == n <==> fa == a && fe == e by {
      assert n == a + e && (fa + fe)[..8] == fa && (fa + fe)[8..] == fe;
    }
    if n[8] != SPACE {
      SplitWithExtension(Trimmed(a), Trimmed(e));
      if DOT in Trimmed(e) { FieldTooShort(Extension(d), e); }
    } else {
      PlainExtension(e);
      assert d == Trimmed(a);
      SplitPlain(d);
      if DOT in Trimmed(a) { FieldTooShort(Stem(d), a); }
    }
  }

  lemma PlainExtension(e: seq<byte>)
    requires |e| == 3 && e[0] == SPACE
    ensures Trimmed(e) == []
    ensures Padded(e) ==> DOT !in e && NoLower(e)
  {
  }

  lemma NoLowerParts(n: Name11)
    ensures NoLower(n) <==> NoLower(n[..8]) && NoLower(n[8..])
  {
  }
}
