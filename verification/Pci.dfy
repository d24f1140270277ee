/** The walk over the PCI buses. */
module Pci {
  import opened Bytes

  const MAX_DEVICES: nat := 256

  /** A function of a device on a bus. */
  datatype Key = Key(bus: int, dev: int, fn: int)

  /** The configuration space, one double word per function and aligned offset. */
  type Config = (Key, int) -> u32

  datatype Device = Device(key: Key, vendor: u16, device: u16, class_: byte, subclass: byte, progIf: byte,
                           irqLine: byte, irqPin: byte, bars: seq<u32>)

  function ReadWord(cfg: Config, k: Key, o: byte): u16 {
    if o % 4 == 0 then cfg(k, o) % 0x1_0000
    else if o % 4 == 1 then cfg(k, o - 1) / 0x100 % 0x1_0000
    else if o % 4 == 2 then cfg(k, o - 2) / 0x1_0000
    else cfg(k, o - 3) / 0x100_0000
  }

  function ReadByte(cfg: Config, k: Key, o: byte): byte { ReadWord(cfg, k, o) % 0x100 }

  predicate Answers(cfg: Config, k: Key) { ReadWord(cfg, k, 0) != 0xFFFF }

  predicate MultiFunction(cfg: Config, bus: int, dev: int) { ReadByte(cfg, Key(bus, dev, 0), 0xE) >= 0x80 }

  predicate IsKey(k: Key) { 0 <= k.bus < 256 && 0 <= k.dev < 32 && 0 <= k.fn < 8 }

  /** A function the walk of its bus comes across. */
  predicate Present(cfg: Config, k: Key) {
    && IsKey(k) && Answers(cfg, k) && Answers(cfg, Key(k.bus, k.dev, 0))
    && (k.fn > 0 ==> MultiFunction(cfg, k.bus, k.dev))
  }

  predicate IsBridge(cfg: Config, k: Key) { ReadByte(cfg, k, 0xB) == 6 && ReadByte(cfg, k, 0xA) == 4 }

  function Secondary(cfg: Config, k: Key): byte { ReadByte(cfg, k, 0x19) }

  /** Bridge `p` leads to bus `b`. */
  predicate LeadsTo(cfg: Config, p: Key, b: int) { IsBridge(cfg, p) && Secondary(cfg, p) == b }

  /** The buses the walk starts from: bus 0, or one per function of a multi-function host. */
  predicate IsRoot(cfg: Config, b: int) {
    if MultiFunction(cfg, 0, 0) then 0 <= b < 8 && Answers(cfg, Key(0, 0, b)) else b == 0
  }

  function Record(cfg: Config, k: Key): Device {
    Device(k, ReadWord(cfg, k, 0), ReadWord(cfg, k, 2), ReadByte(cfg, k, 0xB), ReadByte(cfg, k, 0xA),
           ReadByte(cfg, k, 0x9),
           ReadByte(cfg, k, 0x3C), ReadByte(cfg, k, 0x3D), seq(6, i => cfg(k, 0x10 + 4 * i)))
  }

  /** The configuration space of function `k` has the bytes `h`. */
  ghost predicate ConfigBytes(cfg: Config, k: Key, h: seq<byte>) {
    |h| == 256 && forall o :: 0 <= o < 256 && o % 4 == 0 ==> cfg(k, o) == Load32(h, o)
  }

  /** A record with what the standard header has at its places (PCI Local Bus Specification, "Configuration Space
      Organization"): numbers of maker and device, class, interrupt and base addresses. */
  ghost predicate RecordBytes(d: Device, h: seq<byte>) {
    && |h| == 256 && d.vendor == Load16(h, 0) && d.device == Load16(h, 2) && d.progIf == h[9] && d.subclass == h[10]
    && d.class_ == h[11] && d.irqLine == h[60] && d.irqPin == h[61]
    && |d.bars| == 6 && forall i :: 0 <= i < 6 ==> d.bars[i] == Load32(h, 16 + 4 * i)
  }

  lemma WordsOf(a: int, b: int, c: int, d: int)
    requires 0 <= a < 256 && 0 <= b < 256 && 0 <= c < 256 && 0 <= d < 256
    ensures var v := a + 0x100 * b + 0x1_0000 * c + 0x100_0000 * d;
            && v % 0x1_0000 == a + 0x100 * b && v / 0x100 % 0x1_0000 == b + 0x100 * c
            && v / 0x1_0000 == c + 0x100 * d && v / 0x100_0000 == d
    ensures (a + 0x100 * b) % 0x100 == a && (b + 0x100 * c) % 0x100 == b && (c + 0x100 * d) % 0x100 == c
  {
    var v := a + 0x100 * b + 0x1_0000 * c + 0x100_0000 * d;
    assert v / 0x100 == b + 0x100 * c + 0x1_0000 * d;
  }

  lemma ReadsBytes(cfg: Config, k: Key, h: seq<byte>, o: byte)
    requires ConfigBytes(cfg, k, h)
    ensures ReadByte(cfg, k, o) == h[o]
    ensures o % 4 != 3 ==> ReadWord(cfg, k, o) == Load16(h, o)
  {
    var b: nat := o - o % 4;
    assert b % 4 == 0 && b + 4 <= 256;
    assert cfg(k, b) == Load32(h, b);
    hide ConfigBytes;
    WordsOf(h[b], h[b + 1], h[b + 2], h[b + 3]);
    if o == b {
    } else if o == b + 1 {
    } else if o == b + 2 {
    } else {
      assert o == b + 3;
    }
  }

  /** What the walk looks at: whether there is a function, several of them, or a bridge and to which bus. */
  lemma ConfigMeans(cfg: Config, k: Key, h: seq<byte>)
    requires ConfigBytes(cfg, k, h)
    ensures Answers(cfg, k) <==> !(h[0] == 0xFF && h[1] == 0xFF)
    ensures k.fn == 0 ==> (MultiFunction(cfg, k.bus, k.dev) <==> h[14] >= 0x80)
    ensures IsBridge(cfg, k) <==> h[11] == 6 && h[10] == 4
    ensures Secondary(cfg, k) == h[25]
    ensures Record(cfg, k).key == k && RecordBytes(Record(cfg, k), h)
  {
    hide ReadByte, ReadWord;
    ReadsBytes(cfg, k, h, 0);
    ReadsBytes(cfg, k, h, 2);
    ReadsBytes(cfg, k, h, 9);
    ReadsBytes(cfg, k, h, 10);
    ReadsBytes(cfg, k, h, 11);
    ReadsBytes(cfg, k, h, 14);
    ReadsBytes(cfg, k, h, 25);
    ReadsBytes(cfg, k, h, 60);
    ReadsBytes(cfg, k, h, 61);
    assert k.fn == 0 ==> Key(k.bus, k.dev, 0) == k;
  }

  /** When the walk of a bus comes across a function: it and function 0 of the device answer, and for the others
      function 0 says that there are several. */
  lemma PresentMeans(cfg: Config, k: Key, h: seq<byte>, h0: seq<byte>)
    requires ConfigBytes(cfg, k, h) && ConfigBytes(cfg, Key(k.bus, k.dev, 0), h0) && IsKey(k)
    ensures Present(cfg, k) <==>
              && !(h[0] == 0xFF && h[1] == 0xFF) && !(h0[0] == 0xFF && h0[1] == 0xFF)
              && (k.fn > 0 ==> h0[14] >= 0x80)
  {
    hide ConfigBytes, Answers, MultiFunction;
    ConfigMeans(cfg, k, h);
    ConfigMeans(cfg, Key(k.bus, k.dev, 0), h0);
  }

  /** The walk starts from bus 0, or, if the host has several functions, from the buses numbered like them. */
  lemma RootMeans(cfg: Config, b: int, h0: seq<byte>)
    requires ConfigBytes(cfg, Key(0, 0, 0), h0)
    ensures IsRoot(cfg, b) <==> if h0[14] < 0x80 then b == 0 else 0 <= b < 8 && Answers(cfg, Key(0, 0, b))
  {
    hide ConfigBytes, Answers;
    ConfigMeans(cfg, Key(0, 0, 0), h0);
  }

  /** Every record says what the registers of its function say. */
  ghost predicate Truthful(cfg: Config, found: seq<Device>) {
    forall i, h :: 0 <= i < |found| && ConfigBytes(cfg, found[i].key, h) ==> RecordBytes(found[i], h)
  }

  lemma RecordsTruthful(cfg: Config, ks: seq<Key>)
    ensures Truthful(cfg, Records(cfg, ks))
  {
    hide RecordBytes, ConfigBytes;
    var found := Records(cfg, ks);
    forall i, h | 0 <= i < |found| && ConfigBytes(cfg, found[i].key, h) ensures RecordBytes(found[i], h) {
      ConfigMeans(cfg, ks[i], h);
    }
  }

  /** A way from a root bus to a function, bridge by bridge. */
  predicate IsPath(cfg: Config, p: seq<Key>) {
    && |p| > 0 && IsRoot(cfg, p[0].bus)
    && (forall i :: 0 <= i < |p| ==> Present(cfg, p[i]))
    && (forall i :: 0 < i < |p| ==> LeadsTo(cfg, p[i - 1], p[i].bus))
  }

  ghost predicate Reach(cfg: Config, k: Key) { exists p :: IsPath(cfg, p) && p[|p| - 1] == k }

  ghost function ReachSet(cfg: Config): set<Key> {
    set b, d, f | 0 <= b < 256 && 0 <= d < 32 && 0 <= f < 8 && Reach(cfg, Key(b, d, f)) :: Key(b, d, f)
  }

  lemma InReachSet(cfg: Config, k: Key)
    ensures Reach(cfg, k) <==> k in ReachSet(cfg)
  {
  }

  /** The buses form a forest under the roots: no two reachable bridges lead to one bus, and none to a root. */
  ghost predicate Tree(cfg: Config) {
    && (forall p :: Reach(cfg, p) && IsBridge(cfg, p) ==> !IsRoot(cfg, Secondary(cfg, p)))
    && (forall p, q :: Reach(cfg, p) && Reach(cfg, q) && IsBridge(cfg, p) && IsBridge(cfg, q) ==>
          Secondary(cfg, p) == Secondary(cfg, q) ==> p == q)
  }

  ghost predicate Fits(cfg: Config) { |ReachSet(cfg)| <= 256 }

  ghost function Keys(found: seq<Device>): set<Key> { set i | 0 <= i < |found| :: found[i].key }

  ghost predicate Distinct(found: seq<Device>) { forall i, j :: 0 <= i < j < |found| ==> found[i].key != found[j].key }

  /** Function number `i` of bus `b`, counting eight to a device. */
  function At(b: int, i: int): Key { Key(b, i / 8, i % 8) }

  /** The functions recorded from `k` on with room for `room`: itself, then all behind it. */
  function Visit(cfg: Config, k: Key, room: nat): (ks: seq<Key>)
    ensures |ks| <= room
    decreases room, 0, 0
  {
    if room == 0 then [] else [k] + (if IsBridge(cfg, k) then BusFrom(cfg, Secondary(cfg, k), 0, room - 1) else [])
  }

  /** The functions recorded of bus `b` from number `i` on, each followed by those behind it. */
  function BusFrom(cfg: Config, b: int, i: nat, room: nat): (ks: seq<Key>)
    ensures |ks| <= room
    decreases room, 1, if i < 256 then 256 - i else 0
  {
    if i >= 256 then []
    else if !Present(cfg, At(b, i)) then BusFrom(cfg, b, i + 1, room)
    else
      var ks := Visit(cfg, At(b, i), room);
      ks + BusFrom(cfg, b, i + 1, room - |ks|)
  }

  /** The functions recorded of the root buses from `b` on. */
  function RootsFrom(cfg: Config, b: nat, room: nat): (ks: seq<Key>)
    ensures |ks| <= room
    decreases 256 - b
  {
    if b >= 256 then []
    else if !IsRoot(cfg, b) then RootsFrom(cfg, b + 1, room)
    else
      var ks := BusFrom(cfg, b, 0, room);
      ks + RootsFrom(cfg, b + 1, room - |ks|)
  }

  function Records(cfg: Config, ks: seq<Key>): seq<Device> {
    seq(|ks|, i requires 0 <= i < |ks| => Record(cfg, ks[i]))
  }

  lemma RecordsAdd(cfg: Config, a: seq<Key>, b: seq<Key>)
    ensures Records(cfg, a + b) == Records(cfg, a) + Records(cfg, b)
  {
  }

  function Left(found: seq<Device>): nat { if |found| < MAX_DEVICES then MAX_DEVICES - |found| else 0 }

  /** What is recorded, followed by what number `i` of bus `b` and the rest will add, is what the walk of
      the bus adds to `found0`. */
  ghost predicate Midway(cfg: Config, found0: seq<Device>, found: seq<Device>, b: int, i: int) {
    && i >= 0
    && found0 + Records(cfg, BusFrom(cfg, b, 0, Left(found0))) == found + Records(cfg, BusFrom(cfg, b, i, Left(found)))
  }

  /** The records of `k` and of what lies behind it were added. */
  ghost predicate Visited(cfg: Config, found0: seq<Device>, found: seq<Device>, k: Key) {
    found == found0 + Records(cfg, Visit(cfg, k, Left(found0)))
  }

  lemma MidwayStep(cfg: Config, found0: seq<Device>, found: seq<Device>, found': seq<Device>, b: int, i: int)
    requires Midway(cfg, found0, found, b, i) && Present(cfg, At(b, i)) && Visited(cfg, found, found', At(b, i))
    requires |found| <= MAX_DEVICES && i < 256
    ensures Midway(cfg, found0, found', b, i + 1)
  {
    hide Present, Visit, Record;
    var ks := Visit(cfg, At(b, i), Left(found));
    RecordsAdd(cfg, ks, BusFrom(cfg, b, i + 1, Left(found) - |ks|));
  }

  lemma {:induction false} MidwaySkip(cfg: Config, found0: seq<Device>, found: seq<Device>, b: int, i: int, i': int)
    requires Midway(cfg, found0, found, b, i) && i <= i' <= 256 && forall j :: i <= j < i' ==> !Present(cfg, At(b, j))
    ensures Midway(cfg, found0, found, b, i')
    decreases i' - i
  {
    hide Present, Visit, Record;
    if i < i' {
      assert !Present(cfg, At(b, i));
      MidwaySkip(cfg, found0, found, b, i + 1, i');
    }
  }

  /** The walk is on bus `b`: it is a root, or a recorded bridge leads to it. */
  ghost predicate Entered(cfg: Config, ks: set<Key>, b: int) {
    IsRoot(cfg, b) || exists p :: p in ks && LeadsTo(cfg, p, b)
  }

  /** Everything recorded is reachable, over recorded bridges, and recorded as it is. */
  ghost predicate Sane(cfg: Config, found: seq<Device>) {
    && |found| <= MAX_DEVICES
    && (forall i :: 0 <= i < |found| ==> found[i] == Record(cfg, found[i].key))
    && (forall k :: k in Keys(found) ==> Reach(cfg, k) && Entered(cfg, Keys(found), k.bus))
  }

  /** What was added between `a` and `b` apart from `k` lies behind bridges also added. */
  ghost predicate Behind(cfg: Config, a: set<Key>, b: set<Key>, base: set<Key>) {
    forall x :: x in b && x !in a && x !in base ==>
      !IsRoot(cfg, x.bus) && exists p :: p in b && p !in a && LeadsTo(cfg, p, x.bus)
  }

  /** Every function behind an added bridge was added. */
  ghost predicate Closed(cfg: Config, a: set<Key>, b: set<Key>) {
    forall p, x :: p in b && p !in a && IsBridge(cfg, p) && Present(cfg, x) && Secondary(cfg, p) == x.bus ==> x in b
  }

  lemma KeysAdded(found: seq<Device>, d: Device)
    ensures Keys(found + [d]) == Keys(found) + {d.key}
    ensures Distinct(found) && d.key !in Keys(found) ==> Distinct(found + [d])
  {
    var s := found + [d];
    assert s[|found|] == d;
    forall k | k in Keys(found) + {d.key} ensures k in Keys(s) {
      if k in Keys(found) { var i :| 0 <= i < |found| && found[i].key == k; assert s[i].key == k; }
    }
  }

  lemma {:induction false} DistinctCount(found: seq<Device>)
    requires Distinct(found)
    ensures |Keys(found)| == |found|
  {
    if |found| > 0 {
      var init, d := found[..|found| - 1], found[|found| - 1];
      assert found == init + [d];
      KeysAdded(init, d);
      assert d.key !in Keys(init);
      DistinctCount(init);
    } else {
      assert Keys(found) == {};
    }
  }

  /** The function behind a reachable bridge is reachable. */
  lemma StepReach(cfg: Config, ks: set<Key>, k: Key)
    requires Present(cfg, k) && Entered(cfg, ks, k.bus) && forall x :: x in ks ==> Reach(cfg, x)
    ensures Reach(cfg, k)
  {
    if IsRoot(cfg, k.bus) {
      assert IsPath(cfg, [k]);
      assert [k][|[k]| - 1] == k;
    } else {
      var q :| q in ks && LeadsTo(cfg, q, k.bus);
      var p :| IsPath(cfg, p) && p[|p| - 1] == q;
      var p' := p + [k];
      assert IsPath(cfg, p') by {
        forall i | 0 < i < |p'| ensures LeadsTo(cfg, p'[i - 1], p'[i].bus) {
          if i < |p| { assert LeadsTo(cfg, p[i - 1], p[i].bus); }
        }
      }
      assert p'[|p'| - 1] == k;
    }
  }

  /** A full table without repetitions leaves no function out that fits. */
  lemma FullIsAll(cfg: Config, found: seq<Device>)
    requires Sane(cfg, found) && Distinct(found) && |found| == MAX_DEVICES && Fits(cfg)
    ensures Keys(found) == ReachSet(cfg)
  {
    hide Reach, Record, Entered, ReachSet, Distinct;
    DistinctCount(found);
    forall x | x in Keys(found) ensures x in ReachSet(cfg) { InReachSet(cfg, x); }
    SubsetEqual(Keys(found), ReachSet(cfg));
  }

  lemma SubsetEqual<T>(a: set<T>, b: set<T>)
    requires a <= b && |a| >= |b|
    ensures a == b
  {
    assert b == a + (b - a);
  }

  /** A bus is entered over one bridge only, so nothing of it is recorded before that bridge is. */
  lemma NothingBehindYet(cfg: Config, found: seq<Device>, k: Key)
    requires Tree(cfg) && Sane(cfg, found) && Reach(cfg, k) && k !in Keys(found) && Entered(cfg, Keys(found), k.bus)
    requires IsBridge(cfg, k)
    ensures forall x :: x in Keys(found) + {k} ==> x.bus != Secondary(cfg, k)
  {
  }

  /** While bus `b` is being walked, nothing of it is added from behind its own bridges. */
  lemma NotFromBehind(cfg: Config, a: set<Key>, b: set<Key>, bus: int, k: Key)
    requires Tree(cfg) && Entered(cfg, a, bus) && Behind(cfg, a, b, {k}) && forall x :: x in a || x in b ==>
               Reach(cfg, x)
    ensures forall x :: x in b && x !in a && x != k ==> x.bus != bus
  {
    hide Reach, IsRoot, IsBridge, Secondary;
    forall x | x in b && x !in a && x != k ensures x.bus != bus {
      var p :| p in b && p !in a && LeadsTo(cfg, p, x.bus);
    }
  }

  /** Function `x` comes before function number `f` of device `d` in the walk of their bus. */
  predicate Before(x: Key, d: int, f: int) { x.dev < d || (x.dev == d && x.fn < f) }

  /** Progress of the walk of bus `b` that started from `found0`, up to function `f` of device `d`. */
  ghost predicate Walking(cfg: Config, found0: seq<Device>, found: seq<Device>, b: int, d: int, f: int) {
    && Sane(cfg, found) && found0 <= found && Entered(cfg, Keys(found0), b) && Midway(cfg, found0, found, b, 8 * d + f)
    && (|found| < MAX_DEVICES ==> WalkedAll(cfg, found0, found, b, d, f))
    && (Tree(cfg) ==> WalkingTree(cfg, found0, found, b, d, f))
  }

  ghost predicate WalkingTree(cfg: Config, found0: seq<Device>, found: seq<Device>, b: int, d: int, f: int) {
    && Distinct(found)
    && (forall x :: x in Keys(found) && x.bus == b ==> Before(x, d, f))
    && (forall x :: x in Keys(found) && x !in Keys(found0) && x.bus != b ==>
          !IsRoot(cfg, x.bus) && exists p :: p in Keys(found) && p !in Keys(found0) && LeadsTo(cfg, p, x.bus))
  }

  /** Nothing on the way so far, and nothing behind it, was missed. */
  ghost predicate WalkedAll(cfg: Config, found0: seq<Device>, found: seq<Device>, b: int, d: int, f: int) {
    && (forall x :: Present(cfg, x) && x.bus == b && Before(x, d, f) ==> x in Keys(found))
    && Closed(cfg, Keys(found0), Keys(found))
  }

  /** What a check of function `k` does to the records. */
  ghost predicate Checked(cfg: Config, found0: seq<Device>, found: seq<Device>, k: Key) {
    && Sane(cfg, found) && found0 <= found && Visited(cfg, found0, found, k)
    && (|found| < MAX_DEVICES ==> k in Keys(found) && Closed(cfg, Keys(found0), Keys(found)))
    && (Tree(cfg) ==> CheckedTree(cfg, found0, found, k))
  }

  ghost predicate CheckedTree(cfg: Config, found0: seq<Device>, found: seq<Device>, k: Key) {
    Distinct(found) && Behind(cfg, Keys(found0), Keys(found), {k})
  }

  lemma PrefixKeys(a: seq<Device>, b: seq<Device>)
    requires a <= b
    ensures Keys(a) <= Keys(b)
  {
  }

  /** A check of the next function is a step of the walk. */
  lemma WalkStep(cfg: Config, found0: seq<Device>, found: seq<Device>, found': seq<Device>, b: int, k: Key)
    requires Walking(cfg, found0, found, b, k.dev, k.fn) && Checked(cfg, found, found', k) && k.bus == b
    requires Present(cfg, k)
    ensures Walking(cfg, found0, found', b, k.dev, k.fn + 1)
  {
    hide Reach, IsRoot, IsBridge, Secondary, Record, Present, WalkingTree, WalkedAll, CheckedTree, Closed, Tree;
    hide Entered, Midway, Visited;
    PrefixKeys(found0, found);
    PrefixKeys(found, found');
    NumberOf(cfg, k);
    MidwayStep(cfg, found0, found, found', b, 8 * k.dev + k.fn);
    if |found'| < MAX_DEVICES { WalkAllStep(cfg, found0, found, found', b, k); }
    if Tree(cfg) {
      EnteredStays(cfg, Keys(found0), Keys(found), b);
      AllReach(cfg, found');
      WalkTreeStep(cfg, found0, found, found', b, k);
    }
  }

  lemma NumberOf(cfg: Config, k: Key)
    requires Present(cfg, k)
    ensures 0 <= 8 * k.dev + k.fn < 256 && At(k.bus, 8 * k.dev + k.fn) == k
  {
    hide Answers, MultiFunction;
  }

  lemma EnteredStays(cfg: Config, a: set<Key>, a': set<Key>, b: int)
    requires Entered(cfg, a, b) && a <= a'
    ensures Entered(cfg, a', b)
  {
  }

  lemma AllReach(cfg: Config, found: seq<Device>)
    requires Sane(cfg, found)
    ensures forall x :: x in Keys(found) ==> Reach(cfg, x)
  {
  }

  lemma WalkAllStep(cfg: Config, found0: seq<Device>, found: seq<Device>, found': seq<Device>, b: int, k: Key)
    requires WalkedAll(cfg, found0, found, b, k.dev, k.fn) && k.bus == b && Keys(found) <= Keys(found')
    requires k in Keys(found') && Closed(cfg, Keys(found), Keys(found'))
    ensures WalkedAll(cfg, found0, found', b, k.dev, k.fn + 1)
  {
    hide IsBridge, Secondary, Present, Keys;
    forall x | Present(cfg, x) && x.bus == b && Before(x, k.dev, k.fn + 1) ensures x in Keys(found') {
      assert x == k || Before(x, k.dev, k.fn);
    }
  }

  lemma WalkTreeStep(cfg: Config, found0: seq<Device>, found: seq<Device>, found': seq<Device>, b: int, k: Key)
    requires Tree(cfg) && WalkingTree(cfg, found0, found, b, k.dev, k.fn) && CheckedTree(cfg, found, found', k)
    requires k.bus == b && Keys(found0) <= Keys(found) <= Keys(found') && Entered(cfg, Keys(found), b)
    requires forall x :: x in Keys(found') ==> Reach(cfg, x)
    ensures WalkingTree(cfg, found0, found', b, k.dev, k.fn + 1)
  {
    hide Reach, IsRoot, IsBridge, Secondary, Keys, Distinct, Tree, LeadsTo;
    NotFromBehind(cfg, Keys(found), Keys(found'), b, k);
    ghost var a0, a, a' := Keys(found0), Keys(found), Keys(found');
    forall x | x in a' && x !in a0 && x.bus != b
      ensures !IsRoot(cfg, x.bus) && exists p :: p in a' && p !in a0 && LeadsTo(cfg, p, x.bus)
    {
      if x in a {
        var p :| p in a && p !in a0 && LeadsTo(cfg, p, x.bus);
      } else {
        var p :| p in a' && p !in a && LeadsTo(cfg, p, x.bus);
      }
    }
  }

  /** Moving on without a check, past functions that are not there. */
  lemma WalkSkip(cfg: Config, found0: seq<Device>, found: seq<Device>, b: int, d: int, f: int, d': int, f': int)
    requires Walking(cfg, found0, found, b, d, f) && (d < d' || (d == d' && f <= f'))
    requires 0 <= f <= 8 && 0 <= f' <= 8 && 0 <= d && 8 * d' + f' <= 256
    requires forall x :: Present(cfg, x) && x.bus == b && Before(x, d', f') ==> Before(x, d, f)
    ensures Walking(cfg, found0, found, b, d', f')
  {
    hide Reach, IsRoot, IsBridge, Secondary, Record, Present, Fits, Tree, Sane, Midway;
    forall j | 8 * d + f <= j < 8 * d' + f' ensures !Present(cfg, At(b, j)) {
      assert !Before(At(b, j), d, f) && Before(At(b, j), d', f');
    }
    MidwaySkip(cfg, found0, found, b, 8 * d + f, 8 * d' + f');
  }

  /** Nothing is recorded of a bus that is about to be walked. */
  ghost predicate Untouched(cfg: Config, found: seq<Device>, b: int) {
    && Sane(cfg, found) && Entered(cfg, Keys(found), b)
    && (Tree(cfg) ==> Distinct(found) && forall x :: x in Keys(found) ==> x.bus != b)
  }

  lemma WalkStart(cfg: Config, found: seq<Device>, b: int)
    requires Untouched(cfg, found, b)
    ensures Walking(cfg, found, found, b, 0, 0)
  {
    hide Reach, IsRoot, IsBridge, Secondary, Record, Fits, Tree, Sane, Answers;
  }

  /** Function `k` is about to be checked. */
  ghost predicate Checkable(cfg: Config, found: seq<Device>, k: Key) {
    && Sane(cfg, found) && Present(cfg, k) && Entered(cfg, Keys(found), k.bus)
    && (Tree(cfg) ==> Distinct(found) && k !in Keys(found))
  }

  lemma NextCheckable(cfg: Config, found0: seq<Device>, found: seq<Device>, b: int, k: Key)
    requires Walking(cfg, found0, found, b, k.dev, k.fn) && k.bus == b && Present(cfg, k)
    ensures Checkable(cfg, found, k)
  {
    hide Reach, IsRoot, IsBridge, Secondary, Record, Present, Fits, Tree, Sane;
    PrefixKeys(found0, found);
  }

  lemma CheckFull(cfg: Config, found: seq<Device>, k: Key)
    requires Checkable(cfg, found, k) && |found| >= MAX_DEVICES
    ensures Checked(cfg, found, found, k)
  {
    assert Visit(cfg, k, Left(found)) == [];
    hide Reach, IsRoot, IsBridge, Secondary, Record, Present;
  }

  /** Recording a function keeps the records sane and leaves the bus behind it untouched. */
  lemma Recorded(cfg: Config, found: seq<Device>, k: Key)
    requires Checkable(cfg, found, k) && |found| < MAX_DEVICES
    ensures Sane(cfg, found + [Record(cfg, k)]) && Keys(found + [Record(cfg, k)]) == Keys(found) + {k}
    ensures !IsBridge(cfg, k) ==> Checked(cfg, found, found + [Record(cfg, k)], k)
    ensures IsBridge(cfg, k) ==> Untouched(cfg, found + [Record(cfg, k)], Secondary(cfg, k))
  {
    hide Reach, IsRoot, IsBridge, Secondary, Present, Fits, ReadWord;
    var found1 := found + [Record(cfg, k)];
    KeysAdded(found, Record(cfg, k));
    StepReach(cfg, Keys(found), k);
    assert Sane(cfg, found1) by { RecordSane(cfg, found, k); }
    assert !IsBridge(cfg, k) ==> Visit(cfg, k, Left(found)) == [k];
    if IsBridge(cfg, k) {
      assert LeadsTo(cfg, k, Secondary(cfg, k));
      if Tree(cfg) { NothingBehindYet(cfg, found, k); }
    }
  }

  lemma RecordSane(cfg: Config, found: seq<Device>, k: Key)
    requires Sane(cfg, found) && Reach(cfg, k) && Entered(cfg, Keys(found), k.bus) && |found| < MAX_DEVICES
    ensures Sane(cfg, found + [Record(cfg, k)])
  {
    hide Reach, IsRoot, IsBridge, Secondary, ReadWord;
    KeysAdded(found, Record(cfg, k));
    var found1 := found + [Record(cfg, k)];
    forall x | x in Keys(found1) ensures Reach(cfg, x) && Entered(cfg, Keys(found1), x.bus) {
      assert Entered(cfg, Keys(found), x.bus);
    }
  }

  /** Recording a bridge and walking the bus behind it completes its check. */
  lemma BridgeChecked(cfg: Config, found: seq<Device>, found1: seq<Device>, found': seq<Device>, k: Key)
    requires Keys(found1) == Keys(found) + {k} && found1 == found + [Record(cfg, k)] && IsBridge(cfg, k)
    requires Reach(cfg, k) && |found| < MAX_DEVICES
    requires Tree(cfg) ==> k !in Keys(found)
    requires Walking(cfg, found1, found', Secondary(cfg, k), 32, 0)
    ensures Checked(cfg, found, found', k)
  {
    hide Reach, IsRoot, IsBridge, Secondary, Record, Fits, Sane, Answers, MultiFunction, Visited, Midway;
    PrefixKeys(found1, found');
    BridgeVisited(cfg, found, found1, found', k);
    if Tree(cfg) {
      assert !IsRoot(cfg, Secondary(cfg, k));
      hide Tree;
      assert LeadsTo(cfg, k, Secondary(cfg, k));
      ghost var a, a', b := Keys(found), Keys(found'), Secondary(cfg, k);
      forall x | x in a' && x !in a && x != k
        ensures !IsRoot(cfg, x.bus) && exists p :: p in a' && p !in a && LeadsTo(cfg, p, x.bus)
      {
        if x.bus != b { var p :| p in a' && p !in Keys(found1) && LeadsTo(cfg, p, x.bus); }
      }
    }
  }

  lemma BridgeVisited(cfg: Config, found: seq<Device>, found1: seq<Device>, found': seq<Device>, k: Key)
    requires found1 == found + [Record(cfg, k)] && |found| < MAX_DEVICES && IsBridge(cfg, k)
    requires Midway(cfg, found1, found', Secondary(cfg, k), 256)
    ensures Visited(cfg, found, found', k)
  {
    hide Present, Record, IsBridge, Secondary;
    assert BusFrom(cfg, Secondary(cfg, k), 256, Left(found')) == [];
    var ks := BusFrom(cfg, Secondary(cfg, k), 0, Left(found1));
    assert Visit(cfg, k, Left(found)) == [k] + ks && Records(cfg, [k]) == [Record(cfg, k)];
    RecordsAdd(cfg, [k], ks);
    assert found' == found1 + Records(cfg, ks) == found + ([Record(cfg, k)] + Records(cfg, ks));
  }

  lemma WalkBounds(cfg: Config, found0: seq<Device>, found: seq<Device>, b: int, d: int, f: int)
    requires Walking(cfg, found0, found, b, d, f)
    ensures |found0| <= |found| <= MAX_DEVICES
  {
  }

  class Walk {
    const cfg: Config
    /** The filled part of the device table. */
    var found: seq<Device>

    constructor (c: Config)
      ensures cfg == c && found == []
    {
      cfg, found := c, [];
    }

    method EnumerateBus(bus: byte)
      requires Untouched(cfg, found, bus)
      modifies this
      ensures Walking(cfg, old(found), found, bus, 32, 0)
      decreases MAX_DEVICES - |found|, 1
    {
      hide Untouched, Walking, Sane, Tree, Checked, Checkable, ReadWord, ReadByte, MultiFunction, Answers;
      WalkStart(cfg, found, bus);
      WalkBounds(cfg, found, found, bus, 0, 0);
      for dev := 0 to 32
        invariant Walking(cfg, old(found), found, bus, dev, 0) && |old(found)| <= |found| <= MAX_DEVICES
      {
        if Answers(cfg, Key(bus, dev, 0)) {
          NextCheckable(cfg, old(found), found, bus, Key(bus, dev, 0));
          ghost var found1 := found;
          CheckFunction(Key(bus, dev, 0));
          WalkStep(cfg, old(found), found1, found, bus, Key(bus, dev, 0));
          WalkBounds(cfg, old(found), found, bus, dev, 1);
          if MultiFunction(cfg, bus, dev) {
            for fn := 1 to 8
              invariant Walking(cfg, old(found), found, bus, dev, fn) && |old(found)| <= |found| <= MAX_DEVICES
            {
              if Answers(cfg, Key(bus, dev, fn)) {
                NextCheckable(cfg, old(found), found, bus, Key(bus, dev, fn));
                ghost var found2 := found;
                CheckFunction(Key(bus, dev, fn));
                WalkStep(cfg, old(found), found2, found, bus, Key(bus, dev, fn));
                WalkBounds(cfg, old(found), found, bus, dev, fn + 1);
              } else {
                WalkSkip(cfg, old(found), found, bus, dev, fn, dev, fn + 1);
              }
            }
            WalkSkip(cfg, old(found), found, bus, dev, 8, dev + 1, 0);
          } else {
            WalkSkip(cfg, old(found), found, bus, dev, 1, dev + 1, 0);
          }
        } else {
          WalkSkip(cfg, old(found), found, bus, dev, 0, dev + 1, 0);
        }
      }
    }

    method CheckFunction(k: Key)
      requires Checkable(cfg, found, k)
      modifies this
      ensures Checked(cfg, old(found), found, k)
      decreases MAX_DEVICES - |found|, 0
    {
      hide Reach, Untouched, Walking, Tree, Checked, Entered;
      if !Answers(cfg, k) { return; }
      if |found| >= MAX_DEVICES {
        CheckFull(cfg, found, k);
        return;
      }
      Recorded(cfg, found, k);
      StepReach(cfg, Keys(found), k);
      found := found + [Record(cfg, k)];
      ghost var found1 := found;
      if IsBridge(cfg, k) {
        EnumerateBus(Secondary(cfg, k));
        BridgeChecked(cfg, old(found), found1, found, k);
      }
    }

    /** Every configuration space is walked to an end: with every reachable function recorded, or with the
        table of 256 records full, and nothing but reachable functions in it; when the buses form a tree
        each is recorded once, and all are if they fit. */
    method Enumerate()
      modifies this
      ensures Sane(cfg, found) && found == Records(cfg, RootsFrom(cfg, 0, 256))
      ensures |found| == 256 || Keys(found) == ReachSet(cfg)
      ensures Truthful(cfg, found)
      ensures Tree(cfg) ==> Distinct(found)
      ensures Tree(cfg) && Fits(cfg) ==> Keys(found) == ReachSet(cfg)
    {
      hide Walking, Sane, Tree, Reach, Fits, Distinct, ReadWord, ReadByte, MultiFunction, Answers, Rooted, Untouched;
      hide Records, RootsFrom, ReachSet, Truthful;
      found := [];
      RootsStart(cfg);
      if MultiFunction(cfg, 0, 0) {
        for fn := 0 to 8
          invariant Rooted(cfg, found, fn)
        {
          if Answers(cfg, Key(0, 0, fn)) {
            RootUntouched(cfg, found, fn);
            ghost var found0 := found;
            EnumerateBus(fn);
            RootWalked(cfg, found0, found, fn);
          } else {
            RootSkipped(cfg, found, fn, fn + 1);
          }
        }
        RootSkipped(cfg, found, 8, 256);
      } else {
        RootUntouched(cfg, found, 0);
        EnumerateBus(0);
        RootWalked(cfg, [], found, 0);
        RootSkipped(cfg, found, 1, 256);
      }
      AllFound(cfg, found);
      RecordsTruthful(cfg, RootsFrom(cfg, 0, MAX_DEVICES));
    }
  }

  /** The roots below `n` are done. */
  ghost predicate Rooted(cfg: Config, found: seq<Device>, n: int) {
    && Sane(cfg, found) && RootsMidway(cfg, found, n)
    && (|found| < MAX_DEVICES ==> RootsWalked(cfg, found, n))
    && (Tree(cfg) ==> RootedTree(cfg, found, n))
  }

  ghost predicate RootsMidway(cfg: Config, found: seq<Device>, n: int) {
    n >= 0 && Records(cfg, RootsFrom(cfg, 0, MAX_DEVICES)) == found + Records(cfg, RootsFrom(cfg, n, Left(found)))
  }

  lemma RootStep(cfg: Config, found0: seq<Device>, found: seq<Device>, b: int)
    requires RootsMidway(cfg, found0, b) && IsRoot(cfg, b) && b < 256 && Midway(cfg, found0, found, b, 256)
    requires |found0| <= MAX_DEVICES
    ensures RootsMidway(cfg, found, b + 1)
  {
    hide IsRoot, Record, Present, Visit;
    var ks := BusFrom(cfg, b, 0, Left(found0));
    assert BusFrom(cfg, b, 256, Left(found)) == [] && found == found0 + Records(cfg, ks);
    assert Left(found) == Left(found0) - |ks|;
    RecordsAdd(cfg, ks, RootsFrom(cfg, b + 1, Left(found0) - |ks|));
  }

  lemma {:induction false} RootSkip(cfg: Config, found: seq<Device>, n: int, n': int)
    requires RootsMidway(cfg, found, n) && n <= n' <= 256 && forall b :: n <= b < n' ==> !IsRoot(cfg, b)
    ensures RootsMidway(cfg, found, n')
    decreases n' - n
  {
    hide IsRoot, Record, BusFrom;
    if n < n' { RootSkip(cfg, found, n + 1, n'); }
  }

  /** Everything on the roots below `n`, and behind what is recorded, is recorded. */
  ghost predicate RootsWalked(cfg: Config, found: seq<Device>, n: int) {
    && (forall x :: Present(cfg, x) && IsRoot(cfg, x.bus) && x.bus < n ==> x in Keys(found))
    && Closed(cfg, {}, Keys(found))
  }

  ghost predicate RootedTree(cfg: Config, found: seq<Device>, n: int) {
    && Distinct(found)
    && (forall x :: x in Keys(found) && IsRoot(cfg, x.bus) ==> x.bus < n)
  }

  lemma RootsStart(cfg: Config)
    ensures Rooted(cfg, [], 0)
  {
  }

  lemma RootUntouched(cfg: Config, found: seq<Device>, b: int)
    requires Rooted(cfg, found, b) && IsRoot(cfg, b)
    ensures Untouched(cfg, found, b)
  {
  }

  lemma RootWalked(cfg: Config, found0: seq<Device>, found: seq<Device>, b: int)
    requires Rooted(cfg, found0, b) && IsRoot(cfg, b) && Walking(cfg, found0, found, b, 32, 0)
    ensures Rooted(cfg, found, b + 1)
  {
    RootIsBus(cfg, b);
    RootStep(cfg, found0, found, b);
    hide Reach, Record, Tree, Fits, Sane, IsRoot, IsBridge, Secondary, Answers, MultiFunction, RootsMidway, Midway;
    PrefixKeys(found0, found);
  }

  lemma RootIsBus(cfg: Config, b: int)
    requires IsRoot(cfg, b)
    ensures 0 <= b < 8
  {
  }

  lemma RootSkipped(cfg: Config, found: seq<Device>, n: int, n': int)
    requires Rooted(cfg, found, n) && n <= n' <= 256 && forall b :: n <= b < n' ==> !IsRoot(cfg, b)
    ensures Rooted(cfg, found, n')
  {
    hide Reach, Record, Tree, Fits, Sane, IsRoot, Present, RootsMidway;
    RootSkip(cfg, found, n, n');
  }

  lemma AllFound(cfg: Config, found: seq<Device>)
    requires Rooted(cfg, found, 256)
    ensures Sane(cfg, found) && found == Records(cfg, RootsFrom(cfg, 0, MAX_DEVICES))
    ensures |found| == MAX_DEVICES || Keys(found) == ReachSet(cfg)
    ensures Tree(cfg) ==> Distinct(found)
    ensures Tree(cfg) && Fits(cfg) ==> Keys(found) == ReachSet(cfg)
  {
    assert RootsFrom(cfg, 256, Left(found)) == [];
    hide Tree, Fits, ReachSet, Reach, Record, Entered, RootsWalked;
    if |found| < MAX_DEVICES {
      forall k ensures k in Keys(found) <==> k in ReachSet(cfg) {
        InReachSet(cfg, k);
        if Reach(cfg, k) { ReachFound(cfg, found, k); }
      }
    } else if Tree(cfg) && Fits(cfg) {
      FullIsAll(cfg, found);
    }
  }

  lemma ReachFound(cfg: Config, found: seq<Device>, k: Key)
    requires RootsWalked(cfg, found, 256) && Reach(cfg, k)
    ensures k in Keys(found)
  {
    hide RootsWalked, Present, LeadsTo, IsRoot;
    var p :| IsPath(cfg, p) && p[|p| - 1] == k;
    PathFound(cfg, found, p, |p| - 1);
  }

  lemma {:induction false} PathFound(cfg: Config, found: seq<Device>, p: seq<Key>, i: nat)
    requires RootsWalked(cfg, found, 256) && IsPath(cfg, p) && i < |p|
    ensures p[i] in Keys(found)
  {
    hide Answers, MultiFunction, IsBridge, Secondary;
    assert Present(cfg, p[i]);
    if i > 0 {
      PathFound(cfg, found, p, i - 1);
      assert LeadsTo(cfg, p[i - 1], p[i].bus);
    }
  }
}
