/** The 32-byte slots of a directory, read out of the directory's bytes. */
module Slots {
  import opened Bytes
  import opened Names

  const DELETED: byte := 0xE5
  const ATTR_LFN: byte := 0x0F
  const ATTR_DIRECTORY: byte := 0x10
  const ATTR_ARCHIVE: byte := 0x20

  type Slot = s: seq<byte> | |s| == 32 witness Zeros(32)

  function Count(b: seq<byte>): nat { |b| / 32 }

  function SlotAt(b: seq<byte>, k: int): Slot
    requires 0 <= k < Count(b)
  {
    b[32 * k..32 * k + 32]
  }

  predicate End(s: Slot) { s[0] == 0 }

  predicate Vacant(s: Slot) { s[0] == 0 || s[0] == 0xE5 }

  predicate Live(s: Slot) { !Vacant(s) && s[11] != 0x0F }

  predicate IsDir(s: Slot) { s[11] / 16 % 2 == 1 }

  function NameOf(s: Slot): Name11 { s[..11] }

  function FirstOf(s: Slot): u32 { 0x1_0000 * Load16(s, 20) as int + Load16(s, 26) }

  function SizeOf(s: Slot): u32 { Load32(s, 28) }

  /** The number whose bytes, lowest first, are these. */
  function Word(a: byte, b: byte, c: byte, d: byte): u32 {
    a as int + 0x100 * b as int + 0x1_0000 * c as int + 0x100_0000 * d as int
  }

  predicate Matches(s: Slot, nm: Name11) { Live(s) && NameOf(s) == nm }

  /** The slot `fat32_create_entry` builds. */
  function MakeSlot(nm: Name11, attr: byte, first: u32): (s: Slot)
    ensures NameOf(s) == nm && s[11] == attr && FirstOf(s) == first && SizeOf(s) == 0
  {
    var z := Splice(Zeros(32), 0, nm)[11 := attr];
    var s := Store16(Store16(z, 26, first % 0x1_0000), 20, first / 0x1_0000 % 0x1_0000);
    assert Load16(s, 26) == Load16(Store16(z, 26, first % 0x1_0000), 26);
    assert forall i :: 0 <= i < 11 ==> s[i] == nm[i];
    s
  }

  /** The slot after `fat32_close` recorded the handle's cluster and size. */
  function SetRef(s: Slot, first: u32, size: u32): (r: Slot)
    ensures NameOf(r) == NameOf(s) && r[11] == s[11] && FirstOf(r) == first && SizeOf(r) == size
  {
    var a := Store32(s, 28, size);
    var b := Store16(a, 26, first % 0x1_0000);
    var r := Store16(b, 20, first / 0x1_0000 % 0x1_0000);
    assert Load16(r, 26) == Load16(b, 26);
    assert Load32(r, 28) == Load32(a, 28);
    assert forall i :: 0 <= i < 11 ==> r[i] == s[i];
    r
  }

  /** Which slots are live: neither unused nor deleted nor part of a long name. And where the 32 bytes have the
      first cluster and the size (FAT32 File System Specification, "FAT Directory Structure"). */
  lemma SlotFields(s: Slot)
    ensures Live(s) <==> s[0] != 0x00 && s[0] != 0xE5 && s[11] != 15
    ensures FirstOf(s) == Word(s[26], s[27], s[20], s[21]) && SizeOf(s) == Word(s[28], s[29], s[30], s[31])
  {
  }

  /** A new slot has nothing but name, attribute and first cluster in it. */
  lemma MakeSlotBytes(nm: Name11, attr: byte, first: u32)
    ensures MakeSlot(nm, attr, first)[..11] == nm && MakeSlot(nm, attr, first)[11] == attr
    ensures forall i :: 12 <= i < 20 || 22 <= i < 26 || 28 <= i < 32 ==> MakeSlot(nm, attr, first)[i] == 0
  {
    hide Le16;
    assert Splice(Zeros(32), 0, nm)[11 := attr][..11] == nm;
  }

  /** Recording a cluster and a size touches no other field. */
  lemma SetRefBytes(s: Slot, first: u32, size: u32)
    ensures forall i :: 0 <= i < 20 || 22 <= i < 26 ==> SetRef(s, first, size)[i] == s[i]
  {
  }

  /** Slot numbers in scan order: the first match at or after `k`, or -1. The scan
      gives up at the first never-used slot. */
  function FindFrom(b: seq<byte>, nm: Name11, k: nat): (r: int)
    decreases Count(b) - k
  {
    if k >= Count(b) || End(SlotAt(b, k)) then -1
    else if Matches(SlotAt(b, k), nm) then k
    else FindFrom(b, nm, k + 1)
  }

  function Find(b: seq<byte>, nm: Name11): int { FindFrom(b, nm, 0) }

  /** The first reusable slot at or after `k`, or the number of slots. */
  function VacantFrom(b: seq<byte>, k: nat): (r: nat)
    ensures k <= r && (k <= Count(b) ==> r <= Count(b))
    ensures r < Count(b) ==> Vacant(SlotAt(b, r))
    ensures forall j :: k <= j < r && j < Count(b) ==> !Vacant(SlotAt(b, j))
    decreases Count(b) - k
  {
    if k >= Count(b) || Vacant(SlotAt(b, k)) then k else VacantFrom(b, k + 1)
  }

  predicate HasVacancy(b: seq<byte>) { VacantFrom(b, 0) < Count(b) }

  /** The first vacant slot is the only one. */
  predicate LastVacancy(b: seq<byte>) { HasVacancy(b) && VacantFrom(b, VacantFrom(b, 0) + 1) >= Count(b) }

  /** Behind the first never-used slot there are only never-used slots. */
  ghost predicate ZeroTail(b: seq<byte>) {
    forall i, j :: 0 <= i < j < Count(b) && End(SlotAt(b, i)) ==> End(SlotAt(b, j))
  }

  /** `r` is the least slot that is live and carries the name; -1 says there is none. */
  ghost predicate IsFirst(b: seq<byte>, nm: Name11, r: int) {
    && (r == -1 || (0 <= r < Count(b) && Matches(SlotAt(b, r), nm)))
    && (forall j :: 0 <= j < (if r == -1 then Count(b) else r) ==> !Matches(SlotAt(b, j), nm))
  }

  lemma {:induction false} FindScans(b: seq<byte>, nm: Name11, k: nat)
    requires ZeroTail(b) && k <= Count(b)
    requires forall j :: 0 <= j < k ==> !Matches(SlotAt(b, j), nm)
    ensures IsFirst(b, nm, FindFrom(b, nm, k))
    decreases Count(b) - k
  {
    if k < Count(b) && !End(SlotAt(b, k)) && !Matches(SlotAt(b, k), nm) {
      FindScans(b, nm, k + 1);
    } else if k < Count(b) && End(SlotAt(b, k)) {
      forall j | k <= j < Count(b) ensures !Matches(SlotAt(b, j), nm) { assert k < j ==> End(SlotAt(b, j)); }
    }
  }

  /** In a well-kept directory the scan finds the first live match, if there is one. */
  lemma FindIsFirst(b: seq<byte>, nm: Name11, r: int)
    requires ZeroTail(b)
    ensures Find(b, nm) == r <==> IsFirst(b, nm, r)
  {
    FindScans(b, nm, 0);
  }

  /** No slot can be found under a name that starts with the deletion mark. */
  lemma {:induction false} DeletedNameNotFound(b: seq<byte>, nm: Name11, k: nat)
    requires nm[0] == 0xE5 || nm[0] == 0
    ensures FindFrom(b, nm, k) == -1
    decreases Count(b) - k
  {
    if k < Count(b) && !End(SlotAt(b, k)) {
      assert SlotAt(b, k)[0] == NameOf(SlotAt(b, k))[0];
      DeletedNameNotFound(b, nm, k + 1);
    }
  }

  /** Overwriting slot `k`. */
  function PutSlot(b: seq<byte>, k: int, s: Slot): (r: seq<byte>)
    requires 0 <= k < Count(b)
    ensures |r| == |b|
  {
    Splice(b, 32 * k, s)
  }

  lemma PutSlotAt(b: seq<byte>, k: int, s: Slot, j: int)
    requires 0 <= k < Count(b) && 0 <= j < Count(b)
    ensures SlotAt(PutSlot(b, k, s), j) == if j == k then s else SlotAt(b, j)
  {
  }

  lemma GrowSlotAt(b: seq<byte>, w: nat, j: int)
    requires |b| % 32 == 0 && w % 32 == 0 && 0 <= j < Count(b + Zeros(w))
    ensures Count(b + Zeros(w)) == Count(b) + Count(Zeros(w))
    ensures j < Count(b) ==> SlotAt(b + Zeros(w), j) == SlotAt(b, j)
    ensures j >= Count(b) ==> End(SlotAt(b + Zeros(w), j))
  {
  }

  lemma GrowZeroTail(b: seq<byte>, w: nat)
    requires |b| % 32 == 0 && w % 32 == 0 && ZeroTail(b)
    ensures ZeroTail(b + Zeros(w))
  {
    var c := b + Zeros(w);
    forall i, j | 0 <= i < j < Count(c) && End(SlotAt(c, i)) ensures End(SlotAt(c, j)) {
      GrowSlotAt(b, w, i);
      GrowSlotAt(b, w, j);
    }
  }

  /** Using the first vacant slot keeps the tail clean. */
  lemma PutVacantZeroTail(b: seq<byte>, k: int, s: Slot)
    requires ZeroTail(b) && 0 <= k < Count(b) && !End(s)
    requires !End(SlotAt(b, k)) || forall j :: 0 <= j < k ==> !End(SlotAt(b, j))
    ensures ZeroTail(PutSlot(b, k, s))
  {
    var r := PutSlot(b, k, s);
    forall i, j | 0 <= i < j < Count(r) && End(SlotAt(r, i)) ensures End(SlotAt(r, j)) {
      PutSlotAt(b, k, s, i);
      PutSlotAt(b, k, s, j);
    }
  }

  /** Creating an entry under an unused name makes exactly that name findable. */
  lemma FindAfterCreate(b: seq<byte>, k: int, s: Slot, nm: Name11)
    requires ZeroTail(b) && k == VacantFrom(b, 0) < Count(b) && Live(s)
    ensures ZeroTail(PutSlot(b, k, s))
    ensures NameOf(s) == nm && Find(b, nm) == -1 ==> Find(PutSlot(b, k, s), nm) == k
    ensures NameOf(s) != nm ==> Find(PutSlot(b, k, s), nm) == Find(b, nm)
  {
    var r := PutSlot(b, k, s);
    PutVacantZeroTail(b, k, s);
    FindIsFirst(b, nm, Find(b, nm));
    var f := if NameOf(s) == nm then k else Find(b, nm);
    if NameOf(s) != nm || Find(b, nm) == -1 {
      forall j | 0 <= j < Count(b) ensures j != k ==> SlotAt(r, j) == SlotAt(b, j) { PutSlotAt(b, k, s, j); }
      PutSlotAt(b, k, s, k);
      FindIsFirst(r, nm, f);
    }
  }

  /** The directory with room for one more slot: itself, or one zeroed cluster longer. */
  function Roomy(b: seq<byte>, w: nat): seq<byte> {
    if VacantFrom(b, 0) < Count(b) then b else b + Zeros(w)
  }

  lemma GrownVacant(b: seq<byte>, w: nat)
    requires |b| % 32 == 0 && 32 <= w && w % 32 == 0 && VacantFrom(b, 0) == Count(b)
    ensures VacantFrom(b + Zeros(w), 0) == Count(b) == VacantFrom(b + Zeros(w), Count(b))
  {
    hide VacantFrom, SlotAt;
    var c := b + Zeros(w);
    var v := VacantFrom(c, 0);
    GrowSlotAt(b, w, Count(b));
    forall j | 0 <= j < Count(b) ensures !Vacant(SlotAt(c, j)) { GrowSlotAt(b, w, j); }
  }

  /** Room changes no lookup. */
  lemma RoomyFinds(b: seq<byte>, w: nat, nm: Name11)
    requires ZeroTail(b) && |b| % 32 == 0 && 32 <= w && w % 32 == 0
    ensures ZeroTail(Roomy(b, w)) && VacantFrom(Roomy(b, w), 0) < Count(Roomy(b, w)) && |Roomy(b, w)| % 32 == 0
    ensures Find(Roomy(b, w), nm) == Find(b, nm)
  {
    if VacantFrom(b, 0) >= Count(b) {
      var c := b + Zeros(w);
      GrownVacant(b, w);
      GrowZeroTail(b, w);
      FindIsFirst(b, nm, Find(b, nm));
      hide SlotAt, Find;
      forall j | 0 <= j < Count(c) ensures Matches(SlotAt(c, j), nm) <==> j < Count(b) && Matches(SlotAt(b, j), nm) {
        GrowSlotAt(b, w, j);
      }
      FindIsFirst(c, nm, Find(b, nm));
    }
  }

  /** Rewriting a slot's cluster and size hides nothing and moves nothing. */
  lemma FindAfterSetRef(b: seq<byte>, k: int, first: u32, size: u32, nm: Name11)
    requires ZeroTail(b) && 0 <= k < Count(b) && Live(SlotAt(b, k))
    ensures ZeroTail(PutSlot(b, k, SetRef(SlotAt(b, k), first, size)))
    ensures Find(PutSlot(b, k, SetRef(SlotAt(b, k), first, size)), nm) == Find(b, nm)
  {
    var s := SetRef(SlotAt(b, k), first, size);
    var r := PutSlot(b, k, s);
    SetRefLive(SlotAt(b, k), first, size);
    PutVacantZeroTail(b, k, s);
    FindIsFirst(b, nm, Find(b, nm));
    forall j | 0 <= j < Count(b) ensures Matches(SlotAt(r, j), nm) == Matches(SlotAt(b, j), nm) {
      PutSlotAt(b, k, s, j);
    }
    FindIsFirst(r, nm, Find(b, nm));
  }

  lemma SetRefLive(s: Slot, first: u32, size: u32)
    ensures SetRef(s, first, size)[0] == s[0]
    ensures Live(SetRef(s, first, size)) == Live(s) && End(SetRef(s, first, size)) == End(s)
  {
  }

  /** Deleting the slot found under a name leaves every other lookup alone. */
  lemma FindAfterDelete(b: seq<byte>, k: int, nm: Name11)
    requires ZeroTail(b) && 0 <= k < Count(b) && Live(SlotAt(b, k))
    ensures ZeroTail(PutSlot(b, k, SlotAt(b, k)[0 := 0xE5]))
    ensures Find(b, nm) != k ==> Find(PutSlot(b, k, SlotAt(b, k)[0 := 0xE5]), nm) == Find(b, nm)
    ensures Find(PutSlot(b, k, SlotAt(b, k)[0 := 0xE5]), nm) != k
  {
    var s := SlotAt(b, k)[0 := 0xE5];
    var r := PutSlot(b, k, s);
    PutVacantZeroTail(b, k, s);
    FindIsFirst(b, nm, Find(b, nm));
    FindIsFirst(r, nm, Find(r, nm));
    PutSlotAt(b, k, s, k);
    if Find(b, nm) != k {
      forall j | 0 <= j < Count(b) && j != k ensures SlotAt(r, j) == SlotAt(b, j) { PutSlotAt(b, k, s, j); }
      FindIsFirst(r, nm, Find(b, nm));
    }
  }

  lemma VacancyIs(b: seq<byte>, j: int)
    requires 0 <= j < Count(b) && Vacant(SlotAt(b, j))
    ensures HasVacancy(b)
  {
  }

  /** Rewriting a slot without making it vacant or taking a vacancy. */
  lemma SameVacancy(b: seq<byte>, k: int, s: Slot)
    requires 0 <= k < Count(b) && (Vacant(s) <==> Vacant(SlotAt(b, k)))
    ensures HasVacancy(PutSlot(b, k, s)) <==> HasVacancy(b)
  {
    hide SlotAt, PutSlot, VacantFrom, Vacant;
    var r := PutSlot(b, k, s);
    if HasVacancy(b) {
      PutSlotAt(b, k, s, VacantFrom(b, 0));
      VacancyIs(r, VacantFrom(b, 0));
    }
    if HasVacancy(r) {
      PutSlotAt(b, k, s, VacantFrom(r, 0));
      VacancyIs(b, VacantFrom(r, 0));
    }
  }

  /** Filling the first vacant slot leaves another one unless it was the last. */
  lemma FilledVacancy(b: seq<byte>, s: Slot)
    requires HasVacancy(b) && !Vacant(s)
    ensures HasVacancy(PutSlot(b, VacantFrom(b, 0), s)) <==> !LastVacancy(b)
  {
    hide SlotAt, PutSlot, VacantFrom, Vacant;
    var k := VacantFrom(b, 0);
    var r, j := PutSlot(b, k, s), VacantFrom(b, k + 1);
    if j < Count(b) {
      PutSlotAt(b, k, s, j);
      VacancyIs(r, j);
    }
    if HasVacancy(r) { PutSlotAt(b, k, s, VacantFrom(r, 0)); }
  }

  /** A directory that had to grow by two slots or more for a new one has room for the next. */
  lemma GrownVacancy(b: seq<byte>, w: nat, s: Slot)
    requires |b| % 32 == 0 && 64 <= w && w % 32 == 0 && !HasVacancy(b) && !Vacant(s)
    ensures HasVacancy(b + Zeros(w)) && HasVacancy(PutSlot(b + Zeros(w), VacantFrom(b + Zeros(w), 0), s))
  {
    hide SlotAt, PutSlot, VacantFrom;
    GrownVacant(b, w);
    var c, j := b + Zeros(w), Count(b) + 1;
    GrowSlotAt(b, w, j - 1);
    GrowSlotAt(b, w, j);
    PutSlotAt(c, j - 1, s, j);
    VacancyIs(PutSlot(c, j - 1, s), j);
  }
}
