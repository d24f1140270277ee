/** The file system as the directories describe it: which slots are live, which
    byte string each of them names, and which slots an open handle speaks for.

    `held` maps the first cluster of every chain to the chain's bytes, so nothing
    here knows about tables or sectors. */
module Catalog {
  import opened Bytes
  import opened Names
  import opened Slots

  datatype SlotId = SlotId(dir: int, k: int)

  datatype Ref = Ref(first: int, size: int)

  type Held = map<int, seq<byte>>
  type Refs = map<SlotId, Ref>

  /** All that the operations above the chains change. */
  datatype View = View(held: Held, dirs: set<int>, refs: Refs, open: set<SlotId>)

  /** `id` is a live slot of a known directory. */
  ghost predicate IsEntry(held: Held, dirs: set<int>, id: SlotId) {
    && id.dir in dirs && id.dir in held
    && 0 <= id.k < Count(held[id.dir]) && Live(SlotAt(held[id.dir], id.k))
  }

  ghost function SlotOf(held: Held, dirs: set<int>, id: SlotId): Slot
    requires IsEntry(held, dirs, id)
  {
    SlotAt(held[id.dir], id.k)
  }

  ghost predicate DirsKept(held: Held, dirs: set<int>) {
    forall d :: d in dirs ==> d in held && d != 0 && |held[d]| % 32 == 0 && ZeroTail(held[d])
  }

  ghost predicate RefsComplete(held: Held, dirs: set<int>, refs: Refs) {
    forall id :: id in refs <==> IsEntry(held, dirs, id)
  }

  /** A reference names nothing (first cluster 0), or a chain long enough for the
      recorded size; directories are named by directory slots and only by those. */
  ghost predicate RefOk(held: Held, dirs: set<int>, slot: Slot, r: Ref) {
    && 0 <= r.size
    && (r.first == 0 ==> r.size == 0 && !IsDir(slot))
    && (r.first != 0 ==> r.first in held && r.size <= |held[r.first]| && (r.first in dirs <==> IsDir(slot)))
  }

  ghost predicate RefsOk(held: Held, dirs: set<int>, refs: Refs) {
    forall id :: id in refs && IsEntry(held, dirs, id) ==> RefOk(held, dirs, SlotOf(held, dirs, id), refs[id])
  }

  /** No two slots share a chain. */
  ghost predicate RefsInjective(refs: Refs) {
    forall id, id' :: id in refs && id' in refs && refs[id].first == refs[id'].first && refs[id].first != 0 ==>
      id == id'
  }

  /** A slot no handle speaks for holds its own reference on disk. */
  ghost predicate OnDisk(held: Held, dirs: set<int>, refs: Refs, open: set<SlotId>) {
    forall id :: id in refs && id !in open && IsEntry(held, dirs, id) ==>
      refs[id] == Ref(FirstOf(SlotOf(held, dirs, id)), SizeOf(SlotOf(held, dirs, id)))
  }

  ghost predicate OpenOk(held: Held, dirs: set<int>, refs: Refs, open: set<SlotId>) {
    forall id :: id in open ==> id in refs && IsEntry(held, dirs, id) && !IsDir(SlotOf(held, dirs, id))
  }

  /** The invariant of every run. */
  ghost predicate Consistent(held: Held, dirs: set<int>, refs: Refs, open: set<SlotId>) {
    && 0 !in held
    && DirsKept(held, dirs)
    && RefsComplete(held, dirs, refs)
    && RefsOk(held, dirs, refs)
    && RefsInjective(refs)
    && OnDisk(held, dirs, refs, open)
    && OpenOk(held, dirs, refs, open)
  }

  /** The bytes of the file a slot names. */
  ghost function Content(held: Held, refs: Refs, id: SlotId): seq<byte> {
    if id in refs && refs[id].first in held && 0 <= refs[id].size <= |held[refs[id].first]|
    then held[refs[id].first][..refs[id].size] else []
  }

  /** Chains that are no directory may change or come and go without disturbing the entries. */
  lemma SameEntries(held: Held, held': Held, dirs: set<int>)
    requires forall d :: d in dirs && d in held ==> d in held' && held'[d] == held[d]
    requires forall d :: d in dirs && d in held' ==> d in held
    ensures forall id :: IsEntry(held', dirs, id) <==> IsEntry(held, dirs, id)
    ensures forall id :: IsEntry(held, dirs, id) ==> SlotOf(held', dirs, id) == SlotOf(held, dirs, id)
  {
  }

  /** A write through the handle of `id`, which may have given it its first chain. */
  lemma WriteKeeps(held: Held, dirs: set<int>, refs: Refs, open: set<SlotId>, id: SlotId, h: int, b: seq<byte>,
                   size: int)
    requires Consistent(held, dirs, refs, open) && id in open && h != 0
    requires refs[id].first == h || (refs[id].first == 0 && h !in held)
    requires 0 <= size <= |b|
    ensures h !in dirs
    ensures Consistent(held[h := b], dirs, refs[id := Ref(h, size)], open)
    ensures forall x :: x in refs && x != id ==> refs[x].first != h
  {
    hide Slots.Live, Slots.SlotAt, Slots.ZeroTail, Slots.IsDir, Slots.FirstOf, Slots.SizeOf, Slots.Count, IsEntry;
    assert RefOk(held, dirs, SlotOf(held, dirs, id), refs[id]);
    var held', refs' := held[h := b], refs[id := Ref(h, size)];
    SameEntries(held, held', dirs);
    forall x | x in refs && x != id ensures refs[x].first != h && RefOk(held', dirs, SlotOf(held', dirs, x), refs'[x]) {
      assert RefOk(held, dirs, SlotOf(held, dirs, x), refs[x]);
    }
  }

  /** A handle starts to speak for `id`. */
  lemma OpenKeeps(held: Held, dirs: set<int>, refs: Refs, open: set<SlotId>, id: SlotId)
    requires Consistent(held, dirs, refs, open) && id in refs && !IsDir(SlotOf(held, dirs, id))
    ensures Consistent(held, dirs, refs, open + {id})
  {
  }

  /** Truncation on open: the chain is gone, the slot on disk still names it. */
  lemma TruncateKeeps(held: Held, dirs: set<int>, refs: Refs, open: set<SlotId>, id: SlotId)
    requires Consistent(held, dirs, refs, open) && id in refs && !IsDir(SlotOf(held, dirs, id)) && refs[id].first != 0
    ensures Consistent(held - {refs[id].first}, dirs, refs[id := Ref(0, 0)], open + {id})
    ensures forall x :: x in refs && x != id ==> refs[x].first != refs[id].first
  {
    hide Slots.Live, Slots.SlotAt, Slots.ZeroTail, Slots.IsDir, Slots.FirstOf, Slots.SizeOf, Slots.Count;
    var h := refs[id].first;
    assert RefOk(held, dirs, SlotOf(held, dirs, id), refs[id]);
    var held', refs' := held - {h}, refs[id := Ref(0, 0)];
    SameEntries(held, held', dirs);
    forall x | x in refs && x != id ensures refs[x].first != h && RefOk(held', dirs, SlotOf(held', dirs, x), refs'[x]) {
      assert RefOk(held, dirs, SlotOf(held, dirs, x), refs[x]);
    }
  }

  lemma TruncateSame(held: Held, refs: Refs, id: SlotId)
    requires id in refs && 0 !in held
    requires forall x :: x in refs && x != id && refs[x].first != 0 ==> refs[x].first != refs[id].first
    ensures Content(held - {refs[id].first}, refs[id := Ref(0, 0)], id) == []
    ensures forall x :: x in refs && x != id ==>
              Content(held - {refs[id].first}, refs[id := Ref(0, 0)], x) == Content(held, refs, x)
  {
  }

  /** A chain nobody refers to yet. */
  lemma NewKeeps(held: Held, dirs: set<int>, refs: Refs, open: set<SlotId>, c: int, b: seq<byte>)
    requires Consistent(held, dirs, refs, open) && c !in held && c != 0
    ensures c !in dirs
    ensures Consistent(held[c := b], dirs, refs, open)
    ensures forall x :: x in refs ==> refs[x].first != c
  {
  }

  /** Rewriting slot `k` of directory `d`: the entries elsewhere keep their slots. */
  lemma PutEntry(held: Held, dirs: set<int>, d: int, k: int, s: Slot, held': Held, x: SlotId)
    requires d in dirs && d in held && 0 <= k < Count(held[d])
    requires d in held' && held'[d] == PutSlot(held[d], k, s)
    requires x.dir in dirs && x.dir != d ==>
               (x.dir in held <==> x.dir in held') && (x.dir in held ==> held'[x.dir] == held[x.dir])
    ensures x == SlotId(d, k) ==> (IsEntry(held', dirs, x) <==> Live(s)) && (Live(s) ==> SlotOf(held', dirs, x) == s)
    ensures x != SlotId(d, k) ==> (IsEntry(held', dirs, x) <==> IsEntry(held, dirs, x))
    ensures x != SlotId(d, k) && IsEntry(held, dirs, x) ==> SlotOf(held', dirs, x) == SlotOf(held, dirs, x)
  {
  }

  /** Close: the slot of `id` gets the handle's reference, and the handle stops speaking for it. */
  lemma CloseKeeps(held: Held, dirs: set<int>, refs: Refs, open: set<SlotId>, id: SlotId, s: Slot)
    requires Consistent(held, dirs, refs, open) && id in open
    requires 0 <= refs[id].first < TWO32 && 0 <= refs[id].size < TWO32
    requires s == SetRef(SlotOf(held, dirs, id), refs[id].first, refs[id].size)
    ensures Consistent(held[id.dir := PutSlot(held[id.dir], id.k, s)], dirs, refs, open - {id})
  {
    hide Slots.SlotAt, Slots.ZeroTail, Slots.IsDir, Slots.FirstOf, Slots.SizeOf, Slots.Count, Slots.PutSlot;
    hide Slots.SetRef, Slots.Live, Slots.Find;
    var d, k := id.dir, id.k;
    var held' := held[d := PutSlot(held[d], k, s)];
    SetRefLive(SlotOf(held, dirs, id), refs[id].first, refs[id].size);
    SetRefIsDir(SlotOf(held, dirs, id), refs[id].first, refs[id].size);
    FindAfterSetRef(held[d], k, refs[id].first, refs[id].size, Zeros(11));
    forall x ensures IsEntry(held', dirs, x) <==> IsEntry(held, dirs, x) { PutEntry(held, dirs, d, k, s, held', x); }
    forall x | IsEntry(held, dirs, x) ensures SlotOf(held', dirs, x) == if x == id then s else SlotOf(held, dirs, x) {
      PutEntry(held, dirs, d, k, s, held', x);
    }
    forall x | x in refs ensures RefOk(held', dirs, SlotOf(held', dirs, x), refs[x]) {
      assert RefOk(held, dirs, SlotOf(held, dirs, x), refs[x]);
    }
  }

  lemma SetRefIsDir(s: Slot, first: u32, size: u32)
    ensures IsDir(SetRef(s, first, size)) == IsDir(s)
    ensures FirstOf(SetRef(s, first, size)) == first && SizeOf(SetRef(s, first, size)) == size
  {
  }

  /** Unlink: the chain is gone and the slot carries the deletion mark. */
  lemma UnlinkKeeps(held: Held, dirs: set<int>, refs: Refs, open: set<SlotId>, id: SlotId, s: Slot)
    requires Consistent(held, dirs, refs, open) && id in refs && id !in open && !IsDir(SlotOf(held, dirs, id))
    requires s == SlotOf(held, dirs, id)[0 := DELETED]
    ensures id.dir != refs[id].first
    ensures Consistent((held - {refs[id].first})[id.dir := PutSlot(held[id.dir], id.k, s)], dirs, refs - {id}, open)
  {
    var d, k, h := id.dir, id.k, refs[id].first;
    assert RefOk(held, dirs, SlotOf(held, dirs, id), refs[id]);
    FindAfterDelete(held[d], k, Zeros(11));
    var held', refs' := (held - {h})[d := PutSlot(held[d], k, s)], refs - {id};
    assert !Live(s);
    UnlinkRest(held, dirs, refs, open, id, s, held');
  }

  lemma UnlinkRest(held: Held, dirs: set<int>, refs: Refs, open: set<SlotId>, id: SlotId, s: Slot, held': Held)
    requires Consistent(held, dirs, refs, open) && id in refs && id !in open
    requires refs[id].first !in dirs && !Live(s)
    requires held' == (held - {refs[id].first})[id.dir := PutSlot(held[id.dir], id.k, s)] && ZeroTail(held'[id.dir])
    ensures Consistent(held', dirs, refs - {id}, open)
  {
    hide Slots.SlotAt, Slots.ZeroTail, Slots.IsDir, Slots.FirstOf, Slots.SizeOf, Slots.PutSlot, Slots.Live, Slots.Find;
    var d, k, h := id.dir, id.k, refs[id].first;
    var refs' := refs - {id};
    forall x ensures IsEntry(held', dirs, x) <==> IsEntry(held, dirs, x) && x != id {
      PutEntry(held, dirs, d, k, s, held', x);
    }
    forall x | IsEntry(held, dirs, x) && x != id ensures SlotOf(held', dirs, x) == SlotOf(held, dirs, x) {
      PutEntry(held, dirs, d, k, s, held', x);
    }
    forall x | x in refs' ensures RefOk(held', dirs, SlotOf(held', dirs, x), refs'[x]) {
      assert RefOk(held, dirs, SlotOf(held, dirs, x), refs[x]);
    }
  }

  /** A zeroed chain nobody refers to may serve as a directory. */
  lemma DirKeeps(held: Held, dirs: set<int>, refs: Refs, open: set<SlotId>, c: int, w: nat)
    requires Consistent(held, dirs, refs, open) && c in held && held[c] == Zeros(w) && w % 32 == 0
    requires forall x :: x in refs ==> refs[x].first != c
    ensures Consistent(held, dirs + {c}, refs, open)
  {
  }

  /** A volume whose only directory is zeroed has no entries. */
  lemma EmptyConsistent(held: Held, n: nat)
    requires 0 !in held && 2 in held && held[2] == Zeros(n) && n % 32 == 0
    ensures Consistent(held, {2}, map[], {})
  {
  }

  /** A directory grows by a zeroed cluster. */
  lemma GrowKeeps(held: Held, dirs: set<int>, refs: Refs, open: set<SlotId>, d: int, w: nat)
    requires Consistent(held, dirs, refs, open) && d in dirs && w % 32 == 0
    ensures Consistent(held[d := held[d] + Zeros(w)], dirs, refs, open)
  {
    hide Slots.SlotAt, Slots.IsDir, Slots.FirstOf, Slots.SizeOf, Slots.ZeroTail;
    var b := held[d];
    var held' := held[d := b + Zeros(w)];
    GrowZeroTail(b, w);
    forall x ensures IsEntry(held', dirs, x) <==> IsEntry(held, dirs, x) {
      if x.dir == d && 0 <= x.k < Count(b + Zeros(w)) { GrowSlotAt(b, w, x.k); }
    }
    forall x | IsEntry(held, dirs, x) ensures SlotOf(held', dirs, x) == SlotOf(held, dirs, x) {
      if x.dir == d { GrowSlotAt(b, w, x.k); }
    }
    forall x | x in refs ensures RefOk(held', dirs, SlotOf(held', dirs, x), refs[x]) {
      assert RefOk(held, dirs, SlotOf(held, dirs, x), refs[x]);
    }
  }

  /** A new entry in the first vacant slot, naming a chain nobody refers to. */
  lemma PutKeeps(held: Held, dirs: set<int>, refs: Refs, open: set<SlotId>, d: int, s: Slot)
    requires Consistent(held, dirs, refs, open) && d in dirs && VacantFrom(held[d], 0) < Count(held[d])
    requires Live(s) && SizeOf(s) == 0 && FirstOf(s) != 0 && FirstOf(s) in held && (FirstOf(s) in dirs <==> IsDir(s))
    requires forall x :: x in refs ==> refs[x].first != FirstOf(s)
    ensures SlotId(d, VacantFrom(held[d], 0)) !in refs
    ensures Consistent(held[d := PutSlot(held[d], VacantFrom(held[d], 0), s)], dirs,
                       refs[SlotId(d, VacantFrom(held[d], 0)) := Ref(FirstOf(s), 0)], open)
  {
    var k := VacantFrom(held[d], 0);
    PutVacantZeroTail(held[d], k, s);
    assert !Live(SlotAt(held[d], k));
    PutRest(held, dirs, refs, open, d, k, s);
  }

  lemma PutRest(held: Held, dirs: set<int>, refs: Refs, open: set<SlotId>, d: int, k: int, s: Slot)
    requires Consistent(held, dirs, refs, open) && d in dirs && 0 <= k < Count(held[d]) && !Live(SlotAt(held[d], k))
    requires ZeroTail(PutSlot(held[d], k, s))
    requires Live(s) && SizeOf(s) == 0 && FirstOf(s) != 0 && FirstOf(s) in held && (FirstOf(s) in dirs <==> IsDir(s))
    requires forall x :: x in refs ==> refs[x].first != FirstOf(s)
    ensures SlotId(d, k) !in refs
    ensures Consistent(held[d := PutSlot(held[d], k, s)], dirs, refs[SlotId(d, k) := Ref(FirstOf(s), 0)], open)
  {
    hide Slots.SlotAt, Slots.ZeroTail, Slots.IsDir, Slots.FirstOf, Slots.SizeOf, Slots.PutSlot, Slots.Live, Slots.Find;
    var id := SlotId(d, k);
    var held', refs' := held[d := PutSlot(held[d], k, s)], refs[id := Ref(FirstOf(s), 0)];
    forall x ensures IsEntry(held', dirs, x) <==> IsEntry(held, dirs, x) || x == id {
      PutEntry(held, dirs, d, k, s, held', x);
    }
    forall x | IsEntry(held', dirs, x) ensures SlotOf(held', dirs, x) == if x == id then s else SlotOf(held, dirs, x) {
      PutEntry(held, dirs, d, k, s, held', x);
    }
    forall x | x in refs' ensures RefOk(held', dirs, SlotOf(held', dirs, x), refs'[x]) {
      if x != id { assert RefOk(held, dirs, SlotOf(held, dirs, x), refs[x]); }
    }
  }

  /** Creating an entry for a chain nobody refers to, in a directory that may have to grow. */
  lemma CreateKeeps(held: Held, dirs: set<int>, refs: Refs, open: set<SlotId>, d: int, w: nat, s: Slot)
    requires Consistent(held, dirs, refs, open) && d in dirs && 32 <= w && w % 32 == 0
    requires Live(s) && SizeOf(s) == 0 && FirstOf(s) != 0 && FirstOf(s) in held && (FirstOf(s) in dirs <==> IsDir(s))
    requires forall x :: x in refs ==> refs[x].first != FirstOf(s)
    ensures var b := Roomy(held[d], w);
            var k := VacantFrom(b, 0);
            && k < Count(b) && SlotId(d, k) !in refs
            && Consistent(held[d := PutSlot(b, k, s)], dirs, refs[SlotId(d, k) := Ref(FirstOf(s), 0)], open)
  {
    hide Slots.SlotAt, Slots.ZeroTail, Slots.IsDir, Slots.FirstOf, Slots.SizeOf, Slots.PutSlot, Slots.Live, Slots.Find;
    hide Slots.Count, Slots.VacantFrom, Consistent;
    assert DirsKept(held, dirs) by { ConsistentDirs(held, dirs, refs, open); }
    var b := Roomy(held[d], w);
    RoomyFinds(held[d], w, Zeros(11));
    var held1 := held[d := b];
    if b == held[d] {
      assert held1 == held;
    } else {
      GrowKeeps(held, dirs, refs, open, d, w);
    }
    PutKeeps(held1, dirs, refs, open, d, s);
    assert held1[d := PutSlot(b, VacantFrom(b, 0), s)] == held[d := PutSlot(b, VacantFrom(b, 0), s)];
  }

  lemma ConsistentDirs(held: Held, dirs: set<int>, refs: Refs, open: set<SlotId>)
    requires Consistent(held, dirs, refs, open)
    ensures DirsKept(held, dirs)
  {
  }

  /** Lookups after a creation: the new name is found at the new slot, other names as before. */
  lemma CreateFinds(b: seq<byte>, w: nat, s: Slot, nm: Name11)
    requires ZeroTail(b) && |b| % 32 == 0 && 32 <= w && w % 32 == 0 && Live(s)
    ensures var r := Roomy(b, w);
            var k := VacantFrom(r, 0);
            && k < Count(r)
            && (NameOf(s) == nm && Find(b, nm) == -1 ==> Find(PutSlot(r, k, s), nm) == k)
            && (NameOf(s) != nm ==> Find(PutSlot(r, k, s), nm) == Find(b, nm))
  {
    hide Slots.SlotAt, Slots.ZeroTail, Slots.PutSlot, Slots.Live, Slots.Find, Slots.Count, Slots.VacantFrom;
    hide Slots.Roomy;
    RoomyFinds(b, w, nm);
    FindAfterCreate(Roomy(b, w), VacantFrom(Roomy(b, w), 0), s, nm);
  }
}
