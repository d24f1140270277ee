/** The file system as its users know it: in every directory, a map from names to documents and folders. */
module Nodes {
  import opened Bytes
  import opened Names
  import opened Slots
  import opened Catalog
  import opened FileSystem

  datatype Node = Nothing | Folder(cluster: int) | Document(bytes: seq<byte>)

  /** What slot `k` of directory `d` stands for. */
  ghost function NodeIn(held: Held, refs: Refs, d: int, k: int): Node {
    if d !in held || !(0 <= k < Count(held[d])) then Nothing
    else if IsDir(SlotAt(held[d], k)) then Folder(FirstOf(SlotAt(held[d], k)))
    else Document(Content(held, refs, SlotId(d, k)))
  }

  /** What name `nm` stands for in directory `d`. */
  ghost function NodeAt(held: Held, refs: Refs, d: int, nm: Name11): Node {
    NodeIn(held, refs, d, Lookup(held, d, nm))
  }

  /** What it would stand for without the slot it leads to. */
  ghost function NextNode(held: Held, refs: Refs, d: int, nm: Name11): Node {
    var k := Lookup(held, d, nm);
    if d in held && k >= 0 then NodeIn(held, refs, d, FindFrom(held[d], nm, k + 1)) else Nothing
  }

  /** No live slot but `k` has the name. */
  ghost predicate OnlySlot(b: seq<byte>, nm: Name11, k: int) {
    forall j :: 0 <= j < Count(b) && Matches(SlotAt(b, j), nm) ==> j == k
  }

  /** At most one slot of directory `d` has the name. */
  ghost predicate Sole(held: Held, d: int, nm: Name11) { d in held && OnlySlot(held[d], nm, Lookup(held, d, nm)) }

  /** Name `y` of directory `x` leads to the slot it led to, of as many as there were before. */
  ghost predicate SameSlot(v0: View, v: View, x: int, y: Name11) {
    Lookup(v.held, x, y) == Lookup(v0.held, x, y) && (Sole(v.held, x, y) <==> Sole(v0.held, x, y))
  }

  /** And it stands for what it stood for. */
  ghost predicate SameNode(v0: View, v: View, x: int, y: Name11) {
    && SameSlot(v0, v, x, y)
    && NodeAt(v.held, v.refs, x, y) == NodeAt(v0.held, v0.refs, x, y)
  }

  /** So does, in every directory known before, every name but `nm` in `d`. */
  ghost predicate SameBut(v0: View, v: View, d: int, nm: Name11) {
    forall x, y: Name11 :: x in v0.dirs && (x != d || y != nm) ==> SameNode(v0, v, x, y)
  }

  /** The map is updated at one name. */
  ghost predicate Becomes(v0: View, v: View, d: int, nm: Name11, n: Node) {
    SameBut(v0, v, d, nm) && NodeAt(v.held, v.refs, d, nm) == n
  }

  ghost predicate SameNodes(v0: View, v: View) { forall x, y: Name11 :: x in v0.dirs ==> SameNode(v0, v, x, y) }

  ghost predicate RewrittenAt(v0: View, v: View, id: SlotId, x: int, y: Name11) {
    && SameSlot(v0, v, x, y)
    && NodeAt(v.held, v.refs, x, y) ==
       if x == id.dir && Lookup(v0.held, x, y) == id.k then Document(Content(v.held, v.refs, id))
       else NodeAt(v0.held, v0.refs, x, y)
  }

  /** Whatever name leads to slot `id` stands for the slot's new contents, every other name for what it stood for. */
  ghost predicate Rewritten(v0: View, v: View, id: SlotId) {
    forall x, y: Name11 :: x in v0.dirs ==> RewrittenAt(v0, v, id, x, y)
  }

  /** The name is gone, unless another slot has it too; no other name noticed. */
  ghost predicate Removed(v0: View, v: View, d: int, nm: Name11) {
    && SameBut(v0, v, d, nm) && d in v0.held
    && (NodeAt(v.held, v.refs, d, nm) == Nothing <==> Sole(v0.held, d, nm))
  }

  /** The directory that name `nm` leads to from directory `d`, or -1. */
  ghost function DirNamed(held: Held, d: int, nm: Name11): int {
    var k := Lookup(held, d, nm);
    if d in held && 0 <= k < Count(held[d]) && IsDir(SlotAt(held[d], k)) then FirstOf(SlotAt(held[d], k)) else -1
  }

  /** Every name that leads to a directory still leads to it. */
  ghost predicate LeadsKept(held: Held, held': Held, dirs: set<int>) {
    forall d, nm: Name11 :: d in dirs && DirNamed(held, d, nm) >= 0 ==> DirNamed(held', d, nm) == DirNamed(held, d, nm)
  }

  lemma SameDirsLead(held: Held, held': Held, dirs: set<int>)
    requires forall d :: d in dirs && d in held ==> d in held' && held'[d] == held[d]
    ensures LeadsKept(held, held', dirs)
  {
    hide Find, SlotAt, IsDir, FirstOf, Count;
  }

  lemma SameCount(b: seq<byte>, b': seq<byte>)
    requires |b'| == |b|
    ensures Count(b') == Count(b)
  {
  }

  /** A slot stays where it is while the directory grows and the first vacant slot is filled. */
  lemma RoomyLeads(b: seq<byte>, w: nat, s: Slot, j: int, nm: Name11)
    requires ZeroTail(b) && |b| % 32 == 0 && 32 <= w && w % 32 == 0 && 0 <= j == Find(b, nm) < Count(b)
    requires VacantFrom(Roomy(b, w), 0) < Count(Roomy(b, w))
    ensures var r := PutSlot(Roomy(b, w), VacantFrom(Roomy(b, w), 0), s);
            j < Count(r) && SlotAt(r, j) == SlotAt(b, j)
  {
    hide Find, SlotAt, PutSlot, ZeroTail, VacantFrom;
    FindIsFirst(b, nm, j);
    var r := Roomy(b, w);
    var k := VacantFrom(r, 0);
    if r != b { GrowSlotAt(b, w, j); }
    assert SlotAt(r, j) == SlotAt(b, j);
    SameCount(r, PutSlot(r, k, s));
    PutSlotAt(r, k, s, j);
  }

  /** Rewriting a slot without giving it the name or taking the name away. */
  lemma PutTwins(b: seq<byte>, k: int, s: Slot, nm: Name11, j: int)
    requires 0 <= k < Count(b) && (Matches(s, nm) <==> Matches(SlotAt(b, k), nm))
    ensures OnlySlot(PutSlot(b, k, s), nm, j) <==> OnlySlot(b, nm, j)
  {
    hide SlotAt, PutSlot, Live;
    forall i | 0 <= i < Count(b) ensures Matches(SlotAt(PutSlot(b, k, s), i), nm) <==> Matches(SlotAt(b, i), nm) {
      PutSlotAt(b, k, s, i);
    }
  }

  lemma RoomyTwins(b: seq<byte>, w: nat, nm: Name11, j: int)
    requires |b| % 32 == 0 && w % 32 == 0
    ensures OnlySlot(Roomy(b, w), nm, j) <==> OnlySlot(b, nm, j)
  {
    hide SlotAt, VacantFrom;
    var r := Roomy(b, w);
    forall i | 0 <= i < Count(r) ensures Matches(SlotAt(r, i), nm) <==> i < Count(b) && Matches(SlotAt(b, i), nm) {
      if r != b { GrowSlotAt(b, w, i); }
    }
    assert Count(b) <= Count(r);
  }

  lemma MadeLive(nm: Name11, attr: byte, first: u32)
    requires nm[0] != DELETED && nm[0] != 0 && attr != ATTR_LFN
    ensures Live(MakeSlot(nm, attr, first)) && NameOf(MakeSlot(nm, attr, first)) == nm
  {
    hide MakeSlot;
    assert NameOf(MakeSlot(nm, attr, first))[0] == MakeSlot(nm, attr, first)[0];
  }

  /** A live slot of a known directory is in the catalogue. */
  lemma SlotEntry(v: View, d: int, k: int)
    requires Consistent(v.held, v.dirs, v.refs, v.open) && d in v.dirs && d in v.held && 0 <= k < Count(v.held[d])
    requires Live(SlotAt(v.held[d], k))
    ensures var id := SlotId(d, k);
            id in v.refs && (!IsDir(SlotAt(v.held[d], k)) ==> v.refs[id].first !in v.dirs)
  {
    hide SlotAt, FirstOf, IsDir, Find, SizeOf, Live, ZeroTail, Count;
    var id := SlotId(d, k);
    assert IsEntry(v.held, v.dirs, id);
    assert RefOk(v.held, v.dirs, SlotOf(v.held, v.dirs, id), v.refs[id]);
  }

  /** A slot that a name leads to is in the catalogue under that name. */
  lemma NodeEntry(v: View, d: int, nm: Name11)
    requires Consistent(v.held, v.dirs, v.refs, v.open) && d in v.dirs && Lookup(v.held, d, nm) >= 0
    ensures d in v.held && Lookup(v.held, d, nm) < Count(v.held[d])
    ensures var id := SlotId(d, Lookup(v.held, d, nm));
            var slot := SlotAt(v.held[d], id.k);
            && id in v.refs && NameOf(slot) == nm && Live(slot)
            && (!IsDir(slot) ==> v.refs[id].first !in v.dirs)
  {
    hide SlotAt, FirstOf, IsDir, Find, SizeOf, Live, ZeroTail;
    assert ZeroTail(v.held[d]);
    FindIsFirst(v.held[d], nm, Lookup(v.held, d, nm));
    SlotEntry(v, d, Lookup(v.held, d, nm));
  }

  /** A write reaches the names of its slot and no other. */
  lemma WrittenNodes(v0: View, v: View, id: SlotId)
    requires Consistent(v0.held, v0.dirs, v0.refs, v0.open) && IsFile(v0.held, v0.dirs, id)
    requires forall d :: d in v0.dirs ==> d in v0.held && d in v.held && v.held[d] == v0.held[d]
    requires forall x :: x in v0.refs && x != id ==> Content(v.held, v.refs, x) == Content(v0.held, v0.refs, x)
    ensures Rewritten(v0, v, id)
  {
    hide SlotAt, FirstOf, IsDir, Find, Count, Content, Consistent, Live;
    forall x, y: Name11 | x in v0.dirs ensures RewrittenAt(v0, v, id, x, y) {
      if Lookup(v0.held, x, y) >= 0 { NodeEntry(v0, x, y); }
    }
  }

  /** Closing a file changes what no name stands for. */
  lemma RecordedNodes(v0: View, v: View, id: SlotId, first: u32, size: u32)
    requires Consistent(v0.held, v0.dirs, v0.refs, v0.open) && IsFile(v0.held, v0.dirs, id)
    requires Recorded(v0.held, v.held, id, first, size) && v.refs == v0.refs && v.dirs == v0.dirs
    requires SameFiles(v0.held, v.held, v0.refs, v0.dirs)
    ensures SameNodes(v0, v) && LeadsKept(v0.held, v.held, v0.dirs)
  {
    hide SlotAt, FirstOf, IsDir, Find, Count, Content, Consistent, Live, PutSlot, SetRef, ZeroTail;
    var b, s := v0.held[id.dir], SetRef(SlotAt(v0.held[id.dir], id.k), first, size);
    DirTail(v0, id.dir);
    SetRefIsDir(SlotAt(b, id.k), first, size);
    forall x, y: Name11 | x in v0.dirs ensures SameNode(v0, v, x, y) {
      DirTail(v0, x);
      if Lookup(v0.held, x, y) >= 0 { NodeEntry(v0, x, y); }
      if x == id.dir {
        FindAfterSetRef(b, id.k, first, size, y);
        SameCount(b, PutSlot(b, id.k, s));
        SetRefLive(SlotAt(b, id.k), first, size);
        PutTwins(b, id.k, s, y, Lookup(v0.held, x, y));
        if Lookup(v0.held, x, y) >= 0 { PutSlotAt(b, id.k, s, Lookup(v0.held, x, y)); }
      }
    }
    SameNodesLead(v0, v);
  }

  lemma RecordedVacancies(v0: View, held: Held, id: SlotId, first: u32, size: u32)
    requires Consistent(v0.held, v0.dirs, v0.refs, v0.open) && IsFile(v0.held, v0.dirs, id)
    requires Recorded(v0.held, held, id, first, size)
    ensures SameVacancies(v0.held, held, v0.dirs)
  {
    hide SlotAt, FirstOf, IsDir, Find, Count, Consistent, Live, PutSlot, SetRef, ZeroTail, HasVacancy;
    var s := SlotAt(v0.held[id.dir], id.k);
    SetRefLive(s, first, size);
    SameVacancy(v0.held[id.dir], id.k, SetRef(s, first, size));
    forall d | d in v0.dirs ensures d in v0.held { DirTail(v0, d); }
  }

  lemma SameNodesLead(v0: View, v: View)
    requires SameNodes(v0, v)
    ensures LeadsKept(v0.held, v.held, v0.dirs)
  {
    hide SlotAt, FirstOf, IsDir, Find, Count, Content;
    forall x, y: Name11 | x in v0.dirs ensures DirNamed(v.held, x, y) == DirNamed(v0.held, x, y) {
      assert SameNode(v0, v, x, y);
    }
  }

  lemma DirTail(v: View, d: int)
    requires Consistent(v.held, v.dirs, v.refs, v.open) && d in v.dirs
    ensures d in v.held && ZeroTail(v.held[d]) && |v.held[d]| % 32 == 0 && d != 0
  {
  }

  /** Unlinking takes the name away, unless another slot has it too. */
  lemma ErasedNodes(v0: View, v: View, id: SlotId, nm: Name11)
    requires Consistent(v0.held, v0.dirs, v0.refs, v0.open) && IsFile(v0.held, v0.dirs, id)
    requires Lookup(v0.held, id.dir, nm) == id.k && Erased(v0.held, v.held, id, v0.refs)
    requires v.refs == v0.refs - {id} && v.dirs == v0.dirs
    requires forall x :: x in v.refs && v.refs[x].first !in v.dirs ==>
               Content(v.held, v.refs, x) == Content(v0.held, v0.refs, x)
    ensures Removed(v0, v, id.dir, nm) && FilesKept(v0, v, id) && LeadsKept(v0.held, v.held, v0.dirs)
    ensures NodeAt(v.held, v.refs, id.dir, nm) == NextNode(v0.held, v0.refs, id.dir, nm)
  {
    hide SlotAt, FirstOf, IsDir, Find, Count, Content, Consistent, Live, PutSlot, ZeroTail, OnlySlot, LeadsKept;
    var b, s := v0.held[id.dir], SlotAt(v0.held[id.dir], id.k)[0 := DELETED];
    DirTail(v0, id.dir);
    NodeEntry(v0, id.dir, nm);
    forall x, y: Name11 | x in v0.dirs && (x != id.dir || y != nm) ensures SameNode(v0, v, x, y) {
      DirTail(v0, x);
      if Lookup(v0.held, x, y) >= 0 { NodeEntry(v0, x, y); }
      if x == id.dir {
        FindAfterDelete(b, id.k, y);
        SameCount(b, PutSlot(b, id.k, s));
        MarkedNotLive(SlotAt(b, id.k));
        PutTwins(b, id.k, s, y, Lookup(v0.held, x, y));
        if Lookup(v0.held, x, y) >= 0 { PutSlotAt(b, id.k, s, Lookup(v0.held, x, y)); }
      } else {
        OtherDirSame(v0, v, id, s, x);
      }
    }
    ErasedFind(b, id.k, nm);
    ErasedNext(b, id.k, nm);
    var f := FindFrom(b, nm, id.k + 1);
    if f >= 0 {
      SlotEntry(v0, id.dir, f);
      PutSlotAt(b, id.k, s, f);
    }
    LeadsFromNodes(v0, v, id.dir, nm);
  }

  lemma MarkedNotLive(s: Slot)
    ensures !Live(s[0 := DELETED])
  {
  }

  lemma OtherDirSame(v0: View, v: View, id: SlotId, s: Slot, x: int)
    requires Consistent(v0.held, v0.dirs, v0.refs, v0.open) && IsFile(v0.held, v0.dirs, id)
    requires x in v0.dirs && x != id.dir
    requires v.held == (v0.held - {v0.refs[id].first})[id.dir := PutSlot(v0.held[id.dir], id.k, s)]
    ensures x in v.held && x in v0.held && v.held[x] == v0.held[x]
  {
    hide SlotAt, FirstOf, IsDir, Find, Live, ZeroTail, PutSlot;
    assert RefOk(v0.held, v0.dirs, SlotOf(v0.held, v0.dirs, id), v0.refs[id]);
  }

  /** Looking the name up after its slot was deleted. */
  lemma ErasedFind(b: seq<byte>, k: int, nm: Name11)
    requires ZeroTail(b) && 0 <= k < Count(b) && Matches(SlotAt(b, k), nm)
    ensures var b' := PutSlot(b, k, SlotAt(b, k)[0 := DELETED]);
            var f := Find(b', nm);
            Count(b') == Count(b) && -1 <= f < Count(b') && (f == -1 <==> OnlySlot(b, nm, k))
  {
    hide SlotAt, Find, Count, PutSlot, ZeroTail;
    var s := SlotAt(b, k)[0 := DELETED];
    var b' := PutSlot(b, k, s);
    SameCount(b, b');
    FindAfterDelete(b, k, nm);
    FindIsFirst(b', nm, Find(b', nm));
    forall j | 0 <= j < Count(b) ensures Matches(SlotAt(b', j), nm) <==> Matches(SlotAt(b, j), nm) && j != k {
      PutSlotAt(b, k, s, j);
    }
  }

  /** It leads to the next slot of that name. */
  lemma ErasedNext(b: seq<byte>, k: int, nm: Name11)
    requires ZeroTail(b) && 0 <= k == Find(b, nm) < Count(b) && Matches(SlotAt(b, k), nm)
    ensures var b' := PutSlot(b, k, SlotAt(b, k)[0 := DELETED]);
            var f := FindFrom(b, nm, k + 1);
            Find(b', nm) == f && (f == -1 || (k < f < Count(b) && Live(SlotAt(b, f))))
  {
    hide SlotAt, Find, Count, PutSlot, ZeroTail, Live;
    var s := SlotAt(b, k)[0 := DELETED];
    var b' := PutSlot(b, k, s);
    SameCount(b, b');
    FindIsFirst(b, nm, k);
    FindAfterDelete(b, k, nm);
    MarkedNotLive(SlotAt(b, k));
    forall j | 0 <= j < Count(b) ensures SlotAt(b', j) == if j == k then s else SlotAt(b, j) { PutSlotAt(b, k, s, j); }
    FindScans(b', nm, k + 1);
    FindFromSame(b, b', nm, k + 1);
    FindIsFirst(b', nm, FindFrom(b', nm, k + 1));
  }

  lemma {:induction false} FindFromSame(b: seq<byte>, b': seq<byte>, nm: Name11, k: nat)
    requires Count(b') == Count(b) && forall j :: k <= j < Count(b) ==> SlotAt(b', j) == SlotAt(b, j)
    ensures FindFrom(b', nm, k) == FindFrom(b, nm, k) && (FindFrom(b, nm, k) == -1 || FindFrom(b, nm, k) >= k)
    decreases Count(b) - k
  {
    hide SlotAt, Count;
    if k < Count(b) { FindFromSame(b, b', nm, k + 1); }
  }

  /** A new slot for a name comes to stand before the one the name led to. */
  ghost predicate Shadows(b: seq<byte>, w: nat, nm: Name11) {
    Find(b, nm) < 0 || VacantFrom(Roomy(b, w), 0) < Find(b, nm)
  }

  /** Looking a name up after a slot with that name was entered, whether or not there was one. */
  lemma EnteredFind(b: seq<byte>, w: nat, s: Slot, nm: Name11)
    requires ZeroTail(b) && |b| % 32 == 0 && 32 <= w && w % 32 == 0 && Live(s) && NameOf(s) == nm
    ensures var r := Roomy(b, w);
            var k := VacantFrom(r, 0);
            && k < Count(r) && Count(PutSlot(r, k, s)) == Count(r)
            && Find(PutSlot(r, k, s), nm) == if Shadows(b, w, nm) then k else Find(b, nm)
  {
    hide SlotAt, Find, Count, PutSlot, ZeroTail, Live, VacantFrom, Roomy;
    var r := Roomy(b, w);
    RoomyFinds(b, w, nm);
    var k := VacantFrom(r, 0);
    var r' := PutSlot(r, k, s);
    SameCount(r, r');
    FindIsFirst(r, nm, Find(r, nm));
    FindAtLeastMinus(r, nm);
    assert !Live(SlotAt(r, k)) by { VacantIsNotLive(r, 0); }
    CreateFinds(b, w, s, nm);
    forall j | 0 <= j < Count(r) ensures Matches(SlotAt(r', j), nm) <==> Matches(SlotAt(r, j), nm) || j == k {
      PutSlotAt(r, k, s, j);
    }
    ZeroTailEntered(b, w, s);
    FindIsFirst(r', nm, if Shadows(b, w, nm) then k else Find(b, nm));
  }

  /** A name that no slot had is one that one slot has. */
  lemma EnteredSole(b: seq<byte>, w: nat, s: Slot, nm: Name11)
    requires ZeroTail(b) && |b| % 32 == 0 && 32 <= w && w % 32 == 0 && Live(s) && NameOf(s) == nm && Find(b, nm) == -1
    ensures OnlySlot(b, nm, -1)
    ensures var r := Roomy(b, w);
            var k := VacantFrom(r, 0);
            k < Count(r) && OnlySlot(PutSlot(r, k, s), nm, k)
  {
    hide SlotAt, Find, PutSlot, ZeroTail, Live, VacantFrom, Roomy;
    var r := Roomy(b, w);
    FindIsFirst(b, nm, -1);
    RoomyFinds(b, w, nm);
    RoomyTwins(b, w, nm, -1);
    forall j | 0 <= j < Count(r) { PutSlotAt(r, VacantFrom(r, 0), s, j); }
  }

  lemma VacantIsNotLive(b: seq<byte>, k: nat)
    requires VacantFrom(b, k) < Count(b)
    ensures !Live(SlotAt(b, VacantFrom(b, k)))
  {
  }

  lemma FindAtLeastMinus(b: seq<byte>, nm: Name11)
    ensures Find(b, nm) >= -1
  {
    FindFromAtLeast(b, nm, 0);
  }

  lemma ZeroTailEntered(b: seq<byte>, w: nat, s: Slot)
    requires ZeroTail(b) && |b| % 32 == 0 && 32 <= w && w % 32 == 0 && Live(s)
    ensures var r := Roomy(b, w);
            VacantFrom(r, 0) < Count(r) && ZeroTail(PutSlot(r, VacantFrom(r, 0), s))
  {
    hide SlotAt, Find, Count, PutSlot, ZeroTail, Live, VacantFrom, Roomy;
    RoomyFinds(b, w, NameOf(s));
    FindAfterCreate(Roomy(b, w), VacantFrom(Roomy(b, w), 0), s, NameOf(s));
  }

  /** Entering a slot for name `nm` in directory `d`: every other name stands for what it stood for. */
  lemma EnteringOthers(v0: View, v: View, d: int, c: int, w: nat, s: Slot)
    requires Consistent(v0.held, v0.dirs, v0.refs, v0.open) && Entering(v0.held, v.held, d, c, w, s)
    requires d in v0.dirs && Live(s) && 32 <= w && w % 32 == 0
    requires forall x :: x in v0.refs && v0.refs[x].first !in v0.dirs ==>
               Content(v.held, v.refs, x) == Content(v0.held, v0.refs, x)
    ensures SameBut(v0, v, d, NameOf(s))
  {
    hide SlotAt, FirstOf, IsDir, Find, Count, Content, Consistent, Live, PutSlot, ZeroTail, VacantFrom, Roomy;
    DirTail(v0, d);
    forall x, y: Name11 | x in v0.dirs && (x != d || y != NameOf(s)) ensures SameNode(v0, v, x, y) {
      DirTail(v0, x);
      if Lookup(v0.held, x, y) >= 0 { NodeEntry(v0, x, y); }
      if x == d {
        CreateFinds(v0.held[d], w, s, y);
        RoomyTwins(v0.held[d], w, y, Lookup(v0.held, x, y));
        VacantIsNotLive(Roomy(v0.held[d], w), 0);
        PutTwins(Roomy(v0.held[d], w), VacantFrom(Roomy(v0.held[d], w), 0), s, y, Lookup(v0.held, x, y));
        if Lookup(v0.held, x, y) >= 0 { RoomyLeads(v0.held[d], w, s, Lookup(v0.held, x, y), y); }
      }
    }
  }

  /** What the entered name itself stands for. */
  lemma EnteringNode(v0: View, v: View, d: int, c: int, w: nat, s: Slot)
    requires Consistent(v0.held, v0.dirs, v0.refs, v0.open) && Entering(v0.held, v.held, d, c, w, s)
    requires d in v0.dirs && Live(s) && 32 <= w && w % 32 == 0
    requires forall x :: x in v0.refs && v0.refs[x].first !in v0.dirs ==>
               Content(v.held, v.refs, x) == Content(v0.held, v0.refs, x)
    ensures d in v0.held
    ensures var k := VacantFrom(Roomy(v0.held[d], w), 0);
            NodeAt(v.held, v.refs, d, NameOf(s)) ==
              if !Shadows(v0.held[d], w, NameOf(s)) then NodeAt(v0.held, v0.refs, d, NameOf(s))
              else if IsDir(s) then Folder(FirstOf(s))
              else Document(Content(v.held, v.refs, SlotId(d, k)))
  {
    hide SlotAt, FirstOf, IsDir, Find, Count, Content, Consistent, Live, PutSlot, ZeroTail, VacantFrom, Roomy;
    var nm := NameOf(s);
    DirTail(v0, d);
    EnteredFind(v0.held[d], w, s, nm);
    var r := Roomy(v0.held[d], w);
    var k := VacantFrom(r, 0);
    PutSlotAt(r, k, s, k);
    if !Shadows(v0.held[d], w, nm) {
      NodeEntry(v0, d, nm);
      RoomyLeads(v0.held[d], w, s, Lookup(v0.held, d, nm), nm);
    }
  }

  /** A successful open updates the map at one name: a new or truncated file is empty, any other is what it was. */
  lemma OpenedNodes(v0: View, v: View, id: SlotId, nm: Name11, truncate: bool, w: nat)
    requires Consistent(v0.held, v0.dirs, v0.refs, v0.open) && Opened(v0, v, id, nm, truncate, w) && id.dir in v0.dirs
    requires if id in v0.refs then IsFile(v0.held, v0.dirs, id) && Lookup(v0.held, id.dir, nm) == id.k
             else Lookup(v0.held, id.dir, nm) == -1 && Lookup(v.held, id.dir, nm) == id.k
    requires 32 <= w && w % 32 == 0 && (id in v0.refs || nm[0] != DELETED) && nm[0] != 0
    ensures Becomes(v0, v, id.dir, nm,
                    Document(if id in v0.refs && !truncate then Content(v0.held, v0.refs, id) else []))
    ensures OnlyFile(v0, v, id, nm) && NoNewNames(v0, v) && LeadsKept(v0.held, v.held, v0.dirs)
  {
    hide SlotAt, FirstOf, IsDir, Find, Count, Content, Consistent, Live, PutSlot, ZeroTail, VacantFrom, Roomy, MakeSlot;
    OpenedContents(v0, v, id, nm, truncate, w);
    OpenedNames(v0, v, id, nm, truncate, w);
    DirTail(v0, id.dir);
    if id in v0.refs {
      FoundNodes(v0, v, id, nm, truncate, w);
    } else {
      var c := v.refs[id].first;
      var s := MakeSlot(nm, ATTR_ARCHIVE, c);
      MadeLive(nm, ATTR_ARCHIVE, c);
      EnteringOthers(v0, v, id.dir, c, w, s);
      EnteringNode(v0, v, id.dir, c, w, s);
      EnteredFind(v0.held[id.dir], w, s, nm);
      EnteredSole(v0.held[id.dir], w, s, nm);
      ArchiveIsNoDir(nm, c);
    }
    LeadsFromNodes(v0, v, id.dir, nm);
  }

  lemma OpenedNames(v0: View, v: View, id: SlotId, nm: Name11, truncate: bool, w: nat)
    requires Consistent(v0.held, v0.dirs, v0.refs, v0.open) && Opened(v0, v, id, nm, truncate, w)
    ensures NoNewNames(v0, v)
  {
    hide SlotAt, FirstOf, IsDir, Find, Count, Content, Live, PutSlot, ZeroTail, VacantFrom, Roomy, MakeSlot;
    assert DirsKept(v0.held, v0.dirs) && 0 !in v0.dirs;
  }

  lemma ArchiveIsNoDir(nm: Name11, c: u32)
    ensures !IsDir(MakeSlot(nm, ATTR_ARCHIVE, c))
  {
  }

  lemma FoundNodes(v0: View, v: View, id: SlotId, nm: Name11, truncate: bool, w: nat)
    requires Consistent(v0.held, v0.dirs, v0.refs, v0.open) && Opened(v0, v, id, nm, truncate, w) && id in v0.refs
    requires IsFile(v0.held, v0.dirs, id) && Lookup(v0.held, id.dir, nm) == id.k
    requires forall x :: x in v0.refs && x != id && v0.refs[x].first !in v0.dirs ==>
               Content(v.held, v.refs, x) == Content(v0.held, v0.refs, x)
    ensures Becomes(v0, v, id.dir, nm, Document(Content(v.held, v.refs, id)))
    ensures Sole(v.held, id.dir, nm) <==> Sole(v0.held, id.dir, nm)
  {
    hide SlotAt, FirstOf, IsDir, Find, Count, Content, Consistent, Live, ZeroTail;
    forall x | x in v0.dirs ensures x in v0.held && x in v.held && v.held[x] == v0.held[x] {
      OpenedDirSame(v0, v, id, nm, truncate, w, x);
    }
    NodeEntry(v0, id.dir, nm);
    forall x, y: Name11 | x in v0.dirs && (x != id.dir || y != nm) ensures SameNode(v0, v, x, y) {
      if Lookup(v0.held, x, y) >= 0 { NodeEntry(v0, x, y); }
    }
  }

  lemma OpenedDirSame(v0: View, v: View, id: SlotId, nm: Name11, truncate: bool, w: nat, x: int)
    requires Consistent(v0.held, v0.dirs, v0.refs, v0.open) && Opened(v0, v, id, nm, truncate, w) && id in v0.refs
    requires IsFile(v0.held, v0.dirs, id) && x in v0.dirs
    ensures x in v0.held && x in v.held && v.held[x] == v0.held[x]
  {
    hide SlotAt, FirstOf, IsDir, Find, Live, ZeroTail, Entering;
    assert RefOk(v0.held, v0.dirs, SlotOf(v0.held, v0.dirs, id), v0.refs[id]);
  }

  /** The directory part of the map decides where names lead. */
  lemma LeadsFromNodes(v0: View, v: View, d: int, nm: Name11)
    requires SameBut(v0, v, d, nm)
    ensures LeadsKept(v0.held, v.held, v0.dirs) <==>
              (d in v0.dirs && DirNamed(v0.held, d, nm) >= 0 ==>
                 NodeAt(v.held, v.refs, d, nm) == NodeAt(v0.held, v0.refs, d, nm))
  {
    hide SlotAt, FirstOf, IsDir, Find, Count, Content;
    forall x, y: Name11 | x in v0.dirs && (x != d || y != nm)
      ensures DirNamed(v.held, x, y) == DirNamed(v0.held, x, y)
    {
      assert SameNode(v0, v, x, y);
    }
  }

  /** Every other file keeps its reference and its contents. */
  ghost predicate FilesKept(v0: View, v: View, id: SlotId) {
    forall x :: x in v0.refs && x != id && v0.refs[x].first !in v0.dirs ==>
      x in v.refs && v.refs[x] == v0.refs[x] && Content(v.held, v.refs, x) == Content(v0.held, v0.refs, x)
  }

  /** Slot `id`, which name `nm` leads to, is all that differs for a user. */
  ghost predicate OnlyFile(v0: View, v: View, id: SlotId, nm: Name11) {
    && SameBut(v0, v, id.dir, nm) && FilesKept(v0, v, id) && v.dirs == v0.dirs
    && (Sole(v.held, id.dir, nm) <==> Sole(v0.held, id.dir, nm))
  }

  /** Every slot that names a known directory named it before. */
  ghost predicate NoNewNames(v0: View, v: View) {
    forall x :: x in v.refs && v.refs[x].first in v0.dirs ==> x in v0.refs && v0.refs[x].first == v.refs[x].first
  }

  /** A name that leads to a directory has a slot in the catalogue, which nobody has open. */
  lemma FolderEntry(v: View, d: int, nm: Name11)
    requires Consistent(v.held, v.dirs, v.refs, v.open) && d in v.dirs && DirNamed(v.held, d, nm) >= 0
    ensures var id := SlotId(d, Lookup(v.held, d, nm));
            && id in v.refs && v.refs[id].first == DirNamed(v.held, d, nm) && DirNamed(v.held, d, nm) in v.dirs
            && NodeAt(v.held, v.refs, d, nm) == Folder(DirNamed(v.held, d, nm))
  {
    hide SlotAt, FirstOf, IsDir, Find, SizeOf, Live, ZeroTail, Count, Content;
    var id := SlotId(d, Lookup(v.held, d, nm));
    NodeEntry(v, d, nm);
    assert IsEntry(v.held, v.dirs, id);
    assert RefOk(v.held, v.dirs, SlotOf(v.held, v.dirs, id), v.refs[id]);
  }

  /** What a new directory does to the map: the name stands for a folder that was not known before, unless
      an older slot with that name stands before the new one. */
  ghost predicate GainsFolder(v0: View, v: View, d: int, nm: Name11, w: nat) {
    && SameBut(v0, v, d, nm) && d in v0.held
    && var n := NodeAt(v.held, v.refs, d, nm);
       if Shadows(v0.held[d], w, nm) then n.Folder? && n.cluster in v.dirs && n.cluster !in v0.dirs
       else n == NodeAt(v0.held, v0.refs, d, nm)
  }

  /** The name leads to a directory, and a new slot of that name would come to stand before it. */
  ghost predicate Hides(held: Held, d: int, nm: Name11, w: nat) {
    DirNamed(held, d, nm) >= 0 && d in held && Shadows(held[d], w, nm)
  }

  /** So it would in a directory whose first slot is deleted and whose second names a directory. */
  lemma DeletedSlotHides(held: Held, d: int, nm: Name11, c: u32, w: nat)
    requires d in held && held[d] == [DELETED] + Zeros(31) + MakeSlot(nm, ATTR_DIRECTORY, c)
    requires nm[0] != DELETED && nm[0] != 0
    ensures DirNamed(held, d, nm) == c && Hides(held, d, nm, w)
  {
    hide MakeSlot, FirstOf;
    var b, s := held[d], MakeSlot(nm, ATTR_DIRECTORY, c);
    MadeLive(nm, ATTR_DIRECTORY, c);
    DirectoryIsDir(nm, c);
    assert Count(b) == 2 && SlotAt(b, 0)[0] == DELETED && SlotAt(b, 1) == s;
    assert FindFrom(b, nm, 1) == 1;
  }

  lemma EnteredFolder(v0: View, v: View, d: int, c: u32, w: nat, nm: Name11)
    requires Consistent(v0.held, v0.dirs, v0.refs, v0.open) && d in v0.dirs && 32 <= w && w % 32 == 0
    requires Entering(v0.held, v.held, d, c, w, MakeSlot(nm, ATTR_DIRECTORY, c))
    requires nm[0] != DELETED && nm[0] != 0 && c !in v0.dirs && v.dirs == v0.dirs + {c as int}
    requires forall x :: x in v0.refs && v0.refs[x].first !in v0.dirs ==>
               Content(v.held, v.refs, x) == Content(v0.held, v0.refs, x)
    ensures GainsFolder(v0, v, d, nm, w)
    ensures LeadsKept(v0.held, v.held, v0.dirs) <==> !Hides(v0.held, d, nm, w)
    ensures LeadsKept(v0.held, v.held, v0.dirs - {d})
  {
    hide SlotAt, FirstOf, IsDir, Find, Count, Content, Consistent, Live, PutSlot, ZeroTail, VacantFrom, Roomy, MakeSlot;
    hide Entering, Shadows, DirNamed, NodeAt, LeadsKept;
    var s := MakeSlot(nm, ATTR_DIRECTORY, c);
    MadeLive(nm, ATTR_DIRECTORY, c);
    DirectoryIsDir(nm, c);
    EnteringOthers(v0, v, d, c, w, s);
    EnteringNode(v0, v, d, c, w, s);
    LeadsFromNodes(v0, v, d, nm);
    if DirNamed(v0.held, d, nm) >= 0 { FolderEntry(v0, d, nm); }
    LeadsOutside(v0, v, d, nm);
  }

  lemma DirectoryIsDir(nm: Name11, c: u32)
    ensures IsDir(MakeSlot(nm, ATTR_DIRECTORY, c)) && FirstOf(MakeSlot(nm, ATTR_DIRECTORY, c)) == c
  {
  }

  lemma LeadsOutside(v0: View, v: View, d: int, nm: Name11)
    requires SameBut(v0, v, d, nm)
    ensures LeadsKept(v0.held, v.held, v0.dirs - {d})
  {
    hide SlotAt, FirstOf, IsDir, Find, Count, Content;
    forall x, y: Name11 | x in v0.dirs - {d} ensures DirNamed(v.held, x, y) == DirNamed(v0.held, x, y) {
      assert SameNode(v0, v, x, y);
    }
  }

  /** Two changes to one file in a row. */
  lemma OnlyTrans(v0: View, v1: View, v2: View, id: SlotId, nm: Name11)
    requires OnlyFile(v0, v1, id, nm) && OnlyFile(v1, v2, id, nm)
    ensures OnlyFile(v0, v2, id, nm)
  {
    hide Lookup, NodeAt, Content, Sole;
    forall x, y: Name11 | x in v0.dirs && (x != id.dir || y != nm) ensures SameNode(v0, v2, x, y) {
      assert SameNode(v0, v1, x, y) && SameNode(v1, v2, x, y);
    }
  }

  /** A write concerns the file of the one name that leads to its slot. */
  lemma WrittenOnly(v0: View, v: View, id: SlotId, nm: Name11)
    requires Consistent(v0.held, v0.dirs, v0.refs, v0.open) && Rewritten(v0, v, id) && v.dirs == v0.dirs
    requires id.dir in v0.dirs && Lookup(v0.held, id.dir, nm) == id.k >= 0
    requires forall x :: x in v0.refs && x != id ==>
               x in v.refs && v.refs[x] == v0.refs[x] && Content(v.held, v.refs, x) == Content(v0.held, v0.refs, x)
    ensures OnlyFile(v0, v, id, nm)
  {
    hide NodeAt, Content, Consistent, SlotAt, Lookup, Sole;
    NodeEntry(v0, id.dir, nm);
    forall x, y: Name11 | x in v0.dirs && (x != id.dir || y != nm) ensures SameNode(v0, v, x, y) {
      assert RewrittenAt(v0, v, id, x, y);
      if x == id.dir && Lookup(v0.held, x, y) == id.k { NodeEntry(v0, x, y); }
    }
    assert RewrittenAt(v0, v, id, id.dir, nm);
  }

  lemma ClosedOnly(v0: View, v: View, id: SlotId, nm: Name11)
    requires SameNodes(v0, v) && SameFiles(v0.held, v.held, v0.refs, v0.dirs) && id.dir in v0.dirs
    requires v.refs == v0.refs && v.dirs == v0.dirs
    ensures OnlyFile(v0, v, id, nm)
  {
    hide NodeAt, Content, Lookup, Sole;
    assert SameNode(v0, v, id.dir, nm);
  }

  lemma SameOnly(v: View, id: SlotId, nm: Name11)
    ensures OnlyFile(v, v, id, nm)
  {
  }

  lemma RemovedOnly(v0: View, v1: View, v: View, id: SlotId, nm: Name11)
    requires OnlyFile(v0, v1, id, nm) && Removed(v1, v, id.dir, nm) && FilesKept(v1, v, id) && id.dir in v0.held
    ensures Removed(v0, v, id.dir, nm) && FilesKept(v0, v, id) && SameBut(v0, v, id.dir, nm)
  {
    hide Lookup, NodeAt, Content, Sole;
    forall x, y: Name11 | x in v0.dirs && (x != id.dir || y != nm) ensures SameNode(v0, v, x, y) {
      assert SameNode(v0, v1, x, y) && SameNode(v1, v, x, y);
    }
  }

  /** A file under a name that stands for the same as before is the same file, whatever happened elsewhere. */
  lemma OtherFile(v0: View, v: View, d: int, nm: Name11)
    requires Consistent(v0.held, v0.dirs, v0.refs, v0.open) && Consistent(v.held, v.dirs, v.refs, v.open)
    requires d in v0.dirs && d in v.dirs && SameNode(v0, v, d, nm) && Lookup(v0.held, d, nm) >= 0
    requires IsFile(v0.held, v0.dirs, SlotId(d, Lookup(v0.held, d, nm)))
    ensures var id := SlotId(d, Lookup(v0.held, d, nm));
            && Lookup(v.held, d, nm) == id.k && id in v.refs && IsFile(v.held, v.dirs, id)
            && Content(v.held, v.refs, id) == Content(v0.held, v0.refs, id)
            && NodeAt(v0.held, v0.refs, d, nm) == Document(Content(v0.held, v0.refs, id))
  {
    hide Content, Consistent, SlotAt, Find, Live, IsDir, Sole;
    NodeEntry(v0, d, nm);
    NodeEntry(v, d, nm);
  }
}
