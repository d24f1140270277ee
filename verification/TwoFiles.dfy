/** Two files side by side: each keeps its bytes, and both fit exactly when the books say so. */
module TwoFiles {
  import opened Bytes
  import opened Chains
  import opened Names
  import opened Slots
  import opened Catalog
  import opened FileSystem
  import opened Nodes
  import opened Syscalls
  import opened Flatten
  import opened Capacity
  import opened RoundTrip

  /** What saving under `b` will be able to draw on once `chunks` are saved under `a`. */
  ghost function NextBudget(k: Kernel, a: CString, chunks: seq<seq<byte>>, b: CString): Budget
    reads k, k.fs, k.fs.vol
  {
    Budget(k.fs.Target(b).k >= 0, Leftover(BudgetOf(k, a), chunks), |OldChain(k, b)|,
           if k.fs.Target(b).k < 0 && FullNext(k, a) then 1 else 0, Width(k))
  }

  /** Two files: both saves succeed exactly when there is room, reckoned before the first; then what was saved under
      one name is what is read back after the other was saved, and every other name stands for what it stood for. */
  method SaveTwoThenLoad(k: Kernel, a: CString, dataA: seq<seq<byte>>, b: CString, dataB: seq<seq<byte>>,
                         again: CString, size: u32)
    returns (okA: bool, okB: bool, out: seq<byte>)
    requires k.Valid() && k.Admissible(a) && k.Admissible(b) && ShortName(a) != ShortName(b)
    requires ShortName(a)[0] != 0xE5 && ShortName(b)[0] != 0xE5 && |Flat(dataA)| < TWO32 && |Flat(dataB)| < TWO32
    requires SameIgnoringCase(a, again)
    modifies k`fileUsed, k`ids, k.fs`refs, k.fs`open, k.fileTable
    modifies k.fs.vol`disk, k.fs.vol`fat, k.fs.vol`nextFree, k.fs.vol`own, k.fs.vol`owner, k.fs.vol`data
    ensures k.Valid()
    ensures okA <==> old(Enough(k, a, |Flat(dataA)|, |dataA| > 0))
    ensures okB <==> okA && Affords(old(NextBudget(k, a, dataA, b)), |Flat(dataB)|, |dataB| > 0)
    ensures okB ==> out == Slice(Flat(dataA), 0, size)
    ensures okA ==> NodeAt(k.fs.Held(), k.fs.refs, k.fs.curDir, ShortName(a)) == Document(Flat(dataA))
    ensures okB ==> NodeAt(k.fs.Held(), k.fs.refs, k.fs.curDir, ShortName(b)) == Document(Flat(dataB))
    ensures SameButTwo(old(k.fs.View()), k.fs.View(), k.fs.curDir, ShortName(a), ShortName(b))
  {
    hide Kernel.Handles, Fs.Inv, Fs.Held, Stored, ShortName, Enough, OnlyFile, SameBut, Flat, NodeAt, SameButTwo;
    hide Kernel.Admissible, Footprint, Consistent, BudgetOf, Affords, DirFull, FullNext, Leftover, FreeCount;
    ghost var idA, idB;
    ghost var v0, d, nmA, nmB := k.fs.View(), k.fs.curDir, ShortName(a), ShortName(b);
    InvConsistent(k.fs);
    EnoughHasDescriptor(k, a, |Flat(dataA)|, |dataA| > 0);
    AdmissibleIs(k, b);
    ZeroNotOwned(k.fs);
    ghost var own0, left := k.fs.vol.own, NextBudget(k, a, dataA, b);
    okB, out := false, [];
    okA, idA := Save(k, a, dataA);
    TwoSteps(v0, k.fs.View(), k.fs.View(), idA, idA, nmA, nmB);
    if !okA { return; }
    ghost var v1 := k.fs.View();
    StillAdmissible(k, v0, b, idA, nmA);
    assert idA == k.fs.Target(a) by { StoredTarget(k, a, idA, Flat(dataA)); }
    SecondBudget(k, v0, own0, a, b, idA, left);
    EnoughIs(k, b, |Flat(dataB)|, |dataB| > 0);
    okB, idB := SaveBeside(k, b, dataB, a, idA, Flat(dataA));
    TwoSteps(v0, v1, k.fs.View(), idA, idB, nmA, nmB);
    if !okB { return; }
    ghost var v2 := k.fs.View();
    var ok;
    ok, out := Load(k, again, size, a, idA, Flat(dataA));
    LastStep(v0, v2, k.fs.View(), d, nmA, nmB, Document(Flat(dataA)), Document(Flat(dataB)));
  }

  lemma StoredTarget(k: Kernel, path: CString, id: SlotId, c: seq<byte>)
    requires Stored(k, path, id, c)
    ensures k.fs.Target(path) == id
  {
  }

  lemma EnoughIs(k: Kernel, path: CString, n: nat, writes: bool)
    ensures Enough(k, path, n, writes) <==> !AllTrue(k.fileUsed) && Affords(BudgetOf(k, path), n, writes)
  {
  }

  /** Every name but two of directory `d` leads where it led and stands for what it stood for. */
  ghost predicate SameButTwo(v0: View, v: View, d: int, a: Name11, b: Name11) {
    forall x, y: Name11 :: x in v0.dirs && !(x == d && (y == a || y == b)) ==> SameNode(v0, v, x, y)
  }

  /** Saves a second file; the first is still stored. */
  method SaveBeside(k: Kernel, path: CString, chunks: seq<seq<byte>>, ghost other: CString, ghost x: SlotId,
                    ghost c: seq<byte>) returns (ok: bool, ghost id: SlotId)
    requires k.Admissible(path) && ShortName(path)[0] != 0xE5 && |Flat(chunks)| < TWO32
    requires Stored(k, other, x, c) && ShortName(path) != ShortName(other)
    modifies k`fileUsed, k`ids, k.fs`refs, k.fs`open, k.fileTable
    modifies k.fs.vol`disk, k.fs.vol`fat, k.fs.vol`nextFree, k.fs.vol`own, k.fs.vol`owner, k.fs.vol`data
    ensures k.Valid() && id.dir == k.fs.curDir && OnlyFile(old(k.fs.View()), k.fs.View(), id, ShortName(path))
    ensures ok ==> Becomes(old(k.fs.View()), k.fs.View(), k.fs.curDir, ShortName(path), Document(Flat(chunks)))
    ensures ok <==> old(Enough(k, path, |Flat(chunks)|, |chunks| > 0))
    ensures ok ==> Stored(k, other, x, c) && k.fileUsed == old(k.fileUsed)
    ensures !ok ==> AllTrue(old(k.fileUsed)) || FreeCount(k.fs.vol.fat) <= 1
    ensures NodeAt(k.fs.Held(), k.fs.refs, k.fs.curDir, ShortName(other)) == Document(c)
  {
    hide Kernel.Handles, Fs.Inv, Fs.Held, ShortName, Enough, OnlyFile, Becomes, Flat, NodeAt, Footprint, IsFile;
    hide Kernel.Admissible, Consistent, Content;
    InvConsistent(k.fs);
    ghost var v1 := k.fs.View();
    ok, id := Save(k, path, chunks);
    StillStored(k, v1, other, x, c, id, ShortName(path));
  }

  lemma StillStored(k: Kernel, v: View, other: CString, x: SlotId, c: seq<byte>, id: SlotId, nm: Name11)
    requires k.Valid() && Consistent(v.held, v.dirs, v.refs, v.open) && k.fs.curDir in v.dirs
    requires OnlyFile(v, k.fs.View(), id, nm) && nm != ShortName(other)
    requires x == SlotId(k.fs.curDir, Lookup(v.held, k.fs.curDir, ShortName(other))) && x.k >= 0
    requires IsFile(v.held, v.dirs, x) && Content(v.held, v.refs, x) == c
    ensures NodeAt(k.fs.Held(), k.fs.refs, k.fs.curDir, ShortName(other)) == Document(c)
    ensures x !in k.fs.open ==> Stored(k, other, x, c)
  {
    hide Kernel.Handles, Fs.Inv, Fs.Held, ShortName, IsFile, Content, Consistent, NodeAt, Sole;
    InvConsistent(k.fs);
    assert SameNode(v, k.fs.View(), k.fs.curDir, ShortName(other));
    OtherFile(v, k.fs.View(), k.fs.curDir, ShortName(other));
  }

  lemma AdmissibleIs(k: Kernel, path: CString)
    requires k.Admissible(path)
    ensures AdmissibleIn(k.fs.View(), SlotId(k.fs.curDir, Lookup(k.fs.Held(), k.fs.curDir, ShortName(path))))
  {
  }

  ghost predicate AdmissibleIn(v: View, id: SlotId) { id.k >= 0 ==> id !in v.open && IsFile(v.held, v.dirs, id) }

  /** What may be opened under a name may still be after something happened to another. */
  lemma StillAdmissible(k: Kernel, v: View, path: CString, id: SlotId, nm: Name11)
    requires k.Valid() && Consistent(v.held, v.dirs, v.refs, v.open) && k.fs.curDir in v.dirs
    requires OnlyFile(v, k.fs.View(), id, nm) && nm != ShortName(path) && v.open == k.fs.open
    requires AdmissibleIn(v, SlotId(k.fs.curDir, Lookup(v.held, k.fs.curDir, ShortName(path))))
    ensures k.Admissible(path)
  {
    hide Kernel.Handles, Fs.Inv, Fs.Held, ShortName, IsFile, Content, Consistent, NodeAt, Sole, Lookup;
    InvConsistent(k.fs);
    assert SameNode(v, k.fs.View(), k.fs.curDir, ShortName(path));
    if Lookup(v.held, k.fs.curDir, ShortName(path)) >= 0 { OtherFile(v, k.fs.View(), k.fs.curDir, ShortName(path)); }
  }

  lemma TwoSteps(v0: View, v1: View, v: View, id: SlotId, id': SlotId, a: Name11, b: Name11)
    requires OnlyFile(v0, v1, id, a) && (v1 == v || OnlyFile(v1, v, id', b)) && id'.dir == id.dir
    ensures SameButTwo(v0, v, id.dir, a, b)
  {
    hide Lookup, NodeAt, Content, Sole, FilesKept;
    forall x, y: Name11 | x in v0.dirs && !(x == id.dir && (y == a || y == b)) ensures SameNode(v0, v, x, y) {
      assert SameNode(v0, v1, x, y) && (v1 == v || SameNode(v1, v, x, y));
    }
  }

  lemma LastStep(v0: View, v1: View, v: View, d: int, a: Name11, b: Name11, n: Node, n': Node)
    requires SameButTwo(v0, v1, d, a, b) && Becomes(v1, v, d, a, n) && v1.dirs == v0.dirs && d in v0.dirs && a != b
    requires NodeAt(v1.held, v1.refs, d, b) == n'
    ensures SameButTwo(v0, v, d, a, b)
    ensures NodeAt(v.held, v.refs, d, a) == n && NodeAt(v.held, v.refs, d, b) == n'
  {
    hide Lookup, NodeAt, Content, Sole;
    assert SameNode(v1, v, d, b);
    forall x, y: Name11 | x in v0.dirs && !(x == d && (y == a || y == b)) ensures SameNode(v0, v, x, y) {
      assert SameNode(v0, v1, x, y) && SameNode(v1, v, x, y);
    }
  }

  /** A file under another name keeps its clusters. */
  lemma SameChain(v0: View, v: View, own0: map<int, Chain>, own: map<int, Chain>, y: SlotId, id: SlotId, x: SlotId,
                  d: int)
    requires Consistent(v0.held, v0.dirs, v0.refs, v0.open) && Consistent(v.held, v.dirs, v.refs, v.open)
    requires FilesKept(v0, v, id) && Footprint(own0, own, d, FirstAt(v0.refs, y), FirstAt(v.refs, id))
    requires x != y && x != id && 0 !in own0 && 0 !in own && d in v0.dirs && x in v0.refs
    requires v0.refs[x].first !in v0.dirs
    ensures OwnAt(own, FirstAt(v.refs, x)) == OwnAt(own0, FirstAt(v0.refs, x))
  {
    hide Content, DirsKept, RefsComplete, RefsOk, OnDisk, OpenOk;
    assert RefsInjective(v0.refs) && RefsInjective(v.refs);
  }

  /** Different names lead to different slots. */
  lemma SlotsApart(v: View, d: int, a: Name11, b: Name11)
    requires Consistent(v.held, v.dirs, v.refs, v.open) && d in v.dirs && a != b && Lookup(v.held, d, b) >= 0
    ensures Lookup(v.held, d, a) != Lookup(v.held, d, b) && SlotId(d, Lookup(v.held, d, b)) in v.refs
  {
    hide Consistent, SlotAt, Live, IsDir, Lookup;
    NodeEntry(v, d, b);
    if Lookup(v.held, d, a) >= 0 { NodeEntry(v, d, a); }
  }

  /** The slot that name `nm` of directory `d` leads to. */
  ghost function SlotFor(v: View, d: int, nm: Name11): SlotId { SlotId(d, Lookup(v.held, d, nm)) }

  /** The budget of the second save is what was reckoned before the first. */
  lemma SecondBudget(k: Kernel, v0: View, own0: map<int, Chain>, a: CString, b: CString, id: SlotId, left: Budget)
    requires k.Valid() && Consistent(v0.held, v0.dirs, v0.refs, v0.open) && k.fs.curDir in v0.dirs && 0 !in own0
    requires id == k.fs.Target(a) && OnlyFile(v0, k.fs.View(), id, ShortName(a)) && ShortName(a) != ShortName(b)
    requires AdmissibleIn(v0, SlotFor(v0, k.fs.curDir, ShortName(b)))
    requires Footprint(own0, k.fs.vol.own, k.fs.curDir, FirstAt(v0.refs, SlotFor(v0, k.fs.curDir, ShortName(a))),
                       FirstAt(k.fs.refs, id))
    requires var x := SlotFor(v0, k.fs.curDir, ShortName(b));
             left == Budget(x.k >= 0, FreeCount(k.fs.vol.fat), |OwnAt(own0, FirstAt(v0.refs, x))|,
                            if x.k < 0 && DirFull(k) then 1 else 0, Width(k))
    ensures BudgetOf(k, b) == left
  {
    hide Kernel.Handles, Fs.Inv, Fs.Held, ShortName, IsFile, Content, Consistent, NodeAt, Sole, Lookup, DirFull;
    hide FreeCount, Footprint, Width;
    var d, x := k.fs.curDir, SlotFor(v0, k.fs.curDir, ShortName(b));
    InvConsistent(k.fs);
    ZeroNotOwned(k.fs);
    assert SameNode(v0, k.fs.View(), d, ShortName(b));
    NegativeNotEntry(v0, x);
    NegativeNotEntry(k.fs.View(), x);
    if x.k >= 0 {
      SlotsApart(v0, d, ShortName(a), ShortName(b));
      SlotsApart(k.fs.View(), d, ShortName(a), ShortName(b));
      FileFirst(v0, x);
      SameChain(v0, k.fs.View(), own0, k.fs.vol.own, SlotFor(v0, d, ShortName(a)), id, x, d);
    }
  }

  lemma FileFirst(v: View, id: SlotId)
    requires Consistent(v.held, v.dirs, v.refs, v.open) && id in v.refs && IsFile(v.held, v.dirs, id)
    ensures v.refs[id].first !in v.dirs
  {
    hide SlotAt, Live, IsDir, FirstOf, SizeOf, ZeroTail, Count;
    assert RefOk(v.held, v.dirs, SlotOf(v.held, v.dirs, id), v.refs[id]);
  }
}
