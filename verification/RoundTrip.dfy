/** Client programs over the system calls, with what a user may rely on. */
module RoundTrip {
  import opened Bytes
  import opened Volume
  import opened Chains
  import opened ClusterOps
  import opened Names
  import opened Slots
  import opened Catalog
  import opened FileSystem
  import opened Nodes
  import opened ObjectStore
  import opened Contents
  import opened Syscalls
  import opened FileIo
  import opened Directory
  import opened Flatten
  import opened Capacity
  import opened Arith

  /** `path` leads to slot `id`, which descriptor `fd` speaks for with contents `c`. */
  ghost predicate Holding(k: Kernel, path: CString, fd: int, id: SlotId, c: seq<byte>)
    reads k, k.fs, k.fs.vol, k.fileTable
  {
    && k.Valid() && 0 <= fd < MAX_FILES && k.fileUsed[fd] && k.ids[fd] == id
    && k.fs.Target(path) == id && id.k >= 0 && id.dir in k.fs.dirs
    && k.fs.ContentOf(id) == c && k.fileTable[fd].position == |c|
  }

  /** The bytes of a cluster. */
  ghost function Width(k: Kernel): nat
    reads k, k.fs, k.fs.vol
  {
    k.fs.vol.geo.Bpc()
  }

  /** What saving under `path` can draw on. */
  ghost function BudgetOf(k: Kernel, path: CString): Budget
    reads k, k.fs, k.fs.vol
  {
    Budget(k.fs.Target(path).k >= 0, FreeCount(k.fs.vol.fat), |OldChain(k, path)|, DirectoryCost(k, path), Width(k))
  }

  /** Exactly what saving `n` bytes under `path` takes: a descriptor, and clusters enough for the bytes. */
  ghost predicate Enough(k: Kernel, path: CString, n: nat, writes: bool)
    reads k, k.fs, k.fs.vol
  {
    !AllTrue(k.fileUsed) && Affords(BudgetOf(k, path), n, writes)
  }

  /** The chain a truncating open of `path` gives up. */
  ghost function OldChain(k: Kernel, path: CString): Chain
    reads k, k.fs, k.fs.vol
  {
    OwnAt(k.fs.vol.own, FirstAt(k.fs.refs, k.fs.Target(path)))
  }

  /** A new name in a full directory takes a cluster for the directory. */
  ghost function DirectoryCost(k: Kernel, path: CString): nat
    reads k, k.fs, k.fs.vol
  {
    if k.fs.Target(path).k < 0 && DirFull(k) then 1 else 0
  }

  /** The current directory has no vacant slot. */
  ghost predicate DirFull(k: Kernel)
    reads k, k.fs, k.fs.vol
  {
    Full(k.fs.vol.data, OwnAt(k.fs.vol.own, k.fs.curDir))
  }

  /** It will have none once a file is saved under `path`. */
  ghost predicate FullNext(k: Kernel, path: CString)
    reads k, k.fs, k.fs.vol
  {
    if k.fs.Target(path).k >= 0 then DirFull(k) else LastVacancy(ChainBytes(k.fs.Held(), k.fs.curDir))
  }

  /** The clusters of the file in slot `id`. */
  ghost function ChainOf(k: Kernel, id: SlotId): Chain
    reads k, k.fs, k.fs.vol
  {
    OwnAt(k.fs.vol.own, FirstAt(k.fs.refs, id))
  }

  /** Writing at the end of the file appends. */
  lemma AppendOverwrites(c0: seq<byte>, c1: seq<byte>, d: seq<byte>)
    requires Overwritten(c0, c1, |c0|, d)
    ensures c1 == c0 + d
  {
  }

  /** Opens a file for writing from scratch. */
  method Start(k: Kernel, path: CString) returns (fd: int)
    requires k.Valid() && k.Admissible(path) && ShortName(path)[0] != 0xE5
    modifies k`fileUsed, k`ids, k.fs`refs, k.fs`open, k.fileTable
    modifies k.fs.vol`disk, k.fs.vol`fat, k.fs.vol`nextFree, k.fs.vol`own, k.fs.vol`owner, k.fs.vol`data
    ensures k.Valid()
    ensures fd < 0 <==> AllTrue(old(k.fileUsed)) || !Opens(old(BudgetOf(k, path)))
    ensures fd >= 0 ==> Reserves(old(k.fileUsed), k.fileUsed, fd)
    ensures fd >= 0 ==> Holding(k, path, fd, k.fs.Target(path), [])
    ensures fd >= 0 && old(k.fs.Target(path)).k < 0 ==> FirstAt(k.fs.refs, k.fs.Target(path)) != 0
    ensures fd >= 0 ==>
              |OwnAt(k.fs.vol.own, k.fs.curDir)| ==
                |OwnAt(old(k.fs.vol.own), k.fs.curDir)| + old(DirectoryCost(k, path))
    ensures fd >= 0 ==> Footprint(old(k.fs.vol.own), k.fs.vol.own, k.fs.curDir,
                                  FirstAt(old(k.fs.refs), old(k.fs.Target(path))),
                                  FirstAt(k.fs.refs, k.fs.Target(path)))
    ensures fd < 0 ==> k.fs.View() == old(k.fs.View()) && k.fs.vol.fat == old(k.fs.vol.fat)
    ensures fd >= 0 ==> |ChainOf(k, k.fs.Target(path))| == if old(k.fs.Target(path)).k >= 0 then 0 else 1
    ensures fd >= 0 ==> (DirFull(k) <==> old(FullNext(k, path)))
    ensures fd >= 0 ==> k.fs.open == old(k.fs.open) + {k.fs.Target(path)} && k.fs.Target(path) !in old(k.fs.open)
    ensures fd >= 0 ==> OnlyFile(old(k.fs.View()), k.fs.View(), k.fs.Target(path), ShortName(path))
  {
    hide Fs.Inv, Fs.Held, Opened, ShortName, Lookup, Content, Spoken, Located, Footprint, ChainsOpened, IsFile;
    hide Consistent, Fs.Speaks, OnlyFile, Becomes, LeadsKept, NoNewNames, LastVacancy, HasVacancy;
    ghost var v0, own0 := k.fs.View(), k.fs.vol.own;
    CurDirKept(k.fs);
    DirsHeld(k.fs);
    DirectoryLength(k.fs);
    NegativeNotEntry(v0, k.fs.Target(path));
    fd := k.Open(path, 0x0C);
    if fd >= 0 {
      CurDirKept(k.fs);
      DirectoryLength(k.fs);
      OpenedContents(v0, k.fs.View(), k.fs.Target(path), ShortName(path), true, k.fs.vol.geo.Bpc());
      DirsHeld(k.fs);
      OpenedOthers(v0, k.fs.View(), k.fs.Target(path), ShortName(path), true, k.fs.vol.geo.Bpc());
      OpenIsFile(k.fs, k.fs.Target(path));
      StartFootprint(v0, k.fs.View(), own0, k.fs.vol.own, k.fs.Target(path), ShortName(path), k.fs.vol.geo.Bpc());
      DirectoryGrows(v0, k.fs.View(), k.fs.Target(path), ShortName(path), k.fs.vol.geo.Bpc(),
                     |own0[k.fs.curDir]|, |k.fs.vol.own[k.fs.curDir]|);
      ZeroNotOwned(k.fs);
      StartChain(v0, k.fs.View(), own0, k.fs.vol.own, k.fs.Target(path), ShortName(path), k.fs.vol.geo.Bpc());
      NameNonzero(path);
      StartVacancy(v0, k.fs.View(), k.fs.Target(path), ShortName(path), k.fs.vol.geo.Bpc());
    }
  }

  lemma StartChain(v0: View, v: View, own0: map<int, Chain>, own: map<int, Chain>, id: SlotId, nm: Name11, w: nat)
    requires Opened(v0, v, id, nm, true, w) && ChainsOpened(own0, own, v0.refs, v.refs, id, true) && 0 !in own
    requires v.refs[id].first != id.dir
    ensures |OwnAt(own, FirstAt(v.refs, id))| == if id in v0.refs then 0 else 1
  {
    hide Entering;
  }

  /** Whether the directory has a vacant slot once the file is open. */
  lemma StartVacancy(v0: View, v: View, id: SlotId, nm: Name11, w: nat)
    requires Consistent(v0.held, v0.dirs, v0.refs, v0.open) && Opened(v0, v, id, nm, true, w) && id.dir in v0.dirs
    requires id in v0.refs ==> IsFile(v0.held, v0.dirs, id)
    requires 64 <= w && w % 32 == 0 && (id in v0.refs || nm[0] != DELETED) && nm[0] != 0
    ensures id.dir in v0.held && id.dir in v.held
    ensures HasVacancy(v.held[id.dir]) <==>
              if id in v0.refs then HasVacancy(v0.held[id.dir]) else !LastVacancy(v0.held[id.dir])
  {
    hide SlotAt, FirstOf, IsDir, Find, Count, Content, Consistent, PutSlot, ZeroTail, VacantFrom, MakeSlot;
    DirTail(v0, id.dir);
    if id in v0.refs {
      OpenedDirSame(v0, v, id, nm, true, w, id.dir);
    } else {
      var b, s := v0.held[id.dir], MakeSlot(nm, ATTR_ARCHIVE, v.refs[id].first);
      MadeLive(nm, ATTR_ARCHIVE, v.refs[id].first);
      if HasVacancy(b) { FilledVacancy(b, s); } else { GrownVacancy(b, w, s); }
    }
  }

  /** The current directory's bytes fill its chain. */
  lemma DirectoryLength(fs: Fs)
    requires fs.Inv()
    ensures 64 <= fs.vol.geo.Bpc() && fs.vol.geo.Bpc() % 32 == 0 && fs.curDir in fs.vol.own && fs.curDir in fs.Held()
    ensures |fs.Held()[fs.curDir]| == |fs.vol.own[fs.curDir]| * fs.vol.geo.Bpc()
    ensures Full(fs.vol.data, OwnAt(fs.vol.own, fs.curDir)) <==> !HasVacancy(fs.Held()[fs.curDir])
  {
    hide Volume.Refines, Body, VacantFrom, Count, Consistent;
    DirsHeld(fs);
    ObjectsAre(fs.vol);
    VolShape(fs.vol);
    BodyLength(fs.vol.data, fs.vol.own[fs.curDir], fs.vol.geo.Bpc());
  }

  lemma DirectoryGrows(v0: View, v: View, id: SlotId, nm: Name11, w: nat, l0: nat, l: nat)
    requires Opened(v0, v, id, nm, true, w) && 0 < w && id.dir in v0.held && id.dir in v.held
    requires |v0.held[id.dir]| == l0 * w && |v.held[id.dir]| == l * w
    ensures l == l0 + if id in v0.refs || HasVacancy(v0.held[id.dir]) then 0 else 1
    ensures id !in v0.refs ==> v.refs[id].first != 0
  {
    hide MakeSlot, VacantFrom, Count;
    var g := if id in v0.refs || HasVacancy(v0.held[id.dir]) then 0 else 1;
    assert (l0 + g) * w == l0 * w + g * w;
    BlockUnique(l, 0, l0 + g, 0, w);
  }

  lemma StartFootprint(v0: View, v: View, own0: map<int, Chain>, own: map<int, Chain>, id: SlotId, nm: Name11, w: nat)
    requires Consistent(v0.held, v0.dirs, v0.refs, v0.open) && v0.held.Keys == own0.Keys && v.held.Keys == own.Keys
    requires Opened(v0, v, id, nm, true, w) && ChainsOpened(own0, own, v0.refs, v.refs, id, true)
    requires id.dir in v0.dirs && IsFile(v.held, v.dirs, id) && v.refs[id].first !in v.dirs
    ensures Footprint(own0, own, id.dir, FirstAt(v0.refs, id), FirstAt(v.refs, id))
  {
    hide Entering, MakeSlot, SlotAt, Live, ZeroTail, Count;
    if id in v0.refs {
      assert IsEntry(v0.held, v0.dirs, id) && RefOk(v0.held, v0.dirs, SlotOf(v0.held, v0.dirs, id), v0.refs[id]);
      assert v0.refs[id].first != id.dir by { TruncatedIsNotDir(v0, v, id); }
    }
  }

  lemma NegativeNotEntry(v: View, id: SlotId)
    requires Consistent(v.held, v.dirs, v.refs, v.open)
    ensures id in v.refs ==> id.k >= 0
  {
  }

  /** The chain a truncating open drops is not the directory: the slot survived. */
  lemma TruncatedIsNotDir(v0: View, v: View, id: SlotId)
    requires id in v0.refs && v.held == v0.held - {v0.refs[id].first} && IsFile(v.held, v.dirs, id)
    ensures v0.refs[id].first != id.dir
  {
  }

  /** Appends one chunk; `ok` says that all of it was written. Otherwise no cluster is left and
      the file's chain is too short for the chunk. */
  method Put(k: Kernel, path: CString, fd: int, chunk: seq<byte>, ghost id: SlotId, ghost c: seq<byte>,
             ghost own0: map<int, Chain>, ghost h0: int, ghost v0: View) returns (ok: bool)
    requires Holding(k, path, fd, id, c) && |c| + |chunk| < TWO32 && OnlyFile(v0, k.fs.View(), id, ShortName(path))
    requires Footprint(own0, k.fs.vol.own, k.fs.curDir, h0, FirstAt(k.fs.refs, id)) && 0 !in own0
    modifies k.fs`refs, k.fileTable
    modifies k.fs.vol`disk, k.fs.vol`fat, k.fs.vol`nextFree, k.fs.vol`own, k.fs.vol`owner, k.fs.vol`data
    ensures k.Valid() && OnlyFile(v0, k.fs.View(), id, ShortName(path))
    ensures ok ==> Holding(k, path, fd, id, c + chunk) && FirstAt(k.fs.refs, id) != 0
    ensures Footprint(own0, k.fs.vol.own, k.fs.curDir, h0, FirstAt(k.fs.refs, id))
    ensures OwnAt(k.fs.vol.own, k.fs.curDir) == OwnAt(old(k.fs.vol.own), k.fs.curDir)
    ensures (DirFull(k) <==> old(DirFull(k))) && 0 < k.fs.vol.geo.Bpc()
    ensures ok ==>
              Stretched(old(ChainOf(k, id)), ChainOf(k, id), |c|, |chunk|, Width(k),
                        FreeSet(k.fs.vol.fat) == {} && |chunk| == 0)
    ensures !ok ==> FreeSet(k.fs.vol.fat) == {} && FewerThan(ChainOf(k, id), |c| + |chunk|, k.fs.vol.geo.Bpc())
  {
    hide Fs.Inv, Fs.Held, ShortName, Content, Spoken, Located, Overwritten, SameLookups, FreeSet, Footprint, IsFile;
    hide Consistent, UsedUp, FewerThan, OnlyFile, Rewritten, LeadsKept, NoNewNames, HasVacancy, Stretched;
    ghost var v1, held0 := k.fs.View(), k.fs.Held();
    CurDirKept(k.fs);
    ZeroNotOwned(k.fs);
    DirectoryLength(k.fs);
    var r := k.Write(fd, chunk);
    DirectoryLength(k.fs);
    ghost var h := FirstAt(k.fs.refs, id);
    if r >= 0 {
      ZeroNotOwned(k.fs);
      OpenIsFile(k.fs, id);
      CurDirKept(k.fs);
      PutFootprint(own0, old(k.fs.vol.own), k.fs.vol.own, k.fs.curDir, h0, FirstAt(old(k.fs.refs), id), h);
      WrittenOnly(v1, k.fs.View(), id, ShortName(path));
      OnlyTrans(v0, v1, k.fs.View(), id, ShortName(path));
    }
    if r == |chunk| {
      assert chunk[..r] == chunk;
      AppendOverwrites(c, k.fs.ContentOf(id), chunk);
      SameLookup(held0, k.fs.Held(), k.fs.dirs, k.fs.curDir, ShortName(path));
    } else {
      TooFew(OwnAt(k.fs.vol.own, h), |c|, r, |chunk|, k.fs.vol.geo.Bpc());
    }
    ok := r == |chunk|;
  }

  /** Chain `s` has fewer clusters than `n` bytes take. */
  ghost predicate FewerThan(s: Chain, n: nat, w: nat)
    requires 0 < w
  {
    |s| < ClustersFor(n, w)
  }

  lemma TooFew(s: Chain, p: nat, r: int, n: nat, w: nat)
    requires 0 < w && -1 <= r < n
    requires (r == -1 && s == []) || (r >= 0 && UsedUp(s, w, p + r))
    ensures FewerThan(s, p + n, w)
  {
    if r >= 0 { TooShort(s, p + r, p + n, w); }
  }

  lemma PutFootprint(own0: map<int, Chain>, own1: map<int, Chain>, own: map<int, Chain>, d: int, h0: int, h1: int,
                     h: int)
    requires Footprint(own0, own1, d, h0, h1) && h != d && own == own1[h := OwnAt(own, h)]
    requires (h1 == h || (h1 == 0 && h !in own1)) && 0 !in own1 && 0 !in own0
    ensures Footprint(own0, own, d, h0, h)
  {
  }

  lemma SameLookup(held: Held, held': Held, dirs: set<int>, d: int, nm: Name11)
    requires SameLookups(held, held', dirs) && d in dirs
    ensures Lookup(held', d, nm) == Lookup(held, d, nm)
  {
  }

  /** `path` leads to the file `id` with contents `c`, which nobody has open. */
  ghost predicate Stored(k: Kernel, path: CString, id: SlotId, c: seq<byte>)
    reads k, k.fs, k.fs.vol, k.fileTable
  {
    && k.Valid() && k.fs.Target(path) == id && id.k >= 0 && id in k.fs.refs
    && id !in k.fs.open && IsFile(k.fs.Held(), k.fs.dirs, id)
    && k.fs.ContentOf(id) == c
  }

  method Finish(k: Kernel, path: CString, fd: int, ghost id: SlotId, ghost c: seq<byte>, ghost v0: View)
    requires Holding(k, path, fd, id, c) && OnlyFile(v0, k.fs.View(), id, ShortName(path))
    modifies k`fileUsed, k.fs`open, k.fs.vol`disk, k.fs.vol`data, k.fileTable
    ensures Stored(k, path, id, c) && k.fileUsed == old(k.fileUsed)[fd := false] && k.fs.open == old(k.fs.open) - {id}
    ensures OnlyFile(v0, k.fs.View(), id, ShortName(path)) && (DirFull(k) <==> old(DirFull(k)))
  {
    hide Fs.Inv, Fs.Held, ShortName, Content, Spoken, Located, SameLookups, SameFiles, IsFile, OnlyFile, SameNodes;
    hide Consistent, LeadsKept, HasVacancy;
    ghost var v1, held0 := k.fs.View(), k.fs.Held();
    CurDirKept(k.fs);
    DirectoryLength(k.fs);
    OpenIsFile(k.fs, id);
    var _ := k.Close(fd);
    DirectoryLength(k.fs);
    SameFile(held0, k.fs.Held(), k.fs.refs, k.fs.dirs, id);
    SameLookup(held0, k.fs.Held(), k.fs.dirs, k.fs.curDir, ShortName(path));
    ClosedOnly(v1, k.fs.View(), id, ShortName(path));
    OnlyTrans(v0, v1, k.fs.View(), id, ShortName(path));
  }

  lemma SameFile(held: Held, held': Held, refs: Refs, dirs: set<int>, id: SlotId)
    requires SameFiles(held, held', refs, dirs) && id in refs && refs[id].first !in dirs
    ensures Content(held', refs, id) == Content(held, refs, id)
  {
  }

  /** Appends the chunks to a file opened a moment ago. */
  method PutAll(k: Kernel, path: CString, fd: int, chunks: seq<seq<byte>>, ghost id: SlotId, ghost own0: map<int,
                Chain>, ghost h0: int, ghost v0: View)
    returns (ok: bool)
    requires Holding(k, path, fd, id, []) && |Flat(chunks)| < TWO32 && OnlyFile(v0, k.fs.View(), id, ShortName(path))
    requires Footprint(own0, k.fs.vol.own, k.fs.curDir, h0, FirstAt(k.fs.refs, id)) && 0 !in own0
    requires |ChainOf(k, id)| <= 1 && 0 < Width(k)
    modifies k.fs`refs, k.fileTable
    modifies k.fs.vol`disk, k.fs.vol`fat, k.fs.vol`nextFree, k.fs.vol`own, k.fs.vol`owner, k.fs.vol`data
    ensures k.Valid() && OnlyFile(v0, k.fs.View(), id, ShortName(path)) && (DirFull(k) <==> old(DirFull(k)))
    ensures ok ==> Holding(k, path, fd, id, Flat(chunks))
    ensures ok ==> Tight(|ChainOf(k, id)|, Asked(chunks, |old(ChainOf(k, id))|, Width(k)), FreeSet(k.fs.vol.fat) == {})
    ensures ok && (|chunks| > 0 || FirstAt(old(k.fs.refs), id) != 0) ==> FirstAt(k.fs.refs, id) != 0
    ensures Footprint(own0, k.fs.vol.own, k.fs.curDir, h0, FirstAt(k.fs.refs, id))
    ensures OwnAt(k.fs.vol.own, k.fs.curDir) == OwnAt(old(k.fs.vol.own), k.fs.curDir)
    ensures !ok ==> |chunks| > 0 && FreeSet(k.fs.vol.fat) == {} && FewerThan(ChainOf(k, id), |Flat(chunks)|, Width(k))
  {
    hide Kernel.Handles, Fs.Inv, Fs.Held, ShortName, Content, FreeSet, Holding, Footprint, FewerThan, OnlyFile;
    hide Volume.Geometry.Bpc, ChainOf, DirFull, Stretched, Asked, Tight;
    ghost var l, w := |ChainOf(k, id)|, Width(k);
    NothingAsked(l, w);
    assert Flat(chunks[..0]) == [];
    HoldingValid(k, path, fd, id, []);
    for i := 0 to |chunks|
      invariant k.Valid() && Holding(k, path, fd, id, Flat(chunks[..i]))
      invariant OnlyFile(v0, k.fs.View(), id, ShortName(path))
      invariant Footprint(own0, k.fs.vol.own, k.fs.curDir, h0, FirstAt(k.fs.refs, id))
      invariant OwnAt(k.fs.vol.own, k.fs.curDir) == OwnAt(old(k.fs.vol.own), k.fs.curDir)
      invariant i > 0 || FirstAt(old(k.fs.refs), id) != 0 ==> FirstAt(k.fs.refs, id) != 0
      invariant Width(k) == w && (DirFull(k) <==> old(DirFull(k)))
      invariant Tight(|ChainOf(k, id)|, Asked(chunks[..i], l, w), FreeSet(k.fs.vol.fat) == {})
    {
      assert chunks[..i + 1][..i] == chunks[..i];
      FlatPrefix(chunks, i + 1);
      ghost var s, full := ChainOf(k, id), FreeSet(k.fs.vol.fat) == {};
      var put := Put(k, path, fd, chunks[i], id, Flat(chunks[..i]), own0, h0, v0);
      if !put {
        StillFewer(ChainOf(k, id), |Flat(chunks[..i + 1])|, |Flat(chunks)|, w);
        return false;
      }
      TightStep(s, ChainOf(k, id), chunks[..i], chunks[i], l, w, full, FreeSet(k.fs.vol.fat) == {});
      assert chunks[..i] + [chunks[i]] == chunks[..i + 1];
    }
    assert chunks[..|chunks|] == chunks;
    ok := true;
  }

  lemma NothingAsked(l: nat, w: nat)
    requires 0 < w
    ensures Asked([], l, w) == l && Tight(l, l, false) && Tight(l, l, true)
  {
  }

  lemma HoldingValid(k: Kernel, path: CString, fd: int, id: SlotId, c: seq<byte>)
    requires Holding(k, path, fd, id, c)
    ensures k.Valid()
  {
  }

  /** Creates or truncates the file `path` and writes the chunks to it; succeeds exactly when
      there is room. */
  method Save(k: Kernel, path: CString, chunks: seq<seq<byte>>) returns (ok: bool, ghost id: SlotId)
    requires k.Valid() && k.Admissible(path) && ShortName(path)[0] != 0xE5 && |Flat(chunks)| < TWO32
    modifies k`fileUsed, k`ids, k.fs`refs, k.fs`open, k.fileTable
    modifies k.fs.vol`disk, k.fs.vol`fat, k.fs.vol`nextFree, k.fs.vol`own, k.fs.vol`owner, k.fs.vol`data
    ensures k.Valid()
    ensures ok <==> old(Enough(k, path, |Flat(chunks)|, |chunks| > 0))
    ensures ok ==> Stored(k, path, id, Flat(chunks)) && k.fileUsed == old(k.fileUsed)
    ensures ok ==>
              Footprint(old(k.fs.vol.own), k.fs.vol.own, k.fs.curDir, FirstAt(old(k.fs.refs), old(k.fs.Target(path))),
                        FirstAt(k.fs.refs, id))
    ensures OnlyFile(old(k.fs.View()), k.fs.View(), id, ShortName(path))
    ensures ok ==> Becomes(old(k.fs.View()), k.fs.View(), k.fs.curDir, ShortName(path), Document(Flat(chunks)))
    ensures id.dir == k.fs.curDir
    ensures k.fs.open <= old(k.fs.open) + {id} && (ok ==> k.fs.open == old(k.fs.open))
    ensures ok ==> FreeCount(k.fs.vol.fat) == Leftover(old(BudgetOf(k, path)), chunks)
    ensures ok ==> (DirFull(k) <==> old(FullNext(k, path)))
    ensures !ok ==> AllTrue(old(k.fileUsed)) || FreeCount(k.fs.vol.fat) <= 1
  {
    hide Kernel.Handles, Fs.Inv, Fs.Held, Fs.Target, ShortName, Content, FreeSet, Stored, Holding, Footprint, DirFull;
    hide Volume.Geometry.Bpc, ClustersFor, Balanced, IsFile, Flat, OnlyFile, Becomes, Leftover, FullNext, Affords;
    ZeroNotOwned(k.fs);
    CurDirKept(k.fs);
    NegativeNotEntry(k.fs.View(), k.fs.Target(path));
    Books(k.fs);
    DirectoryLength(k.fs);
    ghost var own0, h0, v0, b := k.fs.vol.own, FirstAt(k.fs.refs, k.fs.Target(path)), k.fs.View(), BudgetOf(k, path);
    ghost var free0 := FreeSet(k.fs.vol.fat);
    ok, id := false, k.fs.Target(path);
    SameOnly(v0, id, ShortName(path));
    TargetDir(k.fs, path);
    var fd := Start(k, path);
    if fd < 0 {
      if !Opens(b) { NotOpened(b, |Flat(chunks)|, |chunks| > 0); }
      return;
    }
    id := k.fs.Target(path);
    TargetDir(k.fs, path);
    ok := Fill(k, path, fd, chunks, id, b, free0, own0, h0, v0);
    if ok {
      StoredNode(k, path, id, Flat(chunks), v0);
      TakenBack(v0.open, id, old(k.fileUsed), fd);
    }
  }

  /** The file in slot `id` was just opened on budget `b`: against the free set and the chains of before, its old
      chain is given up and the directory paid for. */
  ghost predicate Drawn(k: Kernel, id: SlotId, b: Budget, free0: set<int>, own0: map<int, Chain>, h0: int)
    reads k, k.fs, k.fs.vol
  {
    && Footprint(own0, k.fs.vol.own, k.fs.curDir, h0, FirstAt(k.fs.refs, id)) && 0 !in own0
    && Balanced(free0, k.fs.vol.geo.totalClusters + 2, k.fs.vol.lost, own0)
    && 0 < b.w == Width(k) && b.free == |free0| && b.given == |OwnAt(own0, h0)|
    && b.cost <= 1 && (b.known ==> b.cost == 0) && (!b.known ==> b.given == 0 && FirstAt(k.fs.refs, id) != 0)
    && |OwnAt(k.fs.vol.own, k.fs.curDir)| == |OwnAt(own0, k.fs.curDir)| + b.cost
    && |ChainOf(k, id)| == (if b.known then 0 else 1)
  }

  /** Writes the chunks to a file opened a moment ago and closes it; succeeds exactly when the budget allows. */
  method Fill(k: Kernel, path: CString, fd: int, chunks: seq<seq<byte>>, ghost id: SlotId, ghost b: Budget,
              ghost free0: set<int>, ghost own0: map<int, Chain>, ghost h0: int, ghost v0: View) returns (ok: bool)
    requires Holding(k, path, fd, id, []) && |Flat(chunks)| < TWO32 && OnlyFile(v0, k.fs.View(), id, ShortName(path))
    requires Drawn(k, id, b, free0, own0, h0)
    modifies k`fileUsed, k.fs`refs, k.fs`open, k.fileTable
    modifies k.fs.vol`disk, k.fs.vol`fat, k.fs.vol`nextFree, k.fs.vol`own, k.fs.vol`owner, k.fs.vol`data
    ensures k.Valid() && OnlyFile(v0, k.fs.View(), id, ShortName(path))
    ensures ok <==> Affords(b, |Flat(chunks)|, |chunks| > 0)
    ensures ok ==> Stored(k, path, id, Flat(chunks)) && k.fileUsed == old(k.fileUsed)[fd := false]
    ensures k.fs.open == if ok then old(k.fs.open) - {id} else old(k.fs.open)
    ensures ok ==> Footprint(own0, k.fs.vol.own, k.fs.curDir, h0, FirstAt(k.fs.refs, id))
    ensures ok ==> FreeCount(k.fs.vol.fat) == Leftover(b, chunks) && (DirFull(k) <==> old(DirFull(k)))
    ensures !ok ==> FreeCount(k.fs.vol.fat) == 0
  {
    hide Kernel.Handles, Fs.Inv, Fs.Held, Fs.Target, ShortName, Content, FreeSet, Stored, Holding, Footprint, DirFull;
    hide FewerThan, Volume.Geometry.Bpc, ClustersFor, Balanced, IsFile, Flat, OnlyFile, Asked, Tight, Leftover, Affords;
    ok := PutAll(k, path, fd, chunks, id, own0, h0, v0);
    ghost var h := FirstAt(k.fs.refs, id);
    Books(k.fs);
    Balance(free0, FreeSet(k.fs.vol.fat), k.fs.vol.geo.totalClusters + 2, k.fs.vol.lost, own0, k.fs.vol.own,
            k.fs.curDir, h0, h);
    FreeCountZero(k.fs.vol.fat);
    if !ok {
      StillFewer(ChainOf(k, id), |Flat(chunks)|, |Flat(chunks)|, b.w);
    } else if h != 0 {
      HoldsAll(k, path, fd, id, Flat(chunks));
    }
    Accounts(b, chunks, FreeCount(k.fs.vol.fat), |ChainOf(k, id)|, ok);
    if !ok { return; }
    Finish(k, path, fd, id, Flat(chunks), v0);
    assert k.Valid() by { StoredNode(k, path, id, Flat(chunks), v0); }
  }

  lemma NotOpened(b: Budget, n: nat, writes: bool)
    requires !Opens(b)
    ensures !Affords(b, n, writes)
  {
  }

  lemma TakenBack(open: set<SlotId>, id: SlotId, used: seq<bool>, fd: int)
    requires id !in open && 0 <= fd < |used| && !used[fd]
    ensures open + {id} - {id} == open && used[fd := true][fd := false] == used
  {
  }

  lemma TargetDir(fs: Fs, path: CString)
    ensures fs.Target(path).dir == fs.curDir
  {
  }

  lemma StillFewer(s: Chain, m: nat, n: nat, w: nat)
    requires 0 < w && m <= n && FewerThan(s, m, w)
    ensures |s| < ClustersFor(n, w) && FewerThan(s, n, w)
  {
    ClustersForMonotone(m, n, w);
  }

  /** The chain of a held file is long enough for its contents. */
  lemma HoldsAll(k: Kernel, path: CString, fd: int, id: SlotId, c: seq<byte>)
    requires Holding(k, path, fd, id, c) && FirstAt(k.fs.refs, id) != 0
    ensures 0 < k.fs.vol.geo.Bpc()
    ensures ClustersFor(|c|, k.fs.vol.geo.Bpc()) <= |OwnAt(k.fs.vol.own, FirstAt(k.fs.refs, id))|
  {
    hide Volume.Refines, Body, Consistent, Spoken, Located, ClustersFor;
    k.fs.SpeaksFacts(k.fileTable[fd], id);
    VolShape(k.fs.vol);
    ObjectsAre(k.fs.vol);
    var s := k.fs.vol.own[k.fs.refs[id].first];
    BodyLength(k.fs.vol.data, s, k.fs.vol.geo.Bpc());
    LongEnough(s, |c|, k.fs.vol.geo.Bpc());
  }

  /** A stored file is what its name stands for. */
  lemma StoredNode(k: Kernel, path: CString, id: SlotId, c: seq<byte>, v0: View)
    requires Stored(k, path, id, c) && OnlyFile(v0, k.fs.View(), id, ShortName(path))
    ensures k.Valid() && id.dir == k.fs.curDir
    ensures Becomes(v0, k.fs.View(), k.fs.curDir, ShortName(path), Document(c))
  {
    hide Kernel.Valid, Fs.Held, ShortName, Content, SlotAt, SameBut, FilesKept, Sole, IsDir;
  }

  lemma {:induction false} FlatPrefix(chunks: seq<seq<byte>>, i: nat)
    requires i <= |chunks|
    ensures |Flat(chunks[..i])| <= |Flat(chunks)|
  {
    if i < |chunks| {
      var init := chunks[..|chunks| - 1];
      FlatPrefix(init, i);
      assert init[..i] == chunks[..i];
    } else {
      assert chunks[..i] == chunks;
    }
  }

  /** Opens the file under the same name in any letter case and reads from the start. */
  method Load(k: Kernel, path: CString, size: u32, ghost saved: CString, ghost id: SlotId, ghost c: seq<byte>)
    returns (ok: bool, out: seq<byte>)
    requires Stored(k, saved, id, c) && SameIgnoringCase(saved, path)
    modifies k`fileUsed, k`ids, k.fs`refs, k.fs`open, k.fileTable
    modifies k.fs.vol`disk, k.fs.vol`fat, k.fs.vol`nextFree, k.fs.vol`own, k.fs.vol`owner, k.fs.vol`data
    ensures k.Valid()
    ensures ok <==> !AllTrue(old(k.fileUsed))
    ensures ok ==> out == Slice(c, 0, size)
    ensures OnlyFile(old(k.fs.View()), k.fs.View(), id, ShortName(saved))
    ensures Becomes(old(k.fs.View()), k.fs.View(), k.fs.curDir, ShortName(saved), Document(c))
  {
    hide Fs.Inv, Fs.Held, ShortName, Content, Spoken, Located, Opened, NoRoom, IsFile, Slice, Lookup, OnlyFile;
    hide Becomes, ChainsOpened, LeadsKept, NoNewNames, Consistent, Delivered, Volume.Geometry.Bpc;
    ShortNameIgnoresCase(saved, path);
    CurDirKept(k.fs);
    ghost var v0 := k.fs.View();
    SameOnly(v0, id, ShortName(saved));
    StoredNode(k, saved, id, c, v0);
    var fd := k.Open(path, 0);
    if fd < 0 { return false, []; }
    OpenedContents(v0, k.fs.View(), id, ShortName(path), false, k.fs.vol.geo.Bpc());
    var _, data := k.Read(fd, size);
    return true, data;
  }

  /** Opens an existing file with the append flag, and with the create flag, which changes nothing then, writes a
      chunk and closes it: the contents grow by the chunk. Fails only without a descriptor or a cluster. */
  method Append(k: Kernel, path: CString, chunk: seq<byte>) returns (ok: bool, ghost id: SlotId)
    requires k.Valid() && k.Admissible(path) && k.fs.Target(path).k >= 0
    requires |k.fs.ContentOf(k.fs.Target(path))| + |chunk| < TWO32
    modifies k`fileUsed, k`ids, k.fs`refs, k.fs`open, k.fileTable
    modifies k.fs.vol`disk, k.fs.vol`fat, k.fs.vol`nextFree, k.fs.vol`own, k.fs.vol`owner, k.fs.vol`data
    ensures k.Valid() && id == old(k.fs.Target(path))
    ensures ok ==> Stored(k, path, id, old(k.fs.ContentOf(k.fs.Target(path))) + chunk) && k.fileUsed == old(k.fileUsed)
    ensures OnlyFile(old(k.fs.View()), k.fs.View(), id, ShortName(path))
    ensures !ok ==> AllTrue(old(k.fileUsed)) || FreeSet(k.fs.vol.fat) == {}
  {
    hide Fs.Inv, Fs.Held, ShortName, Content, Spoken, Located, Opened, NoRoom, IsFile, Lookup, OnlyFile, Footprint;
    hide Becomes, ChainsOpened, LeadsKept, NoNewNames, Consistent, Volume.Geometry.Bpc, Stored, DirFull, FreeSet;
    hide FewerThan, Stretched, Kernel.Handles, Fs.Speaks;
    KernelShape(k);
    CurDirKept(k.fs);
    ghost var v0, c := k.fs.View(), k.fs.ContentOf(k.fs.Target(path));
    id := k.fs.Target(path);
    TargetDir(k.fs, path);
    SameOnly(v0, id, ShortName(path));
    var fd := k.Open(path, 0x14);
    if fd < 0 { return false, id; }
    OpenedContents(v0, k.fs.View(), id, ShortName(path), false, k.fs.vol.geo.Bpc());
    OpenedOthers(v0, k.fs.View(), id, ShortName(path), false, k.fs.vol.geo.Bpc());
    SameFootprint(k, id);
    KernelShape(k);
    ok := Put(k, path, fd, chunk, id, c, k.fs.vol.own, FirstAt(k.fs.refs, id), v0);
    if ok {
      Finish(k, path, fd, id, c + chunk, v0);
      assert k.Valid() by { StoredNode(k, path, id, c + chunk, v0); }
      TakenBack(v0.open, id, old(k.fileUsed), fd);
    }
  }

  lemma KernelShape(k: Kernel)
    requires k.Valid()
    ensures |k.fileUsed| == |k.ids| == MAX_FILES
  {
  }

  /** As long as nothing is written, nothing was touched. */
  lemma SameFootprint(k: Kernel, id: SlotId)
    requires k.fs.Inv() && id in k.fs.open && id.dir == k.fs.curDir
    ensures Footprint(k.fs.vol.own, k.fs.vol.own, k.fs.curDir, FirstAt(k.fs.refs, id), FirstAt(k.fs.refs, id))
    ensures 0 !in k.fs.vol.own && k.fs.curDir in k.fs.dirs
  {
    hide Volume.Refines, Body, Consistent, Sound;
    ZeroNotOwned(k.fs);
    DirsHeld(k.fs);
    OpenIsFile(k.fs, id);
  }

  /** End to end: what was written under a name is what a later open under the same name, in any letter
      case, reads from the start; and no other name, in any directory, and no other file noticed. */
  method SaveThenLoad(k: Kernel, path: CString, chunks: seq<seq<byte>>, again: CString, size: u32)
    returns (ok: bool, out: seq<byte>, ghost id: SlotId)
    requires k.Valid() && k.Admissible(path) && ShortName(path)[0] != 0xE5 && |Flat(chunks)| < TWO32
    requires SameIgnoringCase(path, again)
    modifies k`fileUsed, k`ids, k.fs`refs, k.fs`open, k.fileTable
    modifies k.fs.vol`disk, k.fs.vol`fat, k.fs.vol`nextFree, k.fs.vol`own, k.fs.vol`owner, k.fs.vol`data
    ensures k.Valid()
    ensures ok <==> old(Enough(k, path, |Flat(chunks)|, |chunks| > 0))
    ensures ok ==> out == Slice(Flat(chunks), 0, size)
    ensures OnlyFile(old(k.fs.View()), k.fs.View(), id, ShortName(path))
    ensures ok ==> Becomes(old(k.fs.View()), k.fs.View(), k.fs.curDir, ShortName(path), Document(Flat(chunks)))
  {
    hide Kernel.Handles, Fs.Inv, Fs.Held, Stored, ShortName, Enough, OnlyFile, Becomes, Flat;
    EnoughHasDescriptor(k, path, |Flat(chunks)|, |chunks| > 0);
    ghost var v0 := k.fs.View();
    ok, id := Save(k, path, chunks);
    if !ok { return false, [], id; }
    ghost var v1 := k.fs.View();
    StoredNode(k, path, id, Flat(chunks), v0);
    ok, out := Load(k, again, size, path, id, Flat(chunks));
    OnlyTrans(v0, v1, k.fs.View(), id, ShortName(path));
    OnlyBecomes(v0, v1, k.fs.View(), id, ShortName(path), Document(Flat(chunks)));
  }

  lemma OnlyBecomes(v0: View, v1: View, v: View, id: SlotId, nm: Name11, n: Node)
    requires OnlyFile(v0, v, id, nm) && Becomes(v1, v, id.dir, nm, n)
    ensures Becomes(v0, v, id.dir, nm, n)
  {
  }

  lemma EnoughHasDescriptor(k: Kernel, path: CString, n: nat, writes: bool)
    ensures Enough(k, path, n, writes) ==> !AllTrue(k.fileUsed)
  {
  }

  /** Conservation: writing a file and unlinking it gives back every cluster, those of
      an overwritten file included, except the ones that lengthened the directory. */
  method SaveThenUnlink(k: Kernel, path: CString, chunks: seq<seq<byte>>) returns (ok: bool, ghost id: SlotId)
    requires k.Valid() && k.Admissible(path) && ShortName(path)[0] != 0xE5 && |Flat(chunks)| < TWO32
    modifies k`fileUsed, k`ids, k.fs`refs, k.fs`open, k.fileTable
    modifies k.fs.vol`disk, k.fs.vol`fat, k.fs.vol`nextFree, k.fs.vol`own, k.fs.vol`owner, k.fs.vol`data
    ensures k.Valid()
    ensures ok <==> old(Enough(k, path, |Flat(chunks)|, |chunks| > 0))
    ensures ok ==> GivesBack(FreeSet(old(k.fs.vol.fat)), FreeSet(k.fs.vol.fat),
                             OwnAt(old(k.fs.vol.own), FirstAt(old(k.fs.refs), old(k.fs.Target(path)))),
                             OwnAt(old(k.fs.vol.own), k.fs.curDir), OwnAt(k.fs.vol.own, k.fs.curDir))
    ensures ok ==> Removed(old(k.fs.View()), k.fs.View(), k.fs.curDir, ShortName(path))
    ensures FilesKept(old(k.fs.View()), k.fs.View(), id)
    ensures SameBut(old(k.fs.View()), k.fs.View(), k.fs.curDir, ShortName(path))
  {
    hide Kernel.Handles, Fs.Inv, Fs.Held, ShortName, Content, FreeSet, Footprint, IsFile, Sound, FreeRest, Partition;
    hide Erased, Objects, GivesBack, Vol.Valid, Volume.Geometry.Bpc, Enough, Balanced, Flat, Removed, FilesKept;
    hide SameBut, Sole, LeadsKept, NoNewNames, Consistent, Becomes;
    ZeroNotOwned(k.fs);
    Books(k.fs);
    DirectoryLength(k.fs);
    ghost var v0, h0 := k.fs.View(), FirstAt(k.fs.refs, k.fs.Target(path));
    ok, id := Save(k, path, chunks);
    if !ok { return; }
    ghost var v1, own1, h := k.fs.View(), k.fs.vol.own, FirstAt(k.fs.refs, id);
    var _ := k.Unlink(path);
    RemovedOnly(v0, v1, k.fs.View(), id, ShortName(path));
    Books(k.fs);
    Conserved(FreeSet(old(k.fs.vol.fat)), FreeSet(k.fs.vol.fat), k.fs.vol.geo.totalClusters + 2, k.fs.vol.lost,
              old(k.fs.vol.own), own1, k.fs.vol.own, k.fs.curDir, h0, h);
  }

  lemma ZeroNotOwned(fs: Fs)
    requires fs.Inv()
    ensures 0 !in fs.vol.own
  {
    hide Volume.Refines, Body;
    ObjectsAre(fs.vol);
  }

  lemma Books(fs: Fs)
    requires fs.Inv()
    ensures FreeRest(FreeSet(fs.vol.fat), fs.vol.geo.totalClusters + 2, fs.vol.lost, fs.vol.own)
    ensures Partition(fs.vol.geo.totalClusters + 2, fs.vol.lost, fs.vol.own)
    ensures Balanced(FreeSet(fs.vol.fat), fs.vol.geo.totalClusters + 2, fs.vol.lost, fs.vol.own)
  {
    hide Volume.Refines, Body, Owned, FreeSet, FreeRest, Partition, Contents.Distinct;
    FreeIsTheRest(fs.vol);
    VolShape(fs.vol);
    forall h | h in fs.vol.own ensures Contents.Distinct(fs.vol.own[h]) { OwnedChain(fs.vol, h); }
  }

  /** The clusters of `s0` became free, the ones directory `d0` gained to become `d1` are
      taken, and nothing else changed. */
  ghost predicate GivesBack(free0: set<int>, free: set<int>, s0: Chain, d0: Chain, d1: Chain) {
    free == free0 + Clusters(s0) - (Clusters(d1) - Clusters(d0))
  }

  lemma Conserved(free0: set<int>, free: set<int>, n: nat, lost: set<int>, own0: map<int, Chain>, own1: map<int, Chain>,
                  own: map<int, Chain>, d: int, h0: int, h: int)
    requires FreeRest(free0, n, lost, own0) && Partition(n, lost, own0) && FreeRest(free, n, lost, own)
    requires Footprint(own0, own1, d, h0, h) && own == own1 - {h} && (h0 == 0 ==> 0 !in own0)
    ensures GivesBack(free0, free, OwnAt(own0, h0), OwnAt(own0, d), OwnAt(own, d))
  {
    var s0, grown := OwnAt(own0, h0), Clusters(own[d]) - Clusters(own0[d]);
    hide FreeRest, Partition;
    forall c | c in free ensures c in free0 + Clusters(s0) - grown {
      FreeBefore(free0, free, n, lost, own0, own, d, h0, c);
    }
    forall c | c in free0 + Clusters(s0) - grown ensures c in free {
      FreeAfter(free0, free, n, lost, own0, own, d, h0, c);
    }
  }

  /** Apart from the directory and the dropped chain, the chains are the same. */
  ghost predicate ChainsSameBut(own0: map<int, Chain>, own: map<int, Chain>, d: int, h0: int) {
    && d in own0 && d in own && own0[d] <= own[d] && d != h0 && h0 !in own
    && (forall x :: x in own0 && x != d && x != h0 ==> x in own && own[x] == own0[x])
    && (forall x :: x in own && x != d ==> x in own0 && own[x] == own0[x])
  }

  lemma FreeBefore(free0: set<int>, free: set<int>, n: nat, lost: set<int>, own0: map<int, Chain>, own: map<int,
                   Chain>, d: int, h0: int, c: int)
    requires FreeRest(free0, n, lost, own0) && FreeRest(free, n, lost, own)
    requires ChainsSameBut(own0, own, d, h0) && c in free
    requires h0 == 0 ==> 0 !in own0
    ensures c in free0 + Clusters(OwnAt(own0, h0)) && c !in own[d]
  {
  }

  lemma FreeAfter(free0: set<int>, free: set<int>, n: nat, lost: set<int>, own0: map<int, Chain>, own: map<int, Chain>,
                  d: int, h0: int, c: int)
    requires FreeRest(free0, n, lost, own0) && Partition(n, lost, own0) && FreeRest(free, n, lost, own)
    requires ChainsSameBut(own0, own, d, h0)
    requires c in free0 || c in OwnAt(own0, h0)
    requires c !in Clusters(own[d]) - Clusters(own0[d])
    ensures c in free
  {
    if c in OwnAt(own0, h0) { assert h0 in own0 && c in own0[h0]; }
    forall x | x in own ensures c !in own[x] {
      NotInOther(free0, n, lost, own0, h0, x, c);
      assert x == d ==> own[d] == own0[d] + own[d][|own0[d]|..];
    }
    assert !InSome(own, c);
    assert 2 <= c < n && c !in lost;
  }

  lemma NotInOther(free: set<int>, n: nat, lost: set<int>, own: map<int, Chain>, h: int, x: int, c: int)
    requires FreeRest(free, n, lost, own) && Partition(n, lost, own) && x in own && x != h
    requires c in free || c in OwnAt(own, h)
    ensures c !in own[x]
  {
  }

  lemma CurDirKept(fs: Fs)
    requires fs.Inv()
    ensures Consistent(fs.Held(), fs.dirs, fs.refs, fs.open) && fs.curDir in fs.dirs
  {
  }
}
