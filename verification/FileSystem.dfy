/** The driver's operations on files, against the catalogue of files. */
module FileSystem {
  import opened Bytes
  import opened Volume
  import opened Chains
  import opened Contents
  import opened ClusterOps
  import opened FileIo
  import opened Names
  import opened Slots
  import opened Directory
  import opened Catalog
  import opened ObjectStore

  const O_CREAT: byte := 0x04
  const O_TRUNC: byte := 0x08
  const O_APPEND: byte := 0x10

  /** `flags & bit` for a single-bit mask. */
  predicate Flag(flags: byte, bit: byte) { bit != 0 && flags / bit % 2 == 1 }

  /** What the flags of open mean, bit by bit. */
  lemma FlagBits(flags: byte)
    ensures Flag(flags, O_CREAT) <==> flags / 4 % 2 == 1
    ensures Flag(flags, O_TRUNC) <==> flags / 8 % 2 == 1
    ensures Flag(flags, O_APPEND) <==> flags / 16 % 2 == 1
  {
  }

  /** Path components are C strings. */
  type CString = s: seq<byte> | 0 !in s

  /** `c1` is `c0` with `d` stored at `pos`; a gap behind the old end may hold anything. */
  ghost predicate Overwritten(c0: seq<byte>, c1: seq<byte>, pos: nat, d: seq<byte>) {
    && |c1| == (if |d| > 0 then Max(|c0|, pos + |d|) else |c0|)
    && (|d| > 0 ==> c1[pos..pos + |d|] == d)
    && (forall i :: 0 <= i < |c0| && !(pos <= i < pos + |d|) ==> c1[i] == c0[i])
  }

  /** Without a gap the new contents are determined. */
  lemma OverwrittenExact(c0: seq<byte>, c1: seq<byte>, pos: nat, d: seq<byte>)
    requires Overwritten(c0, c1, pos, d) && pos <= |c0|
    ensures c1 == c0[..pos] + d + (if pos + |d| <= |c0| then c0[pos + |d|..] else [])
  {
  }

  /** The at most `n` bytes of `c` from position `p`. */
  function Slice(c: seq<byte>, p: nat, n: nat): seq<byte> {
    if p >= |c| then [] else c[p..p + Min(n, |c| - p)]
  }

  /** What a read of `n` bytes at `p` delivers from a file of `size` bytes stored in `chain`, whether or
      not the sum of `p` and `n` wraps. */
  ghost predicate Delivered(chain: seq<byte>, size: u32, p: u32, n: u32, out: seq<byte>) {
    && size <= |chain| && |out| == ReadCount(p, n, size, |chain|)
    && (|out| > 0 ==> p as int + |out| <= |chain| && out == chain[p..p as int + |out|])
  }

  ghost function ChainBytes(held: Held, first: int): seq<byte> { if first in held then held[first] else [] }

  /** Directories are never cut short or moved. */
  ghost predicate DirsExtend(own0: map<int, Chain>, own: map<int, Chain>, dirs: set<int>) {
    forall d :: d in dirs && d in own0 ==> d in own && own0[d] <= own[d]
  }

  class Fs {
    const vol: Vol
    var curDir: u32
    ghost var dirs: set<int>
    ghost var refs: Refs
    ghost var open: set<SlotId>

    /** Adopts a mounted volume with directories `ds` and live slots `rs`, whatever they hold, and cluster 2
        as the current directory; no file is open. */
    constructor (v: Vol, ghost ds: set<int>, ghost rs: Refs)
      requires Sound(v) && 2 in ds && Consistent(Objects(v.data, v.own), ds, rs, {})
      ensures vol == v && curDir == 2 && dirs == ds && refs == rs && open == {}
      ensures Inv()
    {
      hide Sound, Consistent, Objects;
      vol, curDir, dirs, refs, open := v, 2, ds, rs, {};
    }

    ghost function Held(): Held
      reads vol
    {
      Objects(vol.data, vol.own)
    }

    ghost predicate Inv()
      reads this, vol
    {
      Sound(vol) && Consistent(Held(), dirs, refs, open) && curDir in dirs
    }

    ghost function View(): View
      reads this, vol
    {
      Catalog.View(Held(), dirs, refs, open)
    }

    /** The open handle `file` speaks for slot `id`. */
    ghost predicate Speaks(file: File, id: SlotId)
      reads this, vol, file
    {
      && file.isOpen && id in open && id in refs && refs[id] == Ref(file.first, file.size)
      && id.dir in vol.own && Located(vol.own[id.dir], vol.geo.Bpc(), id.k, file.dirCluster, file.dirOffset)
      && file.dirOffset + 32 <= vol.geo.Bpc()
    }

    ghost function ContentOf(id: SlotId): seq<byte>
      reads this, vol
    {
      Content(Held(), refs, id)
    }

    /** The chain behind an open handle is long enough. */
    lemma SpeaksFacts(file: File, id: SlotId)
      requires Inv() && Speaks(file, id)
      ensures file.first == 0 ==> file.size == 0 && ContentOf(id) == []
      ensures file.first != 0 ==> file.first in vol.own && file.first !in dirs
      ensures HasChain(vol.fat, file.first, OwnAt(vol.own, file.first)) && InData(vol.data, OwnAt(vol.own, file.first))
      ensures file.size <= |Body(vol.data, OwnAt(vol.own, file.first))|
      ensures ContentOf(id) == Body(vol.data, OwnAt(vol.own, file.first))[..file.size]
      ensures |ContentOf(id)| == file.size && id.dir in dirs
    {
      hide Volume.Refines, Body, Located, Volume.Geometry.Bpc, Objects, SlotAt, Count, Live, ZeroTail, IsChain;
      ObjectsAre(vol);
      assert IsEntry(Held(), dirs, id);
      assert RefOk(Held(), dirs, SlotOf(Held(), dirs, id), refs[id]);
    }

    method Read(file: File, size: u32, ghost id: SlotId) returns (r: int, out: seq<byte>)
      requires Inv() && Speaks(file, id)
      modifies file`position, file`current
      ensures Inv() && Speaks(file, id)
      ensures 0 <= r == |out|
      ensures Delivered(ChainBytes(Held(), file.first), file.size, old(file.position), size, out)
      ensures old(file.position) as int + size < TWO32 || |ContentOf(id)| <= old(file.position) ==>
                out == Slice(ContentOf(id), old(file.position), size)
      ensures file.position == Wrap32(old(file.position) + r)
    {
      hide Volume.Refines, Body, Bytes.Wrap32, Consistent, Sound, Vol.Valid, Objects;
      SpeaksFacts(file, id);
      ghost var s := OwnAt(vol.own, file.first);
      ObjectsAre(vol);
      ReadCountExact(file.position, size, file.size, |Body(vol.data, s)|);
      assert vol.Valid() by { SoundValid(vol); }
      r, out := FileIo.Read(vol, file, size, s);
      if old(file.position) as int + size < TWO32 && r > 0 {
        SliceOfPrefix(Body(vol.data, s), file.size, old(file.position), r);
      }
    }

    method Write(file: File, buf: seq<byte>, ghost id: SlotId) returns (r: int)
      requires Inv() && Speaks(file, id) && file.position as int + |buf| < TWO32
      modifies this`refs, vol`disk, vol`fat, vol`nextFree, vol`own, vol`owner, vol`data
      modifies file`first, file`current, file`size, file`position
      ensures Inv() && Speaks(file, id)
      ensures -1 <= r <= |buf|
      ensures r == -1 <==> old(file.first) == 0 && FreeSet(old(vol.fat)) == {}
      ensures r == -1 ==> Held() == old(Held()) && vol.fat == old(vol.fat)
      ensures r == -1 ==>
                file.first == old(file.first) && file.size == old(file.size) && file.position == old(file.position)
      ensures refs == old(refs)[id := Ref(file.first, file.size)]
      ensures r >= 0 ==> Overwritten(old(ContentOf(id)), ContentOf(id), old(file.position), buf[..r])
      ensures 0 <= r < |buf| ==>
                FreeSet(vol.fat) == {} && UsedUp(OwnAt(vol.own, file.first), vol.geo.Bpc(), old(file.position) + r)
      ensures 0 < vol.geo.Bpc()
      ensures r >= 0 ==>
                Stretched(OwnAt(old(vol.own), old(file.first)), OwnAt(vol.own, file.first), old(file.position), |buf|,
                          vol.geo.Bpc(), FreeSet(vol.fat) == {} && (r < |buf| || |buf| == 0))
      ensures r >= 0 ==> file.position == old(file.position) + r
      ensures forall x :: x in refs && x != id ==> ContentOf(x) == old(ContentOf(x))
      ensures forall d :: d in dirs ==> d in Held() && d in old(Held()) && Held()[d] == old(Held())[d]
      ensures vol.own == if r >= 0 then old(vol.own)[file.first := OwnAt(vol.own, file.first)] else old(vol.own)
      ensures old(file.first) == 0 && r >= 0 ==> file.first !in old(vol.own)
      ensures old(file.first) != 0 ==> file.first == old(file.first)
      ensures DirsExtend(old(vol.own), vol.own, dirs)
    {
      hide Volume.Refines, Body, Consistent, Sound, Vol.Valid, Grown, Written, Located, Overwritten;
      hide Volume.Geometry.Bpc, Chains.FreeSet, Objects, Owned, IsChain, InData, Stretched, UsedUp;
      SpeaksFacts(file, id);
      ghost var held0, own0, data0, fat0, h0, size0 := Held(), vol.own, vol.data, vol.fat, file.first, file.size;
      ghost var owner0 := vol.owner;
      DirsHeld(this);
      assert Owned(fat0, own0, owner0) by { SoundOwned(vol); }
      r := FileIo.Write(vol, file, buf);
      if r >= 0 {
        ghost var h := file.first;
        WroteFacts(vol, data0, fat0, own0, owner0, h0, h, size0, old(file.position), buf, r);
        WriteKeeps(held0, dirs, refs, open, id, h, Body(vol.data, vol.own[h]), file.size);
        refs := refs[id := Ref(file.first, file.size)];
      } else {
        assert refs == refs[id := Ref(file.first, file.size)];
      }
    }

    method Close(file: File, ghost id: SlotId) returns (r: int)
      requires Inv() && (file.isOpen ==> Speaks(file, id))
      modifies this`open, vol`disk, vol`data, file`isOpen
      ensures Inv() && !file.isOpen
      ensures !old(file.isOpen) ==> r == -1 && open == old(open) && vol.data == old(vol.data)
      ensures old(file.isOpen) ==> r == 0 && open == old(open) - {id} && IsFile(Held(), dirs, id)
      ensures old(file.isOpen) ==> Recorded(old(Held()), Held(), id, file.first, file.size)
      ensures SameFiles(old(Held()), Held(), refs, dirs)
      ensures SameLookups(old(Held()), Held(), dirs)
    {
      hide Volume.Refines, Body, Consistent, Sound, Vol.Valid, Located, Volume.Geometry.Bpc, Objects, SetRef, PutSlot;
      hide Find, SlotAt, Count, SameLookups, SameFiles;
      if !file.isOpen {
        SameRefl(Held(), refs, dirs);
        return -1;
      }
      SpeaksFacts(file, id);
      DirsHeld(this);
      EntryFacts(this, id);
      ghost var held0 := Held();
      LocatedSlot(vol, id.dir, id.k, file.dirCluster, file.dirOffset);
      var st, buf := vol.ReadCluster(file.dirCluster);
      if st != 0 { return -1; }
      var slot: Slot := buf[file.dirOffset..file.dirOffset + 32];
      var slot' := SetRef(slot, file.first, file.size);
      RewriteSlot(vol, id.dir, id.k, file.dirCluster, file.dirOffset, buf, slot');
      CloseKeeps(held0, dirs, refs, open, id, slot');
      CloseSame(held0, dirs, refs, open, id, slot');
      open := open - {id};
      file.isOpen := false;
      r := 0;
    }

    /** The slot a name leads to in the current directory. */
    ghost function Target(path: CString): SlotId
      reads this, vol
    {
      SlotId(curDir, Lookup(Held(), curDir, ShortName(path)))
    }

    method Unlink(path: CString) returns (r: int)
      requires Inv()
      requires Target(path).k >= 0 ==> Target(path) !in open && IsFile(Held(), dirs, Target(path))
      modifies this`refs, vol`disk, vol`fat, vol`own, vol`owner, vol`data
      ensures Inv()
      ensures r == if old(Target(path)).k >= 0 then 0 else -1
      ensures r == -1 ==>
                refs == old(refs) && Held() == old(Held()) && vol.fat == old(vol.fat) && vol.own == old(vol.own)
      ensures r == 0 ==> old(Target(path)) in old(refs) && refs == old(refs) - {old(Target(path))}
      ensures r == 0 ==> Erased(old(Held()), Held(), old(Target(path)), old(refs))
      ensures r == 0 ==> vol.own == old(vol.own) - {old(refs)[old(Target(path))].first}
      ensures r == 0 ==> forall x :: x in refs && refs[x].first !in dirs ==> ContentOf(x) == old(ContentOf(x))
      ensures DirsExtend(old(vol.own), vol.own, dirs)
    {
      hide Volume.Refines, Body, Consistent, Sound, Vol.Valid, Located, Volume.Geometry.Bpc, Objects, PutSlot, Find;
      hide SlotAt, Count, ShortName, IsChain;
      DirsHeld(this);
      ghost var held0, own0, id, d := Held(), vol.own, Target(path), curDir as int;
      ObjectsAre(vol);
      OwnedChain(vol, d);
      SoundValid(vol);
      var st, slot, cluster, offset, k := FindEntry(vol, curDir, path, vol.own[curDir]);
      if st != 0 { return -1; }
      FoundEntry(this, id, slot);
      var first := FirstOf(slot);
      if first >= 2 {
        DropChain(vol, first);
        ObjectsDrop(vol.data, own0, first);
      } else {
        assert own0 - {first as int} == own0 && held0 - {first as int} == held0;
      }
      LocatedSlot(vol, d, k, cluster, offset);
      var st', buf := vol.ReadCluster(cluster);
      if st' != 0 { return -1; }
      RewriteSlot(vol, d, k, cluster, offset, buf, slot[0 := DELETED]);
      UnlinkKeeps(held0, dirs, refs, open, id, slot[0 := DELETED]);
      UnlinkSame(held0, dirs, refs, open, id, slot[0 := DELETED]);
      refs := refs - {id};
      r := 0;
    }

    /** Allocates a cluster and enters it under `path` in the current directory; gives
        the cluster back when the directory has no room and cannot grow. */
    method Enter(path: CString, attr: byte) returns (r: int, c: u32)
      requires Inv()
      modifies vol`disk, vol`fat, vol`nextFree, vol`own, vol`owner, vol`data
      ensures Sound(vol)
      ensures r == 0 || r == -1
      ensures r == -1 <==> NoRoom(old(vol.fat), old(vol.data), old(vol.own), curDir)
      ensures r == -1 ==> vol.fat == old(vol.fat) && vol.own == old(vol.own) && vol.data == old(vol.data)
      ensures r == 0 ==> c != 0 && c !in old(vol.own) && vol.geo.InRange(c)
      ensures r == 0 ==> Entering(old(Held()), Held(), curDir, c, vol.geo.Bpc(), MakeSlot(ShortName(path), attr, c))
      ensures r == 0 ==> vol.own == old(vol.own)[c := [c]][curDir := OwnAt(vol.own, curDir)] && curDir != c
      ensures DirsExtend(old(vol.own), vol.own, dirs)
    {
      hide Volume.Refines, Body, Consistent, Vol.Valid, Volume.Geometry.Bpc, Objects, PutSlot, Find, SlotAt, Count;
      hide ShortName, IsChain, MakeSlot, VacantFrom, Owned, Entered, Full, FreeCount, FreeSet, Entering;
      DirsHeld(this);
      VolShape(vol);
      ghost var held0, own0, data0, fat0 := Held(), vol.own, vol.data, vol.fat;
      c := NewChain(vol);
      FreeCountZero(fat0);
      if c == 0 { return -1, 0; }
      FreeCountStep(fat0, c);
      ghost var own1, fat1 := vol.own, vol.fat;
      r := CreateEntry(vol, curDir, path, attr, c);
      FreeCountZero(fat1);
      if r != 0 {
        FreeNew(fat0, c);
        DropChain(vol, c);
        assert vol.own == own0;
        return -1, 0;
      }
      EnteredObjects(vol, data0, own0, curDir, c, MakeSlot(ShortName(path), attr, c));
    }

    /** A handle takes over slot `id`, freeing its chain first if asked to. */
    method TakeOver(first: u32, truncate: bool, ghost id: SlotId)
      requires Inv() && id in refs && id !in open && IsFile(Held(), dirs, id) && refs[id].first == first
      modifies this`refs, this`open, vol`disk, vol`fat, vol`own, vol`owner
      ensures Inv()
      ensures open == old(open) + {id}
      ensures refs == if truncate then old(refs)[id := Ref(0, 0)] else old(refs)
      ensures Held() == if truncate then old(Held()) - {first as int} else old(Held())
      ensures vol.own == if truncate then old(vol.own) - {first as int} else old(vol.own)
      ensures DirsExtend(old(vol.own), vol.own, dirs)
    {
      hide Volume.Refines, Body, Consistent, Sound, Vol.Valid, Objects, Content;
      DirsHeld(this);
      ObjectsAre(vol);
      EntryFacts(this, id);
      ghost var held0, own0 := Held(), vol.own;
      if truncate && first >= 2 {
        DropChain(vol, first);
        ObjectsDrop(vol.data, own0, first);
        TruncateKeeps(held0, dirs, refs, open, id);
        refs := refs[id := Ref(0, 0)];
      } else {
        OpenKeeps(held0, dirs, refs, open, id);
        assert truncate ==> refs == refs[id := Ref(0, 0)] && held0 == held0 - {0} && own0 == own0 - {0};
      }
      open := open + {id};
    }

    /** The found branch of open. */
    method OpenFound(file: File, slot: Slot, truncate: bool, ghost id: SlotId, ghost nm: Name11)
      requires Inv() && id in refs && id !in open && IsFile(Held(), dirs, id) && IsSlot(Held(), dirs, id, slot)
      requires Stands(id, file.dirCluster, file.dirOffset)
      modifies this`refs, this`open, vol`disk, vol`fat, vol`own, vol`owner
      modifies file`first, file`current, file`size, file`attr, file`isOpen
      ensures Inv() && Speaks(file, id)
      ensures Opened(old(View()), View(), id, nm, truncate, vol.geo.Bpc())
      ensures ChainsOpened(old(vol.own), vol.own, old(refs), refs, id, truncate)
      ensures Held() == if truncate then old(Held()) - {old(refs)[id].first} else old(Held())
      ensures DirsExtend(old(vol.own), vol.own, dirs)
    {
      hide Volume.Refines, Body, Consistent, Sound, Vol.Valid, Located, Volume.Geometry.Bpc, Objects, SlotAt, Count;
      hide FirstOf, SizeOf, Content;
      FoundEntry(this, id, slot);
      ObjectsAre(vol);
      var first := FirstOf(slot);
      ghost var s := vol.own[id.dir];
      TakeOver(first, truncate, id);
      LocatedGrows(s, vol.own[id.dir], vol.geo.Bpc(), id.k, file.dirCluster, file.dirOffset);
      file.attr := slot[11];
      if truncate && first >= 2 {
        file.first, file.current, file.size := 0, 0, 0;
      } else {
        file.first, file.current, file.size := first, first, SizeOf(slot);
      }
      file.isOpen := true;
    }

    method Open(file: File, path: CString, flags: byte) returns (r: int, ghost id: SlotId)
      requires Inv()
      requires Target(path).k >= 0 ==> Target(path) !in open && IsFile(Held(), dirs, Target(path))
      requires Target(path).k < 0 && flags / 4 % 2 == 1 ==> ShortName(path)[0] != 0xE5
      modifies this`refs, this`open, file
      modifies vol`disk, vol`fat, vol`nextFree, vol`own, vol`owner, vol`data
      ensures Inv()
      ensures r == 0 || r == -1
      ensures r == -1 <==>
                && old(Target(path)).k < 0
                && (flags / 4 % 2 == 0 || NoRoom(old(vol.fat), old(vol.data), old(vol.own), curDir))
      ensures r == -1 ==> !file.isOpen && refs == old(refs) && open == old(open)
      ensures r == -1 ==> Held() == old(Held()) && vol.fat == old(vol.fat)
      ensures r == 0 ==> Speaks(file, id) && id == Target(path) && id.k >= 0
      ensures r == 0 ==> file.size == |ContentOf(id)|
      ensures r == 0 ==> file.position == if flags / 16 % 2 == 1 then file.size else 0
      ensures r == 0 ==>
                (id in old(refs) <==> old(Target(path)).k >= 0) && (id in old(refs) ==> id == old(Target(path)))
      ensures r == 0 ==> Opened(old(View()), View(), id, ShortName(path), flags / 8 % 2 == 1, vol.geo.Bpc())
      ensures r == 0 ==> ChainsOpened(old(vol.own), vol.own, old(refs), refs, id, flags / 8 % 2 == 1)
      ensures r == 0 && (old(Target(path)).k < 0 || flags / 8 % 2 == 1) ==> ContentOf(id) == []
      ensures r == 0 && old(Target(path)).k >= 0 && flags / 8 % 2 == 0 ==> ContentOf(id) == old(ContentOf(Target(path)))
      ensures DirsExtend(old(vol.own), vol.own, dirs)
    {
      hide Volume.Refines, Body, Consistent, Sound, Vol.Valid, Located, Volume.Geometry.Bpc, Objects, SlotAt, Count;
      hide Find, Content, ShortName, IsChain, Opened, ChainsOpened, NoRoom, IsFile, IsSlot, Lookup, Flag, Fs.Held;
      FlagBits(flags);
      file.Clear();
      r, id := OpenSlot(file, path, Flag(flags, O_CREAT), Flag(flags, O_TRUNC));
      if r != 0 { return; }
      OpenedContents(old(View()), View(), id, ShortName(path), Flag(flags, O_TRUNC), vol.geo.Bpc());
      SpeaksFacts(file, id);
      file.flags := flags;
      file.position := if Flag(flags, O_APPEND) then file.size else 0;
    }

    /** Finds the file, or makes it if it is to be created; `file` is cleared. */
    method OpenSlot(file: File, path: CString, create: bool, truncate: bool) returns (r: int, ghost id: SlotId)
      requires Inv() && !file.isOpen
      requires Target(path).k >= 0 ==> Target(path) !in open && IsFile(Held(), dirs, Target(path))
      requires Target(path).k < 0 && create ==> ShortName(path)[0] != 0xE5
      modifies this`refs, this`open, vol`disk, vol`fat, vol`nextFree, vol`own, vol`owner, vol`data
      modifies file`first, file`current, file`size, file`attr, file`isOpen, file`dirCluster, file`dirOffset
      ensures Inv()
      ensures r == 0 || r == -1
      ensures r == -1 <==>
                old(Target(path)).k < 0 && (!create || NoRoom(old(vol.fat), old(vol.data), old(vol.own), curDir))
      ensures r == -1 ==> !file.isOpen && refs == old(refs) && open == old(open)
      ensures r == -1 ==> Held() == old(Held()) && vol.fat == old(vol.fat)
      ensures r == 0 ==> Speaks(file, id) && id == Target(path) && id.k >= 0
      ensures r == 0 ==>
                (id in old(refs) <==> old(Target(path)).k >= 0) && (id in old(refs) ==> id == old(Target(path)))
      ensures r == 0 ==> Opened(old(View()), View(), id, ShortName(path), truncate, vol.geo.Bpc())
      ensures r == 0 ==> ChainsOpened(old(vol.own), vol.own, old(refs), refs, id, truncate)
      ensures DirsExtend(old(vol.own), vol.own, dirs)
    {
      hide Volume.Refines, Body, Consistent, Sound, Vol.Valid, Located, Volume.Geometry.Bpc, Objects, SlotAt, Count;
      hide Find, Content, ShortName, IsChain, Opened, ChainsOpened, NoRoom, IsFile, IsSlot, Lookup, Fs.Held;
      id := Target(path);
      var st, slot, dc, off := FindTarget(path);
      if st == 0 {
        file.dirCluster, file.dirOffset := dc, off;
        OpenFound(file, slot, truncate, id, ShortName(path));
        TargetStays(old(View()), View(), id, path, truncate, vol.geo.Bpc());
      } else {
        if !create { return -1, id; }
        var e;
        e, id := OpenNew(file, path, truncate);
        if e != 0 { return -1, id; }
      }
      r := 0;
    }

    /** Creates an empty file and marks its slot as spoken for. */
    method CreateFile(path: CString) returns (r: int, c: u32, ghost id: SlotId)
      requires Inv() && Target(path).k < 0 && ShortName(path)[0] != 0xE5
      modifies this`refs, this`open, vol`disk, vol`fat, vol`nextFree, vol`own, vol`owner, vol`data
      ensures Inv()
      ensures r == 0 || r == -1
      ensures r == -1 <==> NoRoom(old(vol.fat), old(vol.data), old(vol.own), curDir)
      ensures r == -1 ==> refs == old(refs) && open == old(open) && Held() == old(Held()) && vol.fat == old(vol.fat)
      ensures r == 0 ==> id == Target(path) && id.k >= 0 && id !in old(refs) && id !in old(open)
      ensures r == 0 ==> c != 0 && c !in old(vol.own) && refs == old(refs)[id := Ref(c, 0)] && open == old(open) + {id}
      ensures r == 0 ==> vol.own == old(vol.own)[c := [c]][curDir := OwnAt(vol.own, curDir)]
      ensures r == 0 ==>
                Entering(old(Held()), Held(), curDir, c, vol.geo.Bpc(), MakeSlot(ShortName(path), ATTR_ARCHIVE, c))
      ensures DirsExtend(old(vol.own), vol.own, dirs)
    {
      hide Volume.Refines, Body, Consistent, Sound, Vol.Valid, Volume.Geometry.Bpc, Objects, SlotAt, Count, Find;
      hide Content, ShortName, Entering, MakeSlot, NoRoom;
      ghost var held0 := Held();
      DirsHeld(this);
      VolShape(vol);
      FindAtLeast(held0, curDir, ShortName(path));
      OpenInRefs(held0, dirs, refs, open);
      r, c := Enter(path, ATTR_ARCHIVE);
      id := Target(path);
      if r != 0 { return; }
      NewEntry(held0, Held(), dirs, refs, open, curDir, vol.geo.Bpc(), path, c);
      OpenKeeps(Held(), dirs, refs[id := Ref(c, 0)], open, id);
      refs := refs[id := Ref(c, 0)];
      open := open + {id};
    }

    /** Finds the entry that was made a moment ago. */
    method Locate(file: File, path: CString)
      requires Inv() && Target(path).k >= 0
      modifies file`dirCluster, file`dirOffset
      ensures Stands(Target(path), file.dirCluster, file.dirOffset)
    {
      hide Fs.Inv, Stands, Fs.Target;
      var st, _, dc, off := FindTarget(path);
      if st != 0 {
        assert false;
      }
      file.dirCluster, file.dirOffset := dc, off;
    }

    /** Slot `id` is stored at byte `offset` of `cluster`. */
    ghost predicate Stands(id: SlotId, cluster: u32, offset: u32)
      reads this, vol
    {
      && id.dir in vol.own && Located(vol.own[id.dir], vol.geo.Bpc(), id.k, cluster, offset)
      && offset + 32 <= vol.geo.Bpc()
    }

    /** Looks `path` up in the current directory. */
    method FindTarget(path: CString) returns (st: int, slot: Slot, cluster: u32, offset: u32)
      requires Inv()
      ensures st == 0 <==> Target(path).k >= 0
      ensures st == 0 ==> Stands(Target(path), cluster, offset) && IsSlot(Held(), dirs, Target(path), slot)
      ensures st == 0 ==> Target(path) in refs
    {
      hide Volume.Refines, Body, Consistent, Sound, Vol.Valid, Located, Volume.Geometry.Bpc, Objects, SlotAt, Count;
      hide Find, Content, ShortName, IsChain;
      DirsHeld(this);
      OwnedChain(vol, curDir);
      SoundValid(vol);
      ObjectsAre(vol);
      var s, e, dc, off, k := FindEntry(vol, curDir, path, vol.own[curDir]);
      st, slot, cluster, offset := s, e, dc, off;
      if st == 0 {
        FoundIsLive(this, ShortName(path), k);
        FoundEntry(this, SlotId(curDir, k), slot);
      }
    }

    /** The creating branch of open. */
    method OpenNew(file: File, path: CString, ghost truncate: bool) returns (r: int, ghost id: SlotId)
      requires Inv() && Target(path).k < 0 && ShortName(path)[0] != 0xE5
      modifies this`refs, this`open, vol`disk, vol`fat, vol`nextFree, vol`own, vol`owner, vol`data
      modifies file`first, file`current, file`size, file`attr, file`isOpen, file`dirCluster, file`dirOffset
      ensures Inv()
      ensures r == 0 || r == -1
      ensures r == -1 <==> NoRoom(old(vol.fat), old(vol.data), old(vol.own), curDir)
      ensures r == -1 ==> file.isOpen == old(file.isOpen)
      ensures r == -1 ==> refs == old(refs) && open == old(open) && Held() == old(Held()) && vol.fat == old(vol.fat)
      ensures r == 0 ==> Speaks(file, id) && file.size == 0
      ensures r == 0 ==> id == Target(path) && id.k >= 0 && id !in old(refs) && id !in old(open)
      ensures r == 0 ==> Opened(old(View()), View(), id, ShortName(path), truncate, vol.geo.Bpc())
      ensures r == 0 ==> ChainsOpened(old(vol.own), vol.own, old(refs), refs, id, truncate)
      ensures DirsExtend(old(vol.own), vol.own, dirs)
    {
      hide Volume.Refines, Body, Consistent, Sound, Vol.Valid, Located, Volume.Geometry.Bpc, Objects, SlotAt, Count;
      hide Find, Content, ShortName, IsChain, Entering, MakeSlot, NoRoom, Fs.Held, Lookup;
      var c;
      r, c, id := CreateFile(path);
      if r != 0 { return; }
      Locate(file, path);
      file.first, file.current, file.size, file.attr := c, c, 0, ATTR_ARCHIVE;
      file.isOpen := true;
    }

    method Mkdir(path: CString) returns (r: int, ghost id: SlotId)
      requires Inv() && ShortName(path)[0] != 0xE5
      modifies this`dirs, this`refs, vol`disk, vol`fat, vol`nextFree, vol`own, vol`owner, vol`data
      ensures Inv()
      ensures r == 0 || r == -1
      ensures r == -1 <==> NoRoom(old(vol.fat), old(vol.data), old(vol.own), curDir)
      ensures r == -1 ==> refs == old(refs) && dirs == old(dirs) && Held() == old(Held()) && vol.fat == old(vol.fat)
      ensures r == 0 ==> id.dir == curDir && id !in old(refs) && id in refs && refs == old(refs)[id := refs[id]]
      ensures r == 0 ==> refs[id].size == 0 && 0 < refs[id].first < TWO32
      ensures r == 0 ==> refs[id].first !in old(dirs) && dirs == old(dirs) + {refs[id].first}
      ensures r == 0 ==> EmptyDir(Held(), refs[id].first)
      ensures r == 0 ==>
                Entering(old(Held()), Held(), curDir, refs[id].first, vol.geo.Bpc(),
                         MakeSlot(ShortName(path), 0x10, refs[id].first))
      ensures r == 0 && old(Target(path)).k < 0 ==> Target(path) == id
      ensures forall x :: x in old(refs) && old(refs)[x].first !in old(dirs) ==>
                x in refs && ContentOf(x) == old(ContentOf(x))
      ensures DirsExtend(old(vol.own), vol.own, old(dirs))
    {
      hide Volume.Refines, Body, Consistent, Vol.Valid, Volume.Geometry.Bpc, Objects, SlotAt, Count, Find, Content;
      hide ShortName, Entering, MakeSlot, NoRoom, Owned;
      ghost var held0 := Held();
      DirsHeld(this);
      VolShape(vol);
      FindAtLeast(held0, curDir, ShortName(path));
      id := SlotId(curDir, -1);
      var c;
      r, c := Enter(path, ATTR_DIRECTORY);
      if r != 0 { return; }
      VolShape(vol);
      ghost var held1, data1 := Held(), vol.data;
      var _ := vol.WriteCluster(c, Zeros(vol.geo.Bpc()));
      ZeroedObject(vol, data1, c);
      ZeroedEntering(held0, held1, curDir, c, vol.geo.Bpc(), MakeSlot(ShortName(path), ATTR_DIRECTORY, c));
      id := SlotId(curDir, NewIndex(held0, curDir, vol.geo.Bpc()));
      NewDirectory(held0, Held(), dirs, refs, open, curDir, vol.geo.Bpc(), path, c);
      refs := refs[id := Ref(c, 0)];
      dirs := dirs + {c as int};
    }
  }

  ghost predicate EmptyDir(held: Held, c: int) { c in held && held[c] == Zeros(|held[c]|) }

  /** The slot number a new entry in `d` gets. */
  ghost function NewIndex(held: Held, d: int, w: nat): nat {
    if d in held then VacantFrom(Roomy(held[d], w), 0) else 0
  }

  lemma ZeroedObject(vol: Vol, data0: seq<seq<byte>>, c: int)
    requires Sound(vol) && c in vol.own && vol.own[c] == [c] && 2 <= c < |data0|
    requires vol.data == data0[c := Zeros(vol.geo.Bpc())]
    ensures Objects(vol.data, vol.own) == Objects(data0, vol.own)[c := Zeros(vol.geo.Bpc())]
  {
    hide Volume.Refines, Owned, Volume.Geometry.Bpc, Body;
    assert SameOutside(data0, vol.data, [c]) by { assert [c][0] == c; }
    assert vol.own == vol.own[c := vol.own[c]];
    ObjectsGrown(data0, vol.own, vol, c);
    BodySingle(vol.data, c);
  }

  lemma ZeroedEntering(held: Held, held1: Held, d: int, c: int, w: nat, slot: Slot)
    requires Entering(held, held1, d, c, w, slot)
    ensures Entering(held, held1[c := Zeros(w)], d, c, w, slot)
  {
  }

  /** A directory entered into directory `d`. */
  lemma NewDirectory(held: Held, held': Held, dirs: set<int>, refs: Refs, open: set<SlotId>, d: int, w: nat,
                     path: CString, c: u32)
    requires Consistent(held, dirs, refs, open) && d in dirs && 32 <= w && w % 32 == 0
    requires ShortName(path)[0] != 0xE5 && c != 0
    requires Entering(held, held', d, c, w, MakeSlot(ShortName(path), ATTR_DIRECTORY, c)) && held'[c] == Zeros(w)
    ensures c !in dirs
    ensures var id := SlotId(d, NewIndex(held, d, w));
            var refs' := refs[id := Ref(c, 0)];
            && id !in refs && Consistent(held', dirs + {c as int}, refs', open)
            && (Lookup(held, d, ShortName(path)) == -1 ==> Lookup(held', d, ShortName(path)) == id.k)
            && (forall x :: x in refs && refs[x].first !in dirs ==>
                  x in refs' && Content(held', refs', x) == Content(held, refs, x))
  {
    hide Find, Count, VacantFrom, SlotAt, Consistent, ShortName, Roomy, PutSlot, MakeSlot, FirstOf, SizeOf, ZeroTail;
    var nm := ShortName(path);
    var s := MakeSlot(nm, ATTR_DIRECTORY, c);
    assert Live(s) && IsDir(s) by { NameNonzero(path); assert NameOf(s)[0] == s[0]; }
    NewKeeps(held, dirs, refs, open, c, held'[c]);
    var held1 := held[c := held'[c]];
    ConsistentDirs(held, dirs, refs, open);
    DirKeeps(held1, dirs, refs, open, c, w);
    CreateKeeps(held1, dirs + {c as int}, refs, open, d, w, s);
    CreateFinds(held[d], w, s, nm);
  }

  lemma OpenInRefs(held: Held, dirs: set<int>, refs: Refs, open: set<SlotId>)
    requires Consistent(held, dirs, refs, open)
    ensures forall id :: id in open ==> id in refs
  {
  }

  ghost function FirstAt(refs: Refs, id: SlotId): int { if id in refs then refs[id].first else 0 }

  /** The state after a successful open that found, or created, slot `id`. */
  ghost predicate Opened(v0: View, v: View, id: SlotId, nm: Name11, truncate: bool, w: nat) {
    && v.dirs == v0.dirs && id !in v0.open && v.open == v0.open + {id} && id in v.refs
    && if id in v0.refs then
         && v.refs == (if truncate then v0.refs[id := Ref(0, 0)] else v0.refs)
         && v.held == (if truncate then v0.held - {v0.refs[id].first} else v0.held)
       else
         && v.refs == v0.refs[id := Ref(v.refs[id].first, 0)] && 0 < v.refs[id].first < TWO32
         && Entering(v0.held, v.held, id.dir, v.refs[id].first, w, MakeSlot(nm, 0x20, v.refs[id].first))
  }

  /** The chains after a successful open: one gone, or one new and the directory perhaps longer. */
  ghost predicate ChainsOpened(own0: map<int, Chain>, own: map<int, Chain>, refs0: Refs, refs: Refs, id: SlotId,
                               truncate: bool) {
    && id in refs && OwnAt(own0, id.dir) <= OwnAt(own, id.dir)
    && if id in refs0 then
         own == if truncate then own0 - {refs0[id].first} else own0
       else
         own == own0[refs[id].first := [refs[id].first]][id.dir := OwnAt(own, id.dir)] && refs[id].first !in own0
  }

  /** A new or truncated file is empty, any other keeps its contents; so do all files not opened. */
  lemma OpenedContents(v0: View, v: View, id: SlotId, nm: Name11, truncate: bool, w: nat)
    requires Consistent(v0.held, v0.dirs, v0.refs, v0.open) && Opened(v0, v, id, nm, truncate, w) && id.dir in v0.dirs
    ensures Content(v.held, v.refs, id) == if id in v0.refs && !truncate then Content(v0.held, v0.refs, id) else []
    ensures forall x :: x in v0.refs && x != id && v0.refs[x].first !in v0.dirs ==>
              v.refs[x] == v0.refs[x] && Content(v.held, v.refs, x) == Content(v0.held, v0.refs, x)
  {
    hide MakeSlot, PutSlot, VacantFrom, Roomy, Count, SlotAt, IsEntry, OnDisk, OpenOk, DirsKept;
    if id in v0.refs {
      if truncate { TruncateSame(v0.held, v0.refs, id); }
    } else {
      EmptyContent(v.held, v.refs, id);
      forall x | x in v0.refs ensures v0.refs[x].first != v.refs[id].first {
        FirstHeld(v0, x);
      }
    }
  }

  /** Opening a file that was found leaves its name leading to it. */
  lemma TargetStays(v0: View, v: View, id: SlotId, path: CString, truncate: bool, w: nat)
    requires Opened(v0, v, id, ShortName(path), truncate, w) && id in v0.refs && IsFile(v0.held, v0.dirs, id)
    requires Consistent(v0.held, v0.dirs, v0.refs, v0.open)
    ensures Lookup(v.held, id.dir, ShortName(path)) == Lookup(v0.held, id.dir, ShortName(path))
  {
    hide Find, ShortName, SlotAt, Count, Live, IsDir;
    assert RefOk(v0.held, v0.dirs, SlotOf(v0.held, v0.dirs, id), v0.refs[id]);
  }

  lemma FirstHeld(v: View, x: SlotId)
    requires Consistent(v.held, v.dirs, v.refs, v.open) && x in v.refs
    ensures v.refs[x].first == 0 || v.refs[x].first in v.held
  {
  }

  /** A name entered into directory `d`: the catalogue gains exactly that entry. */
  lemma NewEntry(held: Held, held': Held, dirs: set<int>, refs: Refs, open: set<SlotId>, d: int, w: nat, path: CString,
                 c: u32)
    requires Consistent(held, dirs, refs, open) && d in dirs && 32 <= w && w % 32 == 0
    requires ShortName(path)[0] != 0xE5 && c != 0 && Lookup(held, d, ShortName(path)) == -1
    requires Entering(held, held', d, c, w, MakeSlot(ShortName(path), ATTR_ARCHIVE, c))
    ensures var id := SlotId(d, Lookup(held', d, ShortName(path)));
            var refs' := refs[id := Ref(c, 0)];
            && 0 <= id.k && id !in refs && Consistent(held', dirs, refs', open) && IsFile(held', dirs, id)
            && Content(held', refs', id) == []
            && (forall x :: x in refs && refs[x].first !in dirs ==>
                  x in refs' && Content(held', refs', x) == Content(held, refs, x))
  {
    hide Find, Count, VacantFrom, SlotAt, Consistent, ShortName, Roomy, PutSlot, MakeSlot, FirstOf, SizeOf, ZeroTail;
    var nm := ShortName(path);
    var s := MakeSlot(nm, ATTR_ARCHIVE, c);
    assert Live(s) && !IsDir(s) by { NameNonzero(path); assert NameOf(s)[0] == s[0]; }
    NewKeeps(held, dirs, refs, open, c, held'[c]);
    var held1 := held[c := held'[c]];
    ConsistentDirs(held, dirs, refs, open);
    CreateKeeps(held1, dirs, refs, open, d, w, s);
    CreateFinds(held[d], w, s, nm);
    var id := SlotId(d, VacantFrom(Roomy(held[d], w), 0));
    assert held'[d] == PutSlot(Roomy(held[d], w), id.k, s);
    PutEntry(held1[d := Roomy(held[d], w)], dirs, d, id.k, s, held', id);
    EmptyContent(held', refs[id := Ref(c, 0)], id);
  }

  lemma FindAtLeast(held: Held, d: int, nm: Name11)
    ensures Lookup(held, d, nm) >= -1
  {
    if d in held { FindFromAtLeast(held[d], nm, 0); }
  }

  lemma {:induction false} FindFromAtLeast(b: seq<byte>, nm: Name11, k: nat)
    ensures FindFrom(b, nm, k) >= -1
    decreases Count(b) - k
  {
    if k < Count(b) { FindFromAtLeast(b, nm, k + 1); }
  }

  lemma NameNonzero(path: CString)
    ensures ShortName(path)[0] != 0
  {
  }

  lemma LocatedGrows(s: Chain, t: Chain, w: nat, k: int, cluster: int, offset: int)
    requires Located(s, w, k, cluster, offset) && s <= t
    ensures Located(t, w, k, cluster, offset)
  {
  }

  lemma EmptyContent(held: Held, refs: Refs, id: SlotId)
    requires id in refs && refs[id].size == 0
    ensures Content(held, refs, id) == []
  {
  }

  lemma VolShape(vol: Vol)
    requires Sound(vol)
    ensures vol.Valid() && |vol.fat| == |vol.data| == vol.geo.totalClusters + 2 && Small(vol.fat)
    ensures Sized(vol.data, vol.geo.Bpc()) && 32 <= vol.geo.Bpc() && vol.geo.Bpc() % 32 == 0
  {
    hide Volume.Refines;
  }

  lemma EnteredObjects(vol: Vol, data0: seq<seq<byte>>, own0: map<int, Chain>, d: int, c: int, slot: Slot)
    requires Sound(vol) && d in own0 && c !in own0 && 2 <= c < |data0| && |data0[c]| == vol.geo.Bpc()
    requires d in vol.own && vol.own == own0[c := [c]][d := vol.own[d]]
    requires Entered(data0, own0[d], vol.data, vol.own[d], vol.geo.Bpc(), slot)
    ensures Entering(Objects(data0, own0), Objects(vol.data, vol.own), d, c, vol.geo.Bpc(), slot)
  {
    hide Volume.Refines, Body, Volume.Geometry.Bpc, PutSlot, Count, VacantFrom, Sound, InData, SameOutside, Roomy;
    var own1 := own0[c := [c]];
    ObjectsNew(data0, own0, c);
    ObjectsGrown(data0, own1, vol, d);
    var held, held' := Objects(data0, own0), Objects(vol.data, vol.own);
    assert held[d] == Body(data0, own0[d]);
    assert held' == held[c := data0[c]][d := Body(vol.data, vol.own[d])];
    assert c != d && held'[c] == data0[c];
  }

  /** Too few free clusters for a new entry in `d`: one for the entry, one more if `d` must grow. */
  ghost predicate NoRoom(fat: seq<int>, data: seq<seq<byte>>, own: map<int, Chain>, d: int) {
    FreeCount(fat) < (if Full(data, OwnAt(own, d)) then 2 else 1)
  }

  /** How many clusters are free. */
  ghost function FreeCount(fat: seq<int>): nat { |FreeSet(fat)| }

  lemma FreeCountZero(fat: seq<int>)
    ensures FreeCount(fat) == 0 <==> FreeSet(fat) == {}
  {
  }

  lemma FreeCountStep(fat: seq<int>, c: int)
    requires IsFree(fat, c)
    ensures FreeCount(fat) == FreeCount(fat[c := EOC_MAX]) + 1
  {
    assert FreeSet(fat[c := EOC_MAX]) == FreeSet(fat) - {c} && c in FreeSet(fat);
  }

  lemma FreeNew(fat: seq<int>, c: int)
    requires IsFree(fat, c) && Small(fat)
    ensures FreeFrom(fat[c := EOC_MAX], c) == fat
  {
  }

  /** A new one-cluster object `c` and a new slot for it in directory `d`; nothing else changed. */
  ghost predicate Entering(held: Held, held': Held, d: int, c: int, w: nat, slot: Slot) {
    && d in held && c in held' && c !in held && |held'[c]| == w
    && var b := Roomy(held[d], w);
       VacantFrom(b, 0) < Count(b) && held' == held[c := held'[c]][d := PutSlot(b, VacantFrom(b, 0), slot)]
  }

  /** `slot` is the live slot `id`. */
  ghost predicate IsSlot(held: Held, dirs: set<int>, id: SlotId, slot: Slot) {
    IsEntry(held, dirs, id) && slot == SlotOf(held, dirs, id)
  }

  /** `id` is a live slot that names no directory. */
  ghost predicate IsFile(held: Held, dirs: set<int>, id: SlotId) {
    IsEntry(held, dirs, id) && !IsDir(SlotOf(held, dirs, id))
  }

  /** The chain of `id` is gone and its slot is marked deleted; nothing else changed. */
  ghost predicate Erased(held: Held, held': Held, id: SlotId, refs: Refs) {
    && id in refs && id.dir in held && 0 <= id.k < Count(held[id.dir])
    && var s := SlotAt(held[id.dir], id.k)[0 := 0xE5];
       held' == (held - {refs[id].first})[id.dir := PutSlot(held[id.dir], id.k, s)]
  }

  /** A slot that is spoken for names a file, and its chain is no directory. */
  lemma OpenIsFile(fs: Fs, id: SlotId)
    requires fs.Inv() && id in fs.open
    ensures id in fs.refs && IsFile(fs.Held(), fs.dirs, id) && fs.refs[id].first !in fs.dirs
  {
    hide Volume.Refines, Body, Sound, SlotAt;
    assert RefOk(fs.Held(), fs.dirs, SlotOf(fs.Held(), fs.dirs, id), fs.refs[id]);
  }

  /** A lookup that succeeds leads to an entry, and an unopened entry is what the disk says. */
  lemma FoundIsLive(fs: Fs, nm: Name11, k: int)
    requires fs.Inv() && fs.curDir in fs.Held()
    requires 0 <= k == Find(fs.Held()[fs.curDir], nm) < Count(fs.Held()[fs.curDir])
    ensures Live(SlotAt(fs.Held()[fs.curDir], k))
  {
    hide Sound, SlotAt, Count, Find, Fs.Held, ZeroTail, Live;
    FindIsFirst(fs.Held()[fs.curDir], nm, k);
  }

  lemma FoundEntry(fs: Fs, id: SlotId, slot: Slot)
    requires fs.Inv() && id.dir in fs.dirs && id.dir in fs.Held() && 0 <= id.k < Count(fs.Held()[id.dir])
    requires slot == SlotAt(fs.Held()[id.dir], id.k) && Live(slot)
    ensures id in fs.refs && IsEntry(fs.Held(), fs.dirs, id) && SlotOf(fs.Held(), fs.dirs, id) == slot
    ensures RefOk(fs.Held(), fs.dirs, slot, fs.refs[id])
    ensures id !in fs.open ==> fs.refs[id] == Ref(FirstOf(slot), SizeOf(slot))
  {
    hide Volume.Refines, Body, Sound;
    assert IsEntry(fs.Held(), fs.dirs, id);
  }

  lemma UnlinkSame(held: Held, dirs: set<int>, refs: Refs, open: set<SlotId>, id: SlotId, s: Slot)
    requires Consistent(held, dirs, refs, open) && id in refs && id !in open && !IsDir(SlotOf(held, dirs, id))
    ensures forall x :: x in refs - {id} && refs[x].first !in dirs ==>
              Content((held - {refs[id].first})[id.dir := PutSlot(held[id.dir], id.k, s)], refs - {id},
                      x) == Content(held, refs, x)
  {
  }

  lemma LocatedSlot(vol: Vol, d: int, k: nat, cluster: int, offset: nat)
    requires Sound(vol) && d in vol.own && Located(vol.own[d], vol.geo.Bpc(), k, cluster, offset)
    requires offset + 32 <= vol.geo.Bpc()
    ensures vol.Valid() && d in Objects(vol.data, vol.own) && k < Count(Objects(vol.data, vol.own)[d])
    ensures vol.geo.InRange(cluster) && |vol.data[cluster]| == vol.geo.Bpc()
    ensures SlotAt(Objects(vol.data, vol.own)[d], k) == vol.data[cluster][offset..offset + 32]
  {
    hide Volume.Refines, Owned, Body, Located, PutSlot, Volume.Geometry.Bpc, SameOutside;
    ObjectsAre(vol);
    PutLocated(vol, d, k, cluster, offset, Zeros(32));
  }

  /** Stores a slot at its place in cluster `cluster`, whose bytes are in `buf`. */
  method RewriteSlot(vol: Vol, ghost d: int, ghost k: nat, cluster: u32, offset: nat, buf: seq<byte>, slot: Slot)
    requires Sound(vol) && d in vol.own && Located(vol.own[d], vol.geo.Bpc(), k, cluster, offset)
    requires offset + 32 <= vol.geo.Bpc()
    requires vol.geo.InRange(cluster) && vol.Valid() && buf == vol.data[cluster]
    modifies vol`disk, vol`data
    ensures Sound(vol)
    ensures d in old(Objects(vol.data, vol.own)) && k < Count(old(Objects(vol.data, vol.own))[d])
    ensures var held0 := old(Objects(vol.data, vol.own));
            Objects(vol.data, vol.own) == held0[d := PutSlot(held0[d], k, slot)]
  {
    hide Volume.Refines, Owned, Body, Located, PutSlot, Volume.Geometry.Bpc, SameOutside, Objects;
    ObjectsAre(vol);
    ghost var data0 := vol.data;
    PutLocated(vol, d, k, cluster, offset, slot);
    var _ := vol.WriteCluster(cluster, Splice(buf, offset, slot));
    assert vol.own == vol.own[d := vol.own[d]];
    ObjectsGrown(data0, vol.own, vol, d);
  }

  lemma SameRefl(held: Held, refs: Refs, dirs: set<int>)
    ensures SameFiles(held, held, refs, dirs) && SameLookups(held, held, dirs)
  {
  }

  lemma CloseSame(held: Held, dirs: set<int>, refs: Refs, open: set<SlotId>, id: SlotId, s: Slot)
    requires Consistent(held, dirs, refs, open) && id in open
    requires 0 <= refs[id].first < TWO32 && 0 <= refs[id].size < TWO32
    requires s == SetRef(SlotOf(held, dirs, id), refs[id].first, refs[id].size)
    ensures SameFiles(held, held[id.dir := PutSlot(held[id.dir], id.k, s)], refs, dirs)
    ensures SameLookups(held, held[id.dir := PutSlot(held[id.dir], id.k, s)], dirs)
    ensures IsFile(held[id.dir := PutSlot(held[id.dir], id.k, s)], dirs, id)
  {
    hide Slots.SlotAt, Slots.ZeroTail, Slots.PutSlot, Slots.SetRef, Slots.Live, Slots.Find, Slots.Count;
    var held' := held[id.dir := PutSlot(held[id.dir], id.k, s)];
    SetRefLive(SlotOf(held, dirs, id), refs[id].first, refs[id].size);
    SetRefIsDir(SlotOf(held, dirs, id), refs[id].first, refs[id].size);
    PutEntry(held, dirs, id.dir, id.k, s, held', id);
    forall d, nm: Name11 | d in dirs ensures Lookup(held', d, nm) == Lookup(held, d, nm) {
      if d == id.dir { FindAfterSetRef(held[d], id.k, refs[id].first, refs[id].size, nm); }
    }
  }

  /** Slot `id` now records `first` and `size`; nothing else changed. */
  ghost predicate Recorded(held: Held, held': Held, id: SlotId, first: u32, size: u32) {
    && id.dir in held && 0 <= id.k < Count(held[id.dir])
    && held' == held[id.dir := PutSlot(held[id.dir], id.k, SetRef(SlotAt(held[id.dir], id.k), first, size))]
  }

  ghost predicate SameLookups(held: Held, held': Held, dirs: set<int>) {
    forall d, nm: Name11 :: d in dirs ==> Lookup(held', d, nm) == Lookup(held, d, nm)
  }

  /** The directories have the bytes they had. */
  ghost predicate SameDirs(held: Held, held': Held, dirs: set<int>) {
    forall d :: d in dirs ==> d in held && d in held' && held'[d] == held[d]
  }

  /** The directories with a vacant slot are the same. */
  ghost predicate SameVacancies(held: Held, held': Held, dirs: set<int>) {
    forall d :: d in dirs ==> d in held && d in held' && (HasVacancy(held'[d]) <==> HasVacancy(held[d]))
  }

  /** Every file, as opposed to directory, has the contents it had. */
  ghost predicate SameFiles(held: Held, held': Held, refs: Refs, dirs: set<int>) {
    forall x :: x in refs && refs[x].first !in dirs ==> Content(held', refs, x) == Content(held, refs, x)
  }

  ghost function Lookup(held: Held, d: int, nm: Name11): int {
    if d in held then Find(held[d], nm) else -1
  }

  lemma EntryFacts(fs: Fs, id: SlotId)
    requires fs.Inv() && id in fs.refs
    ensures IsEntry(fs.Held(), fs.dirs, id) && RefOk(fs.Held(), fs.dirs, SlotOf(fs.Held(), fs.dirs, id), fs.refs[id])
    ensures fs.Held()[id.dir] == Body(fs.vol.data, fs.vol.own[id.dir])
  {
    hide Volume.Refines, Body;
    ObjectsAre(fs.vol);
  }

  lemma SoundOwned(vol: Vol)
    requires Sound(vol)
    ensures Owned(vol.fat, vol.own, vol.owner)
  {
  }

  lemma DirsHeld(fs: Fs)
    requires fs.Inv()
    ensures fs.Held().Keys == fs.vol.own.Keys
    ensures forall d :: d in fs.dirs ==> d in fs.Held() && d in fs.vol.own
    ensures fs.curDir in fs.vol.own
  {
    hide Volume.Refines, Body;
    ObjectsAre(fs.vol);
  }

  /** What a successful low-level write means for the object store. */
  lemma WroteFacts(vol: Vol, data0: seq<seq<byte>>, fat0: seq<int>, own0: map<int, Chain>, owner0: seq<int>,
                   h0: int, h: int, size0: nat, pos: nat, buf: seq<byte>, r: nat)
    requires Sound(vol) && Owned(fat0, own0, owner0) && (h0 == 0 || (h0 in own0 && h == h0))
    requires Grown(fat0, own0, OwnAt(own0, h0), vol.fat, vol.own, h) && r <= |buf|
    requires InData(data0, OwnAt(own0, h0)) && size0 <= |Body(data0, OwnAt(own0, h0))|
    requires r == 0 ==> vol.data == data0
    requires r > 0 ==> Written(data0, vol.data, vol.own[h], pos, buf, r)
    ensures h != 0 && h in vol.own && InData(vol.data, vol.own[h]) && (h0 == 0 ==> h !in own0)
    ensures Objects(vol.data, vol.own) == Objects(data0, own0)[h := Body(vol.data, vol.own[h])]
    ensures vol.own == own0[h := vol.own[h]]
    ensures Rewrote(Body(data0, OwnAt(own0, h0)), size0, Body(vol.data, vol.own[h]), pos, buf, r)
  {
    hide Volume.Refines, Body, Overwritten;
    ObjectsAre(vol);
    ObjectsGrown(data0, own0, vol, h);
    var s0, s := OwnAt(own0, h0), vol.own[h];
    if h0 == 0 {
      assert IsFree(fat0, s[0]) && s[0] == h;
      forall k | k in own0 ensures k != h { OwnedDisjoint(fat0, own0, owner0, k, k, 0, 0); }
    }
    assert InData(data0, s);
    BodyPrefix(data0, s0, s);
    WrittenContent(Body(data0, s0), Body(data0, s), Body(vol.data, s), size0, pos, buf, r);
  }

  lemma WrittenContent(b0: seq<byte>, b: seq<byte>, b': seq<byte>, size0: nat, pos: nat, buf: seq<byte>, r: nat)
    requires b0 <= b && size0 <= |b0| && r <= |buf|
    requires r == 0 ==> b' == b
    requires r > 0 ==> pos + r <= |b| && b' == Splice(b, pos, buf[..r])
    ensures Rewrote(b0, size0, b', pos, buf, r)
  {
    var size1 := if r > 0 then Max(size0, pos + r) else size0;
    var c0, c1, d := b0[..size0], b'[..size1], buf[..r];
    if r > 0 {
      forall i | 0 <= i < r ensures c1[pos..pos + r][i] == d[i] { assert c1[pos + i] == b'[pos + i] == d[i]; }
      assert c1[pos..pos + r] == d;
    }
    forall i | 0 <= i < |c0| && !(pos <= i < pos + r) ensures c1[i] == c0[i] {
      assert b0[i] == b[i] && c1[i] == b'[i];
    }
  }

  /** The file of `size0` bytes in front of `b0` became the file in front of `b1`. */
  ghost predicate Rewrote(b0: seq<byte>, size0: nat, b1: seq<byte>, pos: nat, buf: seq<byte>, r: nat) {
    var size1 := if r > 0 then Max(size0, pos + r) else size0;
    && r <= |buf| && size0 <= |b0| && size1 <= |b1|
    && Overwritten(b0[..size0], b1[..size1], pos, buf[..r])
  }

  lemma SliceOfPrefix(b: seq<byte>, size: nat, p: nat, n: nat)
    requires p + n <= size <= |b|
    ensures b[..size][p..p + n] == b[p..p + n]
  {
  }
}
