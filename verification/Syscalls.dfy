/** The file system calls: a fixed table of handles over the file system. */
module Syscalls {
  import opened Bytes
  import opened Chains
  import opened Contents
  import opened ClusterOps
  import opened FileIo
  import opened Names
  import opened Slots
  import opened Directory
  import opened Catalog
  import opened ObjectStore
  import opened FileSystem
  import opened Nodes

  const MAX_FILES: nat := 16

  /** `open` is the set of slots of the descriptors in use, each counted once. */
  ghost predicate Spoken(used: seq<bool>, ids: seq<SlotId>, open: set<SlotId>)
    requires |used| == |ids|
  {
    && (forall i, j :: 0 <= i < j < |ids| && used[i] && used[j] ==> ids[i] != ids[j])
    && (forall i :: 0 <= i < |ids| && used[i] ==> ids[i] in open)
    && (forall id :: id in open ==> exists i :: 0 <= i < |ids| && used[i] && ids[i] == id)
  }

  lemma SpokenDistinct(used: seq<bool>, ids: seq<SlotId>, open: set<SlotId>, fd: int)
    requires |used| == |ids| && 0 <= fd < |ids| && used[fd] && Spoken(used, ids, open)
    ensures forall i :: 0 <= i < |ids| && used[i] && i != fd ==> ids[i] != ids[fd]
  {
  }

  lemma SpokenClose(used: seq<bool>, ids: seq<SlotId>, open: set<SlotId>, fd: int)
    requires |used| == |ids| && 0 <= fd < |ids| && used[fd] && Spoken(used, ids, open)
    ensures Spoken(used[fd := false], ids, open - {ids[fd]})
  {
  }

  lemma SpokenOpen(used: seq<bool>, ids: seq<SlotId>, open: set<SlotId>, fd: int, id: SlotId)
    requires |used| == |ids| && 0 <= fd < |ids| && !used[fd] && Spoken(used, ids, open) && id !in open
    ensures Spoken(used[fd := true], ids[fd := id], open + {id})
  {
    var used', ids' := used[fd := true], ids[fd := id];
    forall x | x in open + {id} ensures exists i :: 0 <= i < |ids'| && used'[i] && ids'[i] == x {
      if x in open {
        var i :| 0 <= i < |ids| && used[i] && ids[i] == x;
        assert used'[i] && ids'[i] == x;
      } else {
        assert used'[fd] && ids'[fd] == x;
      }
    }
  }

  class Kernel {
    const fs: Fs
    const fileTable: seq<File>
    var fileUsed: seq<bool>
    /** The slot each open descriptor speaks for. */
    ghost var ids: seq<SlotId>

    constructor (f: Fs, table: seq<File>)
      requires f.Inv() && f.open == {} && |table| == MAX_FILES
      requires forall i, j :: 0 <= i < j < MAX_FILES ==> table[i] != table[j]
      requires forall i :: 0 <= i < MAX_FILES ==> !table[i].isOpen
      ensures fs == f && fileTable == table && Valid()
    {
      fs, fileTable := f, table;
      fileUsed := seq(MAX_FILES, _ => false);
      ids := seq(MAX_FILES, _ => SlotId(0, 0));
    }

    /** Every handle in use speaks for its slot. */
    ghost predicate Speaking(used: seq<bool>)
      reads this, fs, fs.vol, fileTable
    {
      && |fileTable| == |used| == |ids| == MAX_FILES
      && forall i :: 0 <= i < MAX_FILES && used[i] ==> fs.Speaks(fileTable[i], ids[i])
    }

    /** Descriptors in use are exactly the open handles, each handle speaks for its
        own slot, and no slot is spoken for without a descriptor. */
    ghost predicate Handles(used: seq<bool>)
      reads this, fs, fs.vol, fileTable
    {
      && |fileTable| == |used| == |ids| == MAX_FILES
      && (forall i, j :: 0 <= i < j < MAX_FILES ==> fileTable[i] != fileTable[j])
      && (forall i :: 0 <= i < MAX_FILES ==> used[i] == fileTable[i].isOpen)
      && Speaking(used)
      && Spoken(used, ids, fs.open)
    }

    ghost predicate Valid()
      reads this, fs, fs.vol, fileTable
    {
      fs.Inv() && Handles(fileUsed)
    }

    predicate Fd(fd: int)
      reads this
    {
      0 <= fd < MAX_FILES && fd < |fileUsed| && fileUsed[fd]
    }

    method AllocFd() returns (fd: int)
      requires |fileUsed| == MAX_FILES
      modifies this`fileUsed
      ensures fd == -1 <==> forall i :: 0 <= i < 16 ==> old(fileUsed)[i]
      ensures fd == -1 ==> fileUsed == old(fileUsed)
      ensures fd != -1 ==> 0 <= fd < 16 && !old(fileUsed)[fd] && fileUsed == old(fileUsed)[fd := true]
      ensures fd != -1 ==> forall i :: 0 <= i < fd ==> old(fileUsed)[i]
    {
      for i := 0 to MAX_FILES
        invariant fileUsed == old(fileUsed) && forall j :: 0 <= j < i ==> fileUsed[j]
      {
        if !fileUsed[i] {
          fileUsed := fileUsed[i := true];
          return i;
        }
      }
      fd := -1;
    }

    /** The handle behind a descriptor, as a frame. */
    ghost function At(fd: int): set<File> {
      if 0 <= fd < |fileTable| then {fileTable[fd]} else {}
    }

    method Close(fd: int) returns (r: int)
      requires Valid()
      modifies this`fileUsed, fs`open, fs.vol`disk, fs.vol`data, At(fd)
      ensures Valid()
      ensures r == if old(Fd(fd)) then 0 else -1
      ensures r == -1 ==> fileUsed == old(fileUsed) && fs.open == old(fs.open) && fs.vol.data == old(fs.vol.data)
      ensures r == 0 ==> fileUsed == old(fileUsed)[fd := false] && fs.open == old(fs.open) - {ids[fd]}
      ensures r == 0 ==> IsFile(fs.Held(), fs.dirs, ids[fd])
      ensures SameFiles(old(fs.Held()), fs.Held(), fs.refs, fs.dirs) && SameNodes(old(fs.View()), fs.View())
      ensures SameLookups(old(fs.Held()), fs.Held(), fs.dirs) && LeadsKept(old(fs.Held()), fs.Held(), fs.dirs)
      ensures SameVacancies(old(fs.Held()), fs.Held(), fs.dirs)
    {
      hide HasVacancy;
      hide Fs.Inv, Fs.Held, SameFiles, SameLookups, Located, Spoken, IsFile, Volume.Geometry.Bpc, Recorded, LeadsKept;
      hide NodeAt, Consistent;
      if fd < 0 || fd >= MAX_FILES || !fileUsed[fd] {
        SameRefl(fs.Held(), fs.refs, fs.dirs);
        SameDirsLead(fs.Held(), fs.Held(), fs.dirs);
        InvConsistent(fs);
        return -1;
      }
      ghost var v0, held0 := fs.View(), fs.Held();
      OpenIsFile(fs, ids[fd]);
      InvConsistent(fs);
      SpokenDistinct(fileUsed, ids, fs.open, fd);
      r := fs.Close(fileTable[fd], ids[fd]);
      RecordedNodes(v0, fs.View(), ids[fd], fileTable[fd].first, fileTable[fd].size);
      RecordedVacancies(v0, fs.Held(), ids[fd], fileTable[fd].first, fileTable[fd].size);
      SpokenClose(fileUsed, ids, old(fs.open), fd);
      fileUsed := fileUsed[fd := false];
    }

    method Read(fd: int, size: u32) returns (r: int, out: seq<byte>)
      requires Valid()
      modifies At(fd)
      ensures Valid()
      ensures r == -1 <==> !Fd(fd)
      ensures Fd(fd) ==> 0 <= r == |out|
      ensures Fd(fd) ==>
                Delivered(ChainBytes(fs.Held(), fileTable[fd].first), fileTable[fd].size, old(fileTable[fd].position),
                          size, out)
      ensures Fd(fd) && old(fileTable[fd].position) as int + size < TWO32 ==>
                out == Slice(fs.ContentOf(ids[fd]), old(fileTable[fd].position), size)
      ensures Fd(fd) ==> fileTable[fd].position == Wrap32(old(fileTable[fd].position) + r)
    {
      hide Fs.Inv, Fs.Held, Fs.ContentOf, Located, Slice, Wrap32, Delivered;
      if fd < 0 || fd >= MAX_FILES || !fileUsed[fd] { return -1, []; }
      r, out := fs.Read(fileTable[fd], size, ids[fd]);
    }

    method Write(fd: int, buf: seq<byte>) returns (r: int)
      requires Valid() && (Fd(fd) ==> fileTable[fd].position as int + |buf| < TWO32)
      modifies fs`refs, fs.vol`disk, fs.vol`fat, fs.vol`nextFree, fs.vol`own, fs.vol`owner, fs.vol`data, At(fd)
      ensures Valid()
      ensures -1 <= r <= |buf|
      ensures r == -1 <==> !Fd(fd) || (old(fileTable[fd].first) == 0 && FreeSet(old(fs.vol.fat)) == {})
      ensures r == -1 ==> fs.Held() == old(fs.Held()) && fs.refs == old(fs.refs) && fs.vol.fat == old(fs.vol.fat)
      ensures r >= 0 ==>
                Overwritten(old(fs.ContentOf(ids[fd])), fs.ContentOf(ids[fd]), old(fileTable[fd].position), buf[..r])
      ensures r >= 0 ==> fileTable[fd].position == old(fileTable[fd].position) + r
      ensures 0 <= r < |buf| ==> FreeSet(fs.vol.fat) == {}
      ensures 0 <= r < |buf| ==>
                UsedUp(OwnAt(fs.vol.own, FirstAt(fs.refs, ids[fd])), fs.vol.geo.Bpc(), old(fileTable[fd].position) + r)
      ensures r >= 0 ==> 0 < fs.vol.geo.Bpc()
      ensures r >= 0 ==>
                Stretched(OwnAt(old(fs.vol.own), FirstAt(old(fs.refs), ids[fd])),
                          OwnAt(fs.vol.own, FirstAt(fs.refs, ids[fd])), old(fileTable[fd].position), |buf|,
                          fs.vol.geo.Bpc(), FreeSet(fs.vol.fat) == {} && (r < |buf| || |buf| == 0))
      ensures forall x :: x in old(fs.refs) && (!Fd(fd) || x != ids[fd]) ==>
                x in fs.refs && fs.refs[x] == old(fs.refs)[x] && fs.ContentOf(x) == old(fs.ContentOf(x))
      ensures r >= 0 ==> Rewritten(old(fs.View()), fs.View(), ids[fd])
      ensures fs.refs.Keys == old(fs.refs).Keys && NoNewNames(old(fs.View()), fs.View())
      ensures r < 0 ==> fs.vol.own == old(fs.vol.own)
      ensures r >= 0 ==> SameChainsBut(old(fs.vol.own), fs.vol.own, FirstAt(fs.refs, ids[fd]))
      ensures r >= 0 && FirstAt(old(fs.refs), ids[fd]) == 0 ==> FirstAt(fs.refs, ids[fd]) !in old(fs.vol.own)
      ensures r >= 0 && FirstAt(old(fs.refs), ids[fd]) != 0 ==>
                FirstAt(fs.refs, ids[fd]) == FirstAt(old(fs.refs), ids[fd])
      ensures SameLookups(old(fs.Held()), fs.Held(), fs.dirs) && LeadsKept(old(fs.Held()), fs.Held(), fs.dirs)
      ensures SameDirs(old(fs.Held()), fs.Held(), fs.dirs)
    {
      hide Fs.Inv, Fs.Held, Content, Located, Overwritten, FreeSet, SameLookups, Volume.Geometry.Bpc, Spoken;
      hide UsedUp, LeadsKept, Rewritten, Consistent, IsFile, Stretched;
      if fd < 0 || fd >= MAX_FILES || !fileUsed[fd] {
        SameRefl(fs.Held(), fs.refs, fs.dirs);
        SameDirsLead(fs.Held(), fs.Held(), fs.dirs);
        InvConsistent(fs);
        return -1;
      }
      ghost var own0, v0, held0, id := fs.vol.own, fs.View(), fs.Held(), ids[fd];
      OpenFacts(fs);
      OpenIsFile(fs, id);
      InvConsistent(fs);
      SpokenDistinct(fileUsed, ids, fs.open, fd);
      r := fs.Write(fileTable[fd], buf, id);
      SameDirsLookups(held0, fs.Held(), fs.dirs);
      SameDirsLead(held0, fs.Held(), fs.dirs);
      forall x | x in v0.refs && x != id ensures Content(fs.Held(), fs.refs, x) == Content(held0, v0.refs, x) {
        assert x in fs.refs && fs.ContentOf(x) == old(fs.ContentOf(x));
      }
      WrittenNodes(v0, fs.View(), id);
      forall i | 0 <= i < MAX_FILES && fileUsed[i] ensures fs.Speaks(fileTable[i], ids[i]) {
        if i != fd { KeepsSpeaking(fs, fileTable[i], ids[i], own0, fs.dirs); }
      }
    }

    /** What open and unlink may be applied to: a name that leads nowhere, or to a
        file no descriptor speaks for. */
    ghost predicate Admissible(path: CString)
      reads this, fs, fs.vol
    {
      fs.Target(path).k >= 0 ==> fs.Target(path) !in fs.open && IsFile(fs.Held(), fs.dirs, fs.Target(path))
    }

    method Open(path: CString, flags: byte) returns (r: int)
      requires Valid() && Admissible(path)
      requires fs.Target(path).k < 0 && flags / 4 % 2 == 1 ==> ShortName(path)[0] != 0xE5
      modifies this`fileUsed, this`ids, fs`refs, fs`open, fileTable
      modifies fs.vol`disk, fs.vol`fat, fs.vol`nextFree, fs.vol`own, fs.vol`owner, fs.vol`data
      ensures Valid()
      ensures -1 <= r < 16
      ensures r == -1 <==> (AllTrue(old(fileUsed)) || old(Fails(path, flags)))
      ensures r == -1 ==> fileUsed == old(fileUsed) && fs.View() == old(fs.View()) && fs.vol.fat == old(fs.vol.fat)
      ensures r >= 0 ==> !old(Fd(r)) && fileUsed == old(fileUsed)[r := true] && ids == old(ids)[r := fs.Target(path)]
      ensures r >= 0 ==> fs.Target(path).k >= 0 && (fs.Target(path) in old(fs.refs) <==> old(fs.Target(path)).k >= 0)
      ensures r >= 0 && old(fs.Target(path)).k >= 0 ==> fs.Target(path) == old(fs.Target(path))
      ensures r >= 0 ==>
                Opened(old(fs.View()), fs.View(), fs.Target(path), ShortName(path), flags / 8 % 2 == 1,
                       fs.vol.geo.Bpc())
      ensures r >= 0 ==>
                ChainsOpened(old(fs.vol.own), fs.vol.own, old(fs.refs), fs.refs, fs.Target(path), flags / 8 % 2 == 1)
      ensures r >= 0 ==> fileTable[r].size == |fs.ContentOf(fs.Target(path))|
      ensures r >= 0 ==> fileTable[r].position == if flags / 16 % 2 == 1 then fileTable[r].size else 0
      ensures forall i :: 0 <= i < 16 && old(Fd(i)) ==> unchanged(fileTable[i])
      ensures r >= 0 ==>
                Becomes(old(fs.View()), fs.View(), fs.curDir, ShortName(path),
                        Document(if old(fs.Target(path)).k >= 0 && flags / 8 % 2 == 0
                                 then old(fs.ContentOf(fs.Target(path))) else []))
      ensures r >= 0 ==> OnlyFile(old(fs.View()), fs.View(), fs.Target(path), ShortName(path))
      ensures LeadsKept(old(fs.Held()), fs.Held(), fs.dirs) && NoNewNames(old(fs.View()), fs.View())
    {
      hide LeadsKept, Fs.Inv, Fs.Held, Fs.Speaks, Located, NoRoom, ShortName, Lookup, Volume.Geometry.Bpc, Spoken;
      hide Opened, ChainsOpened, IsFile, Consistent, Becomes, OnlyFile, Content;
      SameDirsLead(fs.Held(), fs.Held(), fs.dirs);
      OpenLeads(fs, path);
      ghost var v0 := fs.View();
      var fd := AllocFd();
      if fd < 0 { return -1; }
      assert fileUsed[fd := false] == old(fileUsed);
      var st := Bind(fd, fileTable[fd], path, flags, old(fileUsed));
      if st != 0 {
        fileUsed := fileUsed[fd := false];
        return -1;
      }
      OpenedDirs(v0, fs.View(), fs.Target(path), ShortName(path), flags / 8 % 2 == 1, fs.vol.geo.Bpc());
      OpenedNodes(v0, fs.View(), fs.Target(path), ShortName(path), flags / 8 % 2 == 1, fs.vol.geo.Bpc());
      r := fd;
    }

    /** Opens into descriptor `fd`, which is reserved but not yet open. */
    method Bind(fd: int, file: File, path: CString, flags: byte, ghost used: seq<bool>) returns (st: int)
      requires Reserves(used, fileUsed, fd) && file in At(fd)
      requires fs.Inv() && Handles(used) && Admissible(path)
      requires fs.Target(path).k < 0 && flags / 4 % 2 == 1 ==> ShortName(path)[0] != 0xE5
      modifies this`ids, fs`refs, fs`open, file
      modifies fs.vol`disk, fs.vol`fat, fs.vol`nextFree, fs.vol`own, fs.vol`owner, fs.vol`data
      ensures fs.Inv() && Handles(if st == 0 then fileUsed else used)
      ensures st != 0 <==> old(Fails(path, flags))
      ensures st != 0 ==> fs.View() == old(fs.View()) && fs.vol.fat == old(fs.vol.fat) && ids == old(ids)
      ensures st == 0 ==>
                Bound(old(fs.View()), fs.View(), old(fs.vol.own), fs.vol.own, old(ids), ids, fd, old(fs.Target(path)),
                      fs.Target(path), ShortName(path), flags / 8 % 2 == 1, fs.vol.geo.Bpc())
      ensures st == 0 ==> file.size == |fs.ContentOf(fs.Target(path))|
      ensures st == 0 ==> file.position == if flags / 16 % 2 == 1 then file.size else 0
    {
      hide Fs.Inv, Fs.Held, Fs.Speaks, NoRoom, ShortName, Lookup, Volume.Geometry.Bpc, Spoken, Opened;
      hide ChainsOpened, Fails, Admissible;
      ghost var id;
      st, id := OpenInto(fd, file, path, flags, used);
      if st == 0 {
        SpokenOpen(used, ids, old(fs.open), fd, id);
        ids := ids[fd := id];
      }
    }

    /** The open itself: the handle speaks for the slot, and every other handle still speaks for its own. */
    method OpenInto(fd: int, file: File, path: CString, flags: byte, ghost used: seq<bool>)
      returns (st: int, ghost id: SlotId)
      requires Handles(used) && !Uses(used, fd) && fs.Inv() && Admissible(path) && file in At(fd)
      requires fs.Target(path).k < 0 && flags / 4 % 2 == 1 ==> ShortName(path)[0] != 0xE5
      modifies fs`refs, fs`open, file
      modifies fs.vol`disk, fs.vol`fat, fs.vol`nextFree, fs.vol`own, fs.vol`owner, fs.vol`data
      ensures fs.Inv() && (st != 0 <==> old(Fails(path, flags)))
      ensures Speaking(used)
      ensures st != 0 ==> !file.isOpen && fs.View() == old(fs.View()) && fs.vol.fat == old(fs.vol.fat)
      ensures st == 0 ==> file.isOpen && fs.Speaks(file, id) && id == fs.Target(path) && id !in old(fs.open)
      ensures st == 0 ==> fs.open == old(fs.open) + {id}
      ensures st == 0 ==>
                Reached(old(fs.View()), fs.View(), old(fs.vol.own), fs.vol.own, old(fs.Target(path)), id,
                        ShortName(path), flags / 8 % 2 == 1, fs.vol.geo.Bpc())
      ensures st == 0 ==> file.size == |fs.ContentOf(id)|
      ensures st == 0 ==> file.position == if flags / 16 % 2 == 1 then file.size else 0
    {
      hide Fs.Inv, Fs.Held, Located, NoRoom, ShortName, Lookup, Volume.Geometry.Bpc, Spoken, Opened, ChainsOpened;
      OpenFacts(fs);
      SpokenMember(used, ids, fs.open);
      st, id := fs.Open(file, path, flags);
      if st == 0 {
        OpenedOthers(old(fs.View()), fs.View(), id, ShortName(path), flags / 8 % 2 == 1, fs.vol.geo.Bpc());
      }
      forall i | 0 <= i < MAX_FILES && used[i] ensures fs.Speaks(fileTable[i], ids[i]) {
        KeepsSpeaking(fs, fileTable[i], ids[i], old(fs.vol.own), old(fs.dirs));
      }
    }

    /** Why an open fails with descriptors to spare. */
    ghost predicate Fails(path: CString, flags: byte)
      reads this, fs, fs.vol
    {
      fs.Target(path).k < 0 && (flags / 4 % 2 == 0 || NoRoom(fs.vol.fat, fs.vol.data, fs.vol.own, fs.curDir))
    }

    method Unlink(path: CString) returns (r: int)
      requires Valid() && Admissible(path)
      modifies fs`refs, fs.vol`disk, fs.vol`fat, fs.vol`own, fs.vol`owner, fs.vol`data
      ensures Valid()
      ensures r == if old(fs.Target(path)).k >= 0 then 0 else -1
      ensures r == -1 ==> fs.View() == old(fs.View()) && fs.vol.fat == old(fs.vol.fat)
      ensures r == 0 ==> fs.refs == old(fs.refs) - {old(fs.Target(path))}
      ensures r == 0 ==> Erased(old(fs.Held()), fs.Held(), old(fs.Target(path)), old(fs.refs))
      ensures r == 0 ==> fs.vol.own == old(fs.vol.own) - {old(fs.refs)[old(fs.Target(path))].first}
      ensures r == 0 ==> Removed(old(fs.View()), fs.View(), fs.curDir, ShortName(path))
      ensures r == 0 ==> NodeAt(fs.Held(), fs.refs, fs.curDir, ShortName(path)) ==
                         NextNode(old(fs.Held()), old(fs.refs), fs.curDir, ShortName(path))
      ensures r == 0 ==> FilesKept(old(fs.View()), fs.View(), old(fs.Target(path)))
      ensures LeadsKept(old(fs.Held()), fs.Held(), fs.dirs) && NoNewNames(old(fs.View()), fs.View())
    {
      hide Fs.Inv, Fs.Held, Located, ShortName, Lookup, Volume.Geometry.Bpc, Spoken, Erased, LeadsKept, IsFile;
      hide Removed, FilesKept, Consistent, NodeAt, NextNode;
      OpenFacts(fs);
      SpokenMember(fileUsed, ids, fs.open);
      ghost var v0, held0, id := fs.View(), fs.Held(), fs.Target(path);
      InvConsistent(fs);
      r := fs.Unlink(path);
      if r == 0 {
        ErasedNodes(v0, fs.View(), id, ShortName(path));
      } else {
        SameDirsLead(held0, fs.Held(), fs.dirs);
      }
      forall i | 0 <= i < MAX_FILES && fileUsed[i] ensures fs.Speaks(fileTable[i], ids[i]) {
        KeepsSpeaking(fs, fileTable[i], ids[i], old(fs.vol.own), old(fs.dirs));
      }
    }

    method Mkdir(path: CString) returns (r: int)
      requires Valid() && ShortName(path)[0] != 0xE5
      modifies fs`dirs, fs`refs, fs.vol`disk, fs.vol`fat, fs.vol`nextFree, fs.vol`own, fs.vol`owner, fs.vol`data
      ensures Valid()
      ensures r == if NoRoom(old(fs.vol.fat), old(fs.vol.data), old(fs.vol.own), fs.curDir) then -1 else 0
      ensures r == -1 ==> fs.View() == old(fs.View()) && fs.vol.fat == old(fs.vol.fat)
      ensures r == 0 ==> MadeDir(old(fs.View()), fs.View(), fs.curDir, ShortName(path), fs.vol.geo.Bpc())
      ensures r == 0 && old(fs.Target(path)).k < 0 ==> fs.Target(path) in fs.refs && fs.Target(path) !in old(fs.refs)
      ensures r == 0 ==> GainsFolder(old(fs.View()), fs.View(), fs.curDir, ShortName(path), fs.vol.geo.Bpc())
      ensures LeadsKept(old(fs.Held()), fs.Held(), old(fs.dirs)) <==>
                r == -1 || !Hides(old(fs.Held()), fs.curDir, ShortName(path), fs.vol.geo.Bpc())
      ensures LeadsKept(old(fs.Held()), fs.Held(), old(fs.dirs) - {fs.curDir as int})
      ensures old(fs.dirs) <= fs.dirs && NoNewNames(old(fs.View()), fs.View())
      ensures forall x :: x in old(fs.refs) && old(fs.refs)[x].first !in old(fs.dirs) ==>
                x in fs.refs && fs.refs[x] == old(fs.refs)[x] && fs.ContentOf(x) == old(fs.ContentOf(x))
    {
      hide Fs.Inv, Fs.Held, Located, ShortName, Lookup, Volume.Geometry.Bpc, Spoken, NoRoom, Entering, EmptyDir;
      hide LeadsKept, GainsFolder, Hides, Content;
      hide MakeSlot, Live, ZeroTail, DirNamed, Consistent;
      OpenLeads(fs, path);
      OpenFacts(fs);
      SpokenMember(fileUsed, ids, fs.open);
      ghost var id;
      ghost var v0, held0, dirs0 := fs.View(), fs.Held(), fs.dirs;
      r, id := fs.Mkdir(path);
      if r == -1 {
        SameDirsLead(held0, fs.Held(), dirs0);
        SameDirsLead(held0, fs.Held(), dirs0 - {fs.curDir as int});
      } else {
        EnteredFolder(v0, fs.View(), fs.curDir, fs.refs[id].first, fs.vol.geo.Bpc(), ShortName(path));
      }
      forall i | 0 <= i < MAX_FILES && fileUsed[i] ensures fs.Speaks(fileTable[i], ids[i]) {
        KeepsSpeaking(fs, fileTable[i], ids[i], old(fs.vol.own), old(fs.dirs));
      }
    }

    method Seek(fd: int, offset: int, whence: byte) returns (r: int)
      requires Valid() && -0x8000_0000 <= offset < 0x8000_0000
      modifies At(fd)
      ensures Valid()
      ensures r == if Fd(fd) && whence <= 2 then 0 else -1
      ensures r == -1 && Fd(fd) ==> fileTable[fd].position == old(fileTable[fd].position)
      ensures r == 0 ==>
                var base: int := if whence == 0 then 0 else if whence == 1 then old(fileTable[fd].position)
                                 else fileTable[fd].size;
                fileTable[fd].position == Wrap32(base + offset)
    {
      hide Fs.Inv, Fs.Held, Located, Spoken, Wrap32, Volume.Geometry.Bpc;
      if fd < 0 || fd >= MAX_FILES || !fileUsed[fd] { return -1; }
      r := FileIo.Seek(fileTable[fd], offset, whence);
    }
  }

  /** The state after a successful mkdir: one more entry, naming one more, empty, directory. */
  ghost predicate MadeDir(v0: View, v: View, d: int, nm: Name11, w: nat) {
    exists id :: id in v.refs && id !in v0.refs && id.dir == d && MadeDirAt(v0, v, id, nm, w)
  }

  ghost predicate MadeDirAt(v0: View, v: View, id: SlotId, nm: Name11, w: nat)
    requires id in v.refs
  {
    var c := v.refs[id].first;
    && v.open == v0.open && v.refs == v0.refs[id := Ref(c, 0)] && c !in v0.dirs && v.dirs == v0.dirs + {c}
    && 0 < c < TWO32 && EmptyDir(v.held, c)
    && Entering(v0.held, v.held, id.dir, c, w, MakeSlot(nm, 0x10, c))
  }

  /** Descriptor `fd` now speaks for slot `id`, found or made; `id0` is where the name led before. */
  ghost predicate Bound(v0: View, v: View, own0: map<int, Chain>, own: map<int, Chain>, ids0: seq<SlotId>,
                        ids: seq<SlotId>, fd: int, id0: SlotId, id: SlotId, nm: Name11, truncate: bool, w: nat) {
    0 <= fd < |ids0| && ids == ids0[fd := id] && Reached(v0, v, own0, own, id0, id, nm, truncate, w)
  }

  ghost predicate Reached(v0: View, v: View, own0: map<int, Chain>, own: map<int, Chain>, id0: SlotId, id: SlotId,
                          nm: Name11, truncate: bool, w: nat) {
    && id.k >= 0 && (id in v0.refs <==> id0.k >= 0) && (id0.k >= 0 ==> id == id0)
    && Opened(v0, v, id, nm, truncate, w) && ChainsOpened(own0, own, v0.refs, v.refs, id, truncate)
  }

  /** Chain `h` may be new or longer; no other chain differs. */
  ghost predicate SameChainsBut(own0: map<int, Chain>, own: map<int, Chain>, h: int) { own == own0[h := OwnAt(own, h)] }

  /** Descriptor `fd` was unused and is the only one taken. */
  ghost predicate Reserves(used0: seq<bool>, used: seq<bool>, fd: int) {
    0 <= fd < |used0| && !used0[fd] && used == used0[fd := true]
  }

  predicate Uses(used: seq<bool>, fd: int) { 0 <= fd < |used| && used[fd] }

  ghost predicate AllTrue(s: seq<bool>) { forall i :: 0 <= i < |s| ==> s[i] }

  lemma OpenedOthers(v0: View, v: View, id: SlotId, nm: Name11, truncate: bool, w: nat)
    requires Opened(v0, v, id, nm, truncate, w)
    ensures v.open == v0.open + {id} && id !in v0.open && id in v.refs
    ensures forall x :: x in v0.refs && x != id ==> x in v.refs && v.refs[x] == v0.refs[x]
    ensures v.refs.Keys == v0.refs.Keys + {id}
  {
    hide Entering;
  }

  /** What the directories' names need to know before something is entered. */
  lemma OpenLeads(fs: Fs, path: CString)
    requires fs.Inv()
    ensures Consistent(fs.Held(), fs.dirs, fs.refs, fs.open) && fs.curDir in fs.dirs && fs.curDir in fs.Held()
    ensures ZeroTail(fs.Held()[fs.curDir]) && |fs.Held()[fs.curDir]| % 32 == 0
    ensures 32 <= fs.vol.geo.Bpc() && fs.vol.geo.Bpc() % 32 == 0 && ShortName(path)[0] != 0
    ensures fs.Target(path).dir == fs.curDir && fs.Target(path).k >= -1
    ensures fs.Target(path).k < 0 ==> Lookup(fs.Held(), fs.curDir, ShortName(path)) == -1
    ensures forall d :: d in fs.dirs ==> d in fs.Held()
  {
    hide Volume.Refines, Body, ZeroTail, ShortName, Find, SlotAt, Count;
    VolShape(fs.vol);
    DirsHeld(fs);
    NameNonzero(path);
    FindAtLeast(fs.Held(), fs.curDir, ShortName(path));
  }

  lemma OpenedDirs(v0: View, v: View, id: SlotId, nm: Name11, truncate: bool, w: nat)
    requires Opened(v0, v, id, nm, truncate, w)
    ensures v.dirs == v0.dirs
  {
    hide Entering;
  }

  lemma InvConsistent(fs: Fs)
    requires fs.Inv()
    ensures Consistent(fs.Held(), fs.dirs, fs.refs, fs.open) && fs.curDir in fs.dirs
    ensures forall d :: d in fs.dirs ==> d in fs.Held()
  {
    hide Volume.Refines, Body;
    DirsHeld(fs);
  }

  lemma SpokenMember(used: seq<bool>, ids: seq<SlotId>, open: set<SlotId>)
    requires |used| == |ids| && Spoken(used, ids, open)
    ensures forall i :: 0 <= i < |ids| && used[i] ==> ids[i] in open
  {
  }

  lemma OpenFacts(fs: Fs)
    requires fs.Inv()
    ensures forall id :: id in fs.open ==> id in fs.refs && id.dir in fs.dirs && id.dir in fs.vol.own
    ensures forall d :: d in fs.dirs ==> d in fs.vol.own
  {
    hide Volume.Refines, Sound, Objects;
    DirsHeld(fs);
  }

  lemma SameDirsLookups(held: Held, held': Held, dirs: set<int>)
    requires forall d :: d in dirs ==> d in held' && d in held && held'[d] == held[d]
    ensures SameLookups(held, held', dirs)
  {
  }

  /** A handle keeps speaking for its slot while directories only grow. */
  lemma KeepsSpeaking(fs: Fs, file: File, id: SlotId, own0: map<int, Chain>, dirs: set<int>)
    requires DirsExtend(own0, fs.vol.own, dirs) && id.dir in dirs && id.dir in own0
    requires file.isOpen && id in fs.open && id in fs.refs && fs.refs[id] == Ref(file.first, file.size)
    requires Located(own0[id.dir], fs.vol.geo.Bpc(), id.k, file.dirCluster, file.dirOffset)
    requires file.dirOffset + 32 <= fs.vol.geo.Bpc()
    ensures fs.Speaks(file, id)
  {
  }
}
