/** The current directory and the path that leads to it. */
module Paths {
  import opened Bytes
  import opened Volume
  import opened Chains
  import opened Contents
  import opened ClusterOps
  import opened Names
  import opened Slots
  import opened Directory
  import opened Catalog
  import opened ObjectStore
  import opened FileSystem
  import opened Nodes
  import opened Syscalls

  const MAX_PATH_DEPTH: nat := 16
  const MAX_NAME_LEN: nat := 12
  const SLASH: byte := 0x2F
  const DOTS: CString := [0x2E, 0x2E]

  /** The bytes a scan from cluster `c` reads, be it a directory, a file or no cluster at all. */
  ghost function BytesAt(fat: seq<int>, data: seq<seq<byte>>, c: int): seq<byte> {
    if InData(data, TrailFrom(fat, c)) then Body(data, TrailFrom(fat, c)) else []
  }

  /** The cluster that `name` leads to from cluster `c`, or -1. No attribute is looked at. */
  ghost function Step(fat: seq<int>, data: seq<seq<byte>>, c: int, name: CString): int {
    var b := BytesAt(fat, data, c);
    var k := Find(b, ShortName(name));
    if 0 <= k < Count(b) then FirstOf(SlotAt(b, k)) else -1
  }

  /** Following names one after the other from cluster `c`; -1 once one leads nowhere. */
  ghost function Resolve(fat: seq<int>, data: seq<seq<byte>>, c: int, names: seq<CString>): int {
    if |names| == 0 then c
    else Step(fat, data, Resolve(fat, data, c, names[..|names| - 1]), names[|names| - 1])
  }

  /** Following names as long as they lead to directories; -1 once one does not. */
  ghost function ResolveDirs(held: Held, d: int, names: seq<CString>): int {
    if |names| == 0 then d
    else DirNamed(held, ResolveDirs(held, d, names[..|names| - 1]), ShortName(names[|names| - 1]))
  }

  /** What `strncpy(..., MAX_NAME_LEN - 1)` keeps of a name. */
  function Kept(name: CString): (r: CString)
    ensures r <= name && |r| == Min(|name|, 11)
  {
    if |name| < MAX_NAME_LEN then name else CutString(name, MAX_NAME_LEN - 1)
  }

  function CutString(name: CString, n: nat): CString
    requires n <= |name|
  {
    assert forall i :: 0 <= i < n ==> name[..n][i] == name[i];
    name[..n]
  }

  /** What is kept of the name is still a name of the same entry: a test on the string alone. */
  predicate KeepsName(name: CString) { ShortName(Kept(name)) == ShortName(name) }

  /** No slot names the root. */
  ghost predicate Unnamed(refs: Refs, root: int) { forall id :: id in refs ==> refs[id].first != root }

  class Cwd {
    const fs: Fs
    var stack: seq<CString>

    constructor (f: Fs)
      requires f.Inv() && f.vol.root in f.dirs && f.curDir == f.vol.root && f.vol.lost == {}
      requires Unnamed(f.refs, f.vol.root)
      ensures fs == f && stack == [] && Valid() && OnTrack() && Trodden()
    {
      fs, stack := f, [];
    }

    ghost predicate Valid()
      reads this, fs, fs.vol
    {
      && fs.Inv() && fs.vol.root in fs.dirs && |stack| <= MAX_PATH_DEPTH && fs.vol.lost == {}
      && Unnamed(fs.refs, fs.vol.root)
    }

    /** Where the recorded path leads, or -1. */
    ghost function Leads(names: seq<CString>): int
      reads this, fs, fs.vol
    {
      Resolve(fs.vol.fat, fs.vol.data, fs.vol.root, names)
    }

    /** The recorded path leads to the current directory. */
    ghost predicate OnTrack()
      reads this, fs, fs.vol
    {
      Leads(stack) == fs.curDir
    }

    /** It does so through directories only. */
    ghost predicate Trodden()
      reads this, fs, fs.vol
    {
      ResolveDirs(fs.Held(), fs.vol.root, stack) == fs.curDir
    }

    /** `path` is the name of a directory in the current one. */
    ghost predicate Enters(path: CString)
      reads this, fs, fs.vol
    {
      DirNamed(fs.Held(), fs.curDir, ShortName(path)) >= 0
    }

    /** The slot that what is kept of `path` leads to is not one an open file speaks for. */
    ghost predicate KeptNotOpen(path: CString)
      reads this, fs, fs.vol
    {
      fs.Target(Kept(path)) !in fs.open
    }

    /** Goes to the root, up, or into a directory. Up, and only up, may fail after changing the recorded
        path, and may lead out of the known directories. A path that was right stays right exactly when
        nothing is entered, or what is recorded of the name still names it and there was room to record it. */
    method Chdir(path: CString) returns (r: int)
      requires Valid()
      modifies this`stack, fs`curDir
      ensures Moved(fs.Held(), fs.vol.root, path, old(stack), stack, Leads(stack), old(fs.curDir), fs.curDir, r)
      ensures Valid() <==> fs.curDir in fs.dirs
      ensures path != [0x2E, 0x2E] || old(stack) == [] || old(Trodden()) ==> Valid()
      ensures old(Trodden()) ==> (Trodden() <==> StaysRight(path, |old(stack)|, r))
      ensures old(Trodden()) && path == [0x2E, 0x2E] ==> r == 0
      ensures path == [0x2F] ==> OnTrack() && Trodden()
      ensures IsName(path) && r == 0 && |old(stack)| < 16 && old(OnTrack()) && old(KeptNotOpen(path)) ==>
                (OnTrack() <==> KeepsName(path))
      ensures IsName(path) && r == 0 && |old(stack)| == 16 && old(Trodden()) ==> !OnTrack()
    {
      hide Sound, Consistent, Fs.Held, ShortName, FirstOf, Resolve, ResolveDirs, DirNamed, Lookup, Step, BytesAt;
      InvFacts(fs);
      if path == [SLASH] {
        fs.curDir := fs.vol.root;
        stack := [];
        RootResolves(this);
        return 0;
      }
      if path == DOTS {
        if |stack| > 0 { r := Up(); } else { r := 0; }
        return;
      }
      var st, slot := LookUp(fs.curDir, path);
      EntersIff(fs, path, slot);
      if st != 0 { return -1; }
      if slot[11] / 16 % 2 == 0 { return -1; }
      Recording(this, path, stack);
      fs.curDir := FirstOf(slot);
      if |stack| < MAX_PATH_DEPTH {
        stack := stack + [Kept(path)];
      }
      r := 0;
    }

    /** Writes "/" and the names joined by "/" into a buffer of `size` bytes. The test
        before each name asks for one byte more than the path needs. */
    method GetCurrentPath(size: int) returns (r: int, buffer: seq<byte>)
      ensures r == -1 <==> size < |PathText(stack)| + (if |stack| == 0 then 1 else 2)
      ensures r != -1 ==> r == |PathText(stack)| && buffer == PathText(stack) + [0] && |buffer| <= size
    {
      if size <= 0 { return -1, []; }
      if |stack| == 0 {
        if size < 2 { return -1, []; }
        return 1, [SLASH, 0];
      }
      buffer := [];
      if 0 < size - 1 { buffer := [SLASH]; }
      for i := 0 to |stack|
        invariant size == 1 ==> i == 0
        invariant size > 1 ==> buffer == PathText(stack[..i]) + (if 0 < i < |stack| then [SLASH] else [])
        invariant i > 0 ==> |PathText(stack[..i])| + 2 <= size
      {
        assert stack[..i + 1][..i] == stack[..i];
        PathGrows(stack, i);
        if |buffer| + |stack[i]| + 1 > size - 1 {
          PathPrefix(stack, i + 1);
          return -1, buffer + [0];
        }
        buffer := buffer + stack[i];
        if i < |stack| - 1 { buffer := buffer + [SLASH]; }
      }
      assert stack[..|stack|] == stack;
      return |buffer|, buffer + [0];
    }

    /** `fat32_find_entry` from any cluster. */
    method LookUp(c: u32, name: CString) returns (st: int, slot: Slot)
      requires Valid()
      ensures st == 0 <==> Step(fs.vol.fat, fs.vol.data, c, name) >= 0
      ensures st == 0 ==> FoundIn(BytesAt(fs.vol.fat, fs.vol.data, c), name, slot)
      ensures st == 0 ==> FirstOf(slot) == Step(fs.vol.fat, fs.vol.data, c, name)
    {
      hide Volume.Refines, Body, Consistent, Vol.Valid, Located, Volume.Geometry.Bpc, Find, ShortName, FirstOf, Owned;
      hide IsTrail, TrailFrom;
      TrailReady(fs, c);
      var s, e, _, _, k := FindEntry(fs.vol, c, name, TrailFrom(fs.vol.fat, c));
      st, slot := s, e;
    }

    /** The ".." branch: drops the last name and walks the rest from the root, without asking whether
        what it passes are directories. */
    method Up() returns (r: int)
      requires Valid() && |stack| > 0
      modifies this`stack, fs`curDir
      ensures WentUp(old(stack), stack, Leads(stack), old(fs.curDir), fs.curDir, r)
      ensures Valid() <==> fs.curDir in fs.dirs
      ensures old(Trodden()) ==> r == 0 && Trodden() && Valid()
    {
      hide Sound, Consistent, Fs.Held, Lookup, ShortName, FirstOf, Step, BytesAt, FoundIn, DirNamed;
      InvFacts(fs);
      ghost var stack0 := stack;
      UpTrodden(this, stack0);
      stack := stack[..|stack| - 1];
      if |stack| == 0 {
        fs.curDir := fs.vol.root;
        return 0;
      }
      var cluster := fs.vol.root;
      for i := 0 to |stack|
        invariant fs.curDir == old(fs.curDir) && stack == stack0[..|stack0| - 1]
        invariant cluster == Leads(stack[..i])
      {
        assert stack[..i + 1][..i] == stack[..i] && stack[..i + 1][i] == stack[i];
        var st, slot := LookUp(cluster, stack[i]);
        if st != 0 {
          Nowhere(this, stack, i + 1);
          return -1;
        }
        cluster := FirstOf(slot);
      }
      assert stack[..|stack|] == stack;
      fs.curDir := cluster;
      r := 0;
    }
  }

  /** Not one of the two paths that chdir treats apart. */
  predicate IsName(path: CString) { path != [0x2F] && path != [0x2E, 0x2E] }

  /** Whether a right path with `n` names is still right after chdir returned `r`. */
  predicate StaysRight(path: CString, n: nat, r: int) {
    IsName(path) && r == 0 ==> n < 16 && KeepsName(path)
  }

  /** Where chdir leads from directory `d0` and what it records; `up` is where the shortened path leads. */
  ghost predicate Moved(held: Held, root: int, path: CString, stack0: seq<CString>, stack: seq<CString>, up: int,
                        d0: int, d: int, r: int) {
    var to := DirNamed(held, d0, ShortName(path));
    if path == [0x2F] then r == 0 && stack == [] && d == root
    else if path == [0x2E, 0x2E] && |stack0| > 0 then WentUp(stack0, stack, up, d0, d, r)
    else if path == [0x2E, 0x2E] then r == 0 && stack == stack0 && d == d0
    else if to < 0 then r == -1 && stack == stack0 && d == d0
    else r == 0 && d == to && stack == if |stack0| < 16 then stack0 + [Kept(path)] else stack0
  }

  /** `slot` is the slot of `b` that `name` leads to. */
  ghost predicate FoundIn(b: seq<byte>, name: CString, slot: Slot) {
    var k := Find(b, ShortName(name));
    0 <= k < Count(b) && slot == SlotAt(b, k)
  }

  /** Going up drops the last name; it leads to where the rest does, or fails and stays if that is nowhere. */
  ghost predicate WentUp(stack0: seq<CString>, stack: seq<CString>, target: int, d0: int, d: int, r: int) {
    && |stack0| > 0 && stack == stack0[..|stack0| - 1]
    && r == (if target >= 0 then 0 else -1)
    && d == (if target >= 0 then target else d0)
  }

  lemma InvFacts(fs: Fs)
    requires fs.Inv()
    ensures fs.curDir in fs.dirs
    ensures forall d :: d in fs.dirs ==> d >= 2
  {
    hide Volume.Refines, Body;
    DirsHeld(fs);
    ObjectsAre(fs.vol);
  }

  /** Where no cluster is lost, a scan from any cluster ends. */
  lemma TrailReady(fs: Fs, c: int)
    requires fs.Inv() && fs.vol.lost == {}
    ensures fs.vol.Valid() && Small(fs.vol.fat) && IsTrail(fs.vol.fat, TrailFrom(fs.vol.fat, c), c)
  {
    hide Volume.Refines, Consistent, IsTrail, TrailFrom;
    TrailExists(fs.vol.fat, fs.vol.own, fs.vol.owner, c);
  }

  /** A scan from the first cluster of a chain reads the chain. */
  lemma HeadBytes(fs: Fs, h: int)
    requires fs.Inv() && h in fs.vol.own
    ensures h in fs.Held() && BytesAt(fs.vol.fat, fs.vol.data, h) == fs.Held()[h]
  {
    hide Volume.Refines, Body, Consistent, IsTrail, TrailFrom;
    OwnedChain(fs.vol, h);
    ObjectsAre(fs.vol);
    TrailFromIs(fs.vol.fat, fs.vol.own[h], h);
  }

  /** From a known directory, a name that leads to a directory is one that leads somewhere. */
  lemma DirStep(fs: Fs, d: int, name: CString)
    requires fs.Inv() && d in fs.dirs
    ensures var k := Lookup(fs.Held(), d, ShortName(name));
            && d in fs.Held() && BytesAt(fs.vol.fat, fs.vol.data, d) == fs.Held()[d]
            && k == Find(fs.Held()[d], ShortName(name))
            && Step(fs.vol.fat, fs.vol.data, d,
                    name) == if 0 <= k < Count(fs.Held()[d]) then FirstOf(SlotAt(fs.Held()[d], k)) else -1
    ensures DirNamed(fs.Held(), d, ShortName(name)) >= 0 ==>
              && Step(fs.vol.fat, fs.vol.data, d, name) == DirNamed(fs.Held(), d, ShortName(name))
              && DirNamed(fs.Held(), d, ShortName(name)) in fs.dirs
  {
    hide Sound, Consistent, Find, ShortName, FirstOf, IsDir, BytesAt, Fs.Held;
    DirsHeld(fs);
    HeadBytes(fs, d);
    var k := Lookup(fs.Held(), d, ShortName(name));
    if DirNamed(fs.Held(), d, ShortName(name)) >= 0 {
      NamedEntry(fs, d, ShortName(name));
    }
  }

  /** The slot a name leads to in a known directory is in the catalogue. */
  lemma NamedEntry(fs: Fs, d: int, nm: Name11)
    requires fs.Inv() && d in fs.dirs && Lookup(fs.Held(), d, nm) >= 0
    ensures d in fs.Held() && Lookup(fs.Held(), d, nm) < Count(fs.Held()[d])
    ensures var id := SlotId(d, Lookup(fs.Held(), d, nm));
            var slot := SlotAt(fs.Held()[d], id.k);
            && id in fs.refs && NameOf(slot) == nm
            && (id !in fs.open ==> fs.refs[id].first == FirstOf(slot))
            && (IsDir(slot) ==> id !in fs.open && FirstOf(slot) in fs.dirs && FirstOf(slot) != 0)
  {
    hide Sound, SlotAt, FirstOf, IsDir, Fs.Held, Find, SizeOf;
    var held := fs.Held();
    var id := SlotId(d, Lookup(held, d, nm));
    assert ZeroTail(held[d]);
    FindIsFirst(held[d], nm, id.k);
    FoundEntry(fs, id, SlotAt(held[d], id.k));
    OpenNotDir(fs, id);
  }

  lemma OpenNotDir(fs: Fs, id: SlotId)
    requires fs.Inv() && IsEntry(fs.Held(), fs.dirs, id)
    ensures id in fs.open ==> !IsDir(SlotOf(fs.Held(), fs.dirs, id))
  {
  }

  /** Two names of one directory never lead to one directory, and to one cluster only if an open file's
      slot, which need not be up to date, is in play. */
  lemma NamesApart(fs: Fs, d: int, nm: Name11, nm': Name11)
    requires fs.Inv() && d in fs.dirs && nm != nm' && DirNamed(fs.Held(), d, nm) >= 0
    ensures DirNamed(fs.Held(), d, nm') != DirNamed(fs.Held(), d, nm)
    ensures var k := Lookup(fs.Held(), d, nm');
            && d in fs.Held()
            && (0 <= k < Count(fs.Held()[d]) && SlotId(d, k) !in fs.open ==>
                  FirstOf(SlotAt(fs.Held()[d], k)) != DirNamed(fs.Held(), d, nm))
  {
    hide Sound, SlotAt, FirstOf, IsDir, Fs.Held, Lookup;
    NamedEntry(fs, d, nm);
    if Lookup(fs.Held(), d, nm') >= 0 { NamedEntry(fs, d, nm'); }
    assert RefsInjective(fs.refs);
  }

  lemma EntersIff(fs: Fs, path: CString, slot: Slot)
    requires fs.Inv()
    ensures Step(fs.vol.fat, fs.vol.data, fs.curDir, path) < 0 ==> DirNamed(fs.Held(), fs.curDir, ShortName(path)) < 0
    ensures FoundIn(BytesAt(fs.vol.fat, fs.vol.data, fs.curDir), path, slot) ==>
              DirNamed(fs.Held(), fs.curDir, ShortName(path)) == if IsDir(slot) then FirstOf(slot) else -1
    ensures DirNamed(fs.Held(), fs.curDir, ShortName(path)) >= 0 ==>
              DirNamed(fs.Held(), fs.curDir, ShortName(path)) in fs.dirs
  {
    hide Sound, Consistent, Find, ShortName, FirstOf, IsDir, BytesAt, Fs.Held;
    DirStep(fs, fs.curDir, path);
  }

  lemma RootResolves(c: Cwd)
    requires c.stack == []
    ensures c.Leads(c.stack) == c.fs.vol.root && ResolveDirs(c.fs.Held(), c.fs.vol.root, c.stack) == c.fs.vol.root
  {
  }

  /** A name that leads nowhere leads the whole path nowhere. */
  lemma {:induction false} Nowhere(c: Cwd, names: seq<CString>, i: nat)
    requires i <= |names| && c.Leads(names[..i]) < 0
    ensures c.Leads(names) < 0
    decreases |names| - i
  {
    hide Step;
    if i < |names| {
      assert names[..i + 1][..i] == names[..i];
      NoStep(c.fs.vol.fat, c.fs.vol.data, c.Leads(names[..i]), names[i]);
      Nowhere(c, names, i + 1);
    } else {
      assert names[..i] == names;
    }
  }

  lemma NoStep(fat: seq<int>, data: seq<seq<byte>>, c: int, name: CString)
    requires c < 0
    ensures Step(fat, data, c, name) == -1
  {
    hide ShortName;
    TrailFromIs(fat, [], c);
  }

  /** A path through directories resolves as any path does. */
  lemma {:induction false} DirsResolve(fs: Fs, names: seq<CString>)
    requires fs.Inv() && fs.vol.root in fs.dirs && ResolveDirs(fs.Held(), fs.vol.root, names) >= 0
    ensures ResolveDirs(fs.Held(), fs.vol.root, names) in fs.dirs
    ensures Resolve(fs.vol.fat, fs.vol.data, fs.vol.root, names) == ResolveDirs(fs.Held(), fs.vol.root, names)
  {
    hide Fs.Inv, Fs.Held, Lookup, ShortName, FirstOf, Step, BytesAt, DirNamed;
    if |names| > 0 {
      var init := names[..|names| - 1];
      var d := ResolveDirs(fs.Held(), fs.vol.root, init);
      if d < 0 {
        NoDirNamed(fs, d, ShortName(names[|names| - 1]));
      } else {
        DirsResolve(fs, init);
        DirStep(fs, d, names[|names| - 1]);
      }
    }
  }

  lemma NoDirNamed(fs: Fs, d: int, nm: Name11)
    requires fs.Inv() && d < 0
    ensures DirNamed(fs.Held(), d, nm) == -1
  {
    hide Volume.Refines, Body, Consistent, FirstOf, IsDir;
    ObjectsAre(fs.vol);
  }

  lemma UpTrodden(c: Cwd, stack: seq<CString>)
    requires c.Valid() && |stack| > 0
    ensures ResolveDirs(c.fs.Held(), c.fs.vol.root, stack) == c.fs.curDir ==>
              var up := ResolveDirs(c.fs.Held(), c.fs.vol.root, stack[..|stack| - 1]);
              up in c.fs.dirs && c.Leads(stack[..|stack| - 1]) == up && up >= 0
  {
    hide Fs.Inv, Fs.Held, Lookup, ShortName, FirstOf, Step, BytesAt, DirNamed;
    InvFacts(c.fs);
    var up := ResolveDirs(c.fs.Held(), c.fs.vol.root, stack[..|stack| - 1]);
    if up < 0 {
      NoDirNamed(c.fs, up, ShortName(stack[|stack| - 1]));
    } else {
      DirsResolve(c.fs, stack[..|stack| - 1]);
    }
  }

  /** What recording a directory that is entered does to the path. */
  lemma Recording(c: Cwd, path: CString, stack: seq<CString>)
    requires c.Valid() && c.Enters(path)
    ensures var d := DirNamed(c.fs.Held(), c.fs.curDir, ShortName(path));
            && (ResolveDirs(c.fs.Held(), c.fs.vol.root, stack) == c.fs.curDir ==>
                  (ResolveDirs(c.fs.Held(), c.fs.vol.root, stack + [Kept(path)]) == d <==> KeepsName(path)))
            && (c.Leads(stack) == c.fs.curDir && c.KeptNotOpen(path) ==>
                  (c.Leads(stack + [Kept(path)]) == d <==> KeepsName(path)))
            && (ResolveDirs(c.fs.Held(), c.fs.vol.root, stack) == c.fs.curDir ==>
                  d != c.fs.curDir && c.Leads(stack) == c.fs.curDir)
  {
    hide Fs.Inv, Fs.Held, ShortName, FirstOf, Step, BytesAt, DirNamed, Kept;
    InvFacts(c.fs);
    if ResolveDirs(c.fs.Held(), c.fs.vol.root, stack) == c.fs.curDir {
      DirsResolve(c.fs, stack);
      NotInItself(c, path, stack);
    }
    var names := stack + [Kept(path)];
    assert names[..|stack|] == stack;
    DirStep(c.fs, c.fs.curDir, path);
    DirStep(c.fs, c.fs.curDir, Kept(path));
    if !KeepsName(path) { NamesApart(c.fs, c.fs.curDir, ShortName(path), ShortName(Kept(path))); }
  }

  /** Names in known directories lead to known directories. */
  ghost predicate Inside(held: Held, dirs: set<int>) {
    && (forall d :: d in held || d in dirs ==> d >= 0)
    && (forall d, nm: Name11 :: d in dirs && DirNamed(held, d, nm) >= 0 ==> DirNamed(held, d, nm) in dirs)
  }

  /** What makes the directories a tree below `root`, as far as names lead. */
  ghost predicate Rooted(v: View, root: int) {
    Consistent(v.held, v.dirs, v.refs, v.open) && Inside(v.held, v.dirs) && root in v.dirs && Unnamed(v.refs, root)
  }

  lemma CwdRooted(c: Cwd)
    requires c.Valid()
    ensures Rooted(c.fs.View(), c.fs.vol.root)
  {
    hide Fs.Inv, Fs.Held, Lookup, FirstOf, IsDir, Consistent, DirNamed;
    InvFacts(c.fs);
    InvConsistent(c.fs);
    HeldPositive(c.fs);
    forall d, nm: Name11 | d in c.fs.dirs && DirNamed(c.fs.Held(), d, nm) >= 0
      ensures DirNamed(c.fs.Held(), d, nm) in c.fs.dirs
    {
      FolderEntry(c.fs.View(), d, nm);
    }
  }

  lemma HeldPositive(fs: Fs)
    requires fs.Inv()
    ensures forall d :: d in fs.Held() ==> d >= 0
  {
    hide Volume.Refines, Body, Consistent;
    ObjectsAre(fs.vol);
  }

  /** Every beginning of a path through directories is one. */
  lemma {:induction false} PrefixInside(v: View, root: int, names: seq<CString>, i: nat)
    requires Rooted(v, root) && ResolveDirs(v.held, root, names) >= 0 && i <= |names|
    ensures ResolveDirs(v.held, root, names[..i]) in v.dirs && ResolveDirs(v.held, root, names[..i]) >= 0
  {
    hide ShortName, Consistent, Lookup;
    if |names| > 0 {
      var init := names[..|names| - 1];
      PrefixInside(v, root, init, if i < |names| then i else i - 1);
      if i < |names| { assert init[..i] == names[..i]; }
    }
    if i == |names| {
      assert names[..i] == names;
      if i > 0 { assert names[..i - 1][..i - 1] == names[..i - 1]; }
    }
  }

  /** One step of a path through directories. */
  lemma PrefixStep(v: View, root: int, names: seq<CString>, i: nat)
    requires Rooted(v, root) && ResolveDirs(v.held, root, names) >= 0 && 0 < i <= |names|
    ensures var d := ResolveDirs(v.held, root, names[..i - 1]);
            var id := SlotId(d, Lookup(v.held, d, ShortName(names[i - 1])));
            && d in v.dirs && ResolveDirs(v.held, root, names[..i]) == DirNamed(v.held, d, ShortName(names[i - 1])) >= 0
            && id in v.refs && v.refs[id].first == ResolveDirs(v.held, root, names[..i])
  {
    hide ShortName, Consistent, Lookup, DirNamed;
    PrefixInside(v, root, names, i);
    PrefixInside(v, root, names, i - 1);
    assert names[..i][..i - 1] == names[..i - 1];
    FolderEntry(v, ResolveDirs(v.held, root, names[..i - 1]), ShortName(names[i - 1]));
  }

  /** A path through directories never meets a directory twice. */
  lemma {:induction false} NoRevisit(v: View, root: int, names: seq<CString>, i: nat, j: nat)
    requires Rooted(v, root) && ResolveDirs(v.held, root, names) >= 0 && i < j <= |names|
    ensures ResolveDirs(v.held, root, names[..i]) != ResolveDirs(v.held, root, names[..j])
    decreases i
  {
    hide ShortName, Lookup, DirNamed;
    PrefixStep(v, root, names, j);
    if i > 0 {
      PrefixStep(v, root, names, i);
      NoRevisit(v, root, names, i - 1, j - 1);
      assert RefsInjective(v.refs) && 0 !in v.dirs;
    }
  }

  /** No directory on the path holds a name for itself. */
  lemma NotInItself(c: Cwd, path: CString, stack: seq<CString>)
    requires c.Valid() && c.Enters(path) && ResolveDirs(c.fs.Held(), c.fs.vol.root, stack) == c.fs.curDir
    ensures DirNamed(c.fs.Held(), c.fs.curDir, ShortName(path)) != c.fs.curDir
  {
    hide Fs.Inv, Fs.Held, ShortName, DirNamed, Rooted;
    CwdRooted(c);
    var names := stack + [path];
    assert names[..|stack|] == stack && names[..|stack| + 1] == names;
    NoRevisit(c.fs.View(), c.fs.vol.root, names, |stack|, |stack| + 1);
  }

  /** An operation that changes what names lead to in the last directory of a path at most keeps the path. */
  lemma {:induction false} TroddenKept(v: View, held': Held, root: int, names: seq<CString>, i: nat)
    requires Rooted(v, root) && ResolveDirs(v.held, root, names) >= 0 && i <= |names|
    requires LeadsKept(v.held, held', v.dirs - {ResolveDirs(v.held, root, names)})
    ensures ResolveDirs(held', root, names[..i]) == ResolveDirs(v.held, root, names[..i])
  {
    hide ShortName, Rooted, DirNamed;
    if i > 0 {
      TroddenKept(v, held', root, names, i - 1);
      PrefixStep(v, root, names, i);
      NoRevisit(v, root, names, i - 1, |names|);
      assert names[..i][..i - 1] == names[..i - 1] && names[..|names|] == names;
    }
  }

  /** After a system call the path is as right as before, whatever it did to the names in the current directory. */
  lemma CallKeepsPath(c: Cwd, v0: View)
    requires c.fs.Inv() && |c.stack| <= MAX_PATH_DEPTH && c.fs.vol.lost == {} && v0.dirs <= c.fs.dirs
    requires Rooted(v0, c.fs.vol.root) && ResolveDirs(v0.held, c.fs.vol.root, c.stack) == c.fs.curDir
    requires LeadsKept(v0.held, c.fs.Held(), v0.dirs - {c.fs.curDir as int}) && NoNewNames(v0, c.fs.View())
    ensures c.Valid() && c.Trodden() && c.OnTrack()
  {
    hide Fs.Inv, Fs.Held, LeadsKept, ResolveDirs, Resolve, Consistent, Inside;
    InvFacts(c.fs);
    TroddenKept(v0, c.fs.Held(), c.fs.vol.root, c.stack, |c.stack|);
    assert c.stack[..|c.stack|] == c.stack;
    DirsResolve(c.fs, c.stack);
  }

  /** Both invariants, and a path that is right: what every system call on files starts from and keeps. */
  ghost predicate Settled(k: Kernel, c: Cwd)
    reads c, k, k.fs, k.fs.vol, k.fileTable
  {
    k.fs == c.fs && k.Valid() && c.Valid() && c.Trodden()
  }

  /** The system call: changing the directory disturbs no descriptor. */
  method SysChdir(k: Kernel, c: Cwd, path: CString) returns (r: int)
    requires k.fs == c.fs && k.Valid() && c.Valid()
    modifies c`stack, c.fs`curDir
    ensures Moved(c.fs.Held(), c.fs.vol.root, path, old(c.stack), c.stack, c.Leads(c.stack), old(c.fs.curDir),
                  c.fs.curDir, r)
    ensures k.Handles(k.fileUsed) && (k.Valid() <==> c.Valid()) && (c.Valid() <==> c.fs.curDir in c.fs.dirs)
    ensures old(Settled(k, c)) ==> k.Valid() && (Settled(k, c) <==> StaysRight(path, |old(c.stack)|, r))
  {
    hide Sound, Consistent, Fs.Held, Located, Spoken, Volume.Geometry.Bpc, ShortName, Resolve, ResolveDirs, DirNamed;
    hide Lookup, StaysRight, Moved, Unnamed;
    InvFacts(c.fs);
    r := c.Chdir(path);
  }

  /** A new directory keeps the path right also under a name that exists already: the path never passes
      through the directory it leads to. */
  method SysMkdir(k: Kernel, c: Cwd, path: CString) returns (r: int)
    requires Settled(k, c) && ShortName(path)[0] != 0xE5
    modifies k.fs`dirs, k.fs`refs
    modifies k.fs.vol`disk, k.fs.vol`fat, k.fs.vol`nextFree, k.fs.vol`own, k.fs.vol`owner, k.fs.vol`data
    ensures Settled(k, c) && c.OnTrack()
    ensures r == if NoRoom(old(k.fs.vol.fat), old(k.fs.vol.data), old(k.fs.vol.own), k.fs.curDir) then -1 else 0
    ensures r == -1 ==> k.fs.View() == old(k.fs.View()) && k.fs.vol.fat == old(k.fs.vol.fat)
    ensures r == 0 ==> MadeDir(old(k.fs.View()), k.fs.View(), k.fs.curDir, ShortName(path), k.fs.vol.geo.Bpc())
    ensures r == 0 ==> GainsFolder(old(k.fs.View()), k.fs.View(), k.fs.curDir, ShortName(path), k.fs.vol.geo.Bpc())
  {
    hide Fs.Inv, Fs.Held, Kernel.Handles, LeadsKept, ResolveDirs, Resolve, Rooted, ShortName, NoRoom, MadeDir;
    hide GainsFolder, Hides, NoNewNames, Content;
    ghost var v0 := k.fs.View();
    CwdRooted(c);
    r := k.Mkdir(path);
    CallKeepsPath(c, v0);
  }

  /** "cd d" and then "cd ..": back at the recorded path's directory, which is where it started if the
      path was right, whatever became of the recorded name. With sixteen names recorded, one is dropped
      and the shell ends one directory further up. */
  method DownAndUp(c: Cwd, path: CString) returns (down: int, up: int)
    requires c.Valid() && IsName(path)
    modifies c`stack, c.fs`curDir
    ensures down == if old(c.Enters(path)) then 0 else -1
    ensures down == -1 ==> c.fs.curDir == old(c.fs.curDir) && c.stack == old(c.stack)
    ensures down == 0 ==>
              && c.stack == (if |old(c.stack)| < 16 then old(c.stack) else old(c.stack)[..15])
              && up == (if c.Leads(c.stack) >= 0 then 0 else -1)
              && (up == 0 ==> c.fs.curDir == c.Leads(c.stack))
    ensures |old(c.stack)| < 16 && old(c.OnTrack()) ==>
              c.fs.curDir == old(c.fs.curDir) && c.OnTrack() && c.Valid()
    ensures down == 0 && |old(c.stack)| == 16 && old(c.Trodden()) ==>
              up == 0 && c.fs.curDir != old(c.fs.curDir)
  {
    hide Fs.Inv, Fs.Held, Resolve, ResolveDirs, DirNamed, ShortName;
    InvFacts(c.fs);
    if |c.stack| > 0 && c.Trodden() { FullDrops(c, c.stack); }
    up := 0;
    down := c.Chdir(path);
    if down == 0 {
      assert |old(c.stack)| < MAX_PATH_DEPTH ==> c.stack[..|c.stack| - 1] == old(c.stack);
      up := c.Chdir(DOTS);
    }
  }

  /** The shortened path of a right one leads to another directory. */
  lemma FullDrops(c: Cwd, stack: seq<CString>)
    requires c.Valid() && |stack| > 0 && ResolveDirs(c.fs.Held(), c.fs.vol.root, stack) == c.fs.curDir
    ensures 0 <= c.Leads(stack[..|stack| - 1]) != c.fs.curDir
  {
    hide Fs.Inv, Fs.Held, Resolve, ResolveDirs, Rooted;
    CwdRooted(c);
    UpTrodden(c, stack);
    NoRevisit(c.fs.View(), c.fs.vol.root, stack, |stack| - 1, |stack|);
    assert stack[..|stack|] == stack;
  }

  /** A name in the eight-dot-three form. */
  predicate EightDotThree(name: CString) {
    0 <= LastDot(name) <= 8 && 1 <= |Extension(name)| <= 3 && SPACE !in name
  }

  /** Of all names in that form, exactly those that use all of its twelve characters are lost when recorded. */
  lemma FullNamesLost(name: CString)
    requires EightDotThree(name)
    ensures KeepsName(name) <==> |name| < 12
  {
    if |name| >= MAX_NAME_LEN {
      var cut := Kept(name);
      assert |name| == 12 && LastDot(name) == 8 && cut == name[..11] && cut[8] == DOT;
      assert forall i :: 8 < i < 11 ==> cut[i] == name[i];
      assert LastDot(cut) == 8;
      assert ShortName(name)[10] == Up(name[11]) && ShortName(cut)[10] == SPACE;
    }
  }

  /** "cd ABCDEFGH.TXT", "cd SUB", "cd ..": going up fails and strands the shell in SUB, with a recorded
      path that leads nowhere. */
  method FullNameStrands(c: Cwd, name: CString, sub: CString) returns (r: int)
    requires c.Valid() && c.stack == [] && c.fs.curDir == c.fs.vol.root
    requires EightDotThree(name) && |name| == MAX_NAME_LEN && c.Enters(name) && c.fs.Target(Kept(name)).k < 0
    requires sub != [SLASH] && sub != DOTS
    requires DirNamed(c.fs.Held(), DirNamed(c.fs.Held(), c.fs.curDir, ShortName(name)), ShortName(sub)) >= 0
    modifies c`stack, c.fs`curDir
    ensures r == -1 && c.stack == [Kept(name)] && !c.OnTrack()
    ensures c.fs.curDir == DirNamed(c.fs.Held(), DirNamed(c.fs.Held(), old(c.fs.curDir), ShortName(name)),
                                    ShortName(sub))
  {
    hide Fs.Inv, Fs.Held, ResolveDirs, DirNamed, ShortName, Kept, Step, EightDotThree;
    InvFacts(c.fs);
    CutLeadsNowhere(c, name);
    var _ := c.Chdir(name);
    var _ := c.Chdir(sub);
    assert c.stack[..1] == [Kept(name)];
    r := c.Chdir(DOTS);
  }

  lemma ResolveOne(fat: seq<int>, data: seq<seq<byte>>, c: int, name: CString)
    ensures Resolve(fat, data, c, [name]) == Step(fat, data, c, name)
  {
    hide Step;
    var names: seq<CString> := [name];
    assert names[..|names| - 1] == [];
    assert Resolve(fat, data, c, names[..|names| - 1]) == c;
  }

  lemma CutLeadsNowhere(c: Cwd, name: CString)
    requires c.Valid() && c.fs.curDir == c.fs.vol.root && c.fs.Target(Kept(name)).k < 0
    ensures c.Leads([Kept(name)]) == -1
  {
    hide Fs.Inv, Fs.Held, ShortName, FirstOf, BytesAt, Kept, Step;
    InvFacts(c.fs);
    DirStep(c.fs, c.fs.curDir, Kept(name));
    ResolveOne(c.fs.vol.fat, c.fs.vol.data, c.fs.vol.root, Kept(name));
  }

  /** "/" followed by the names joined by "/". */
  function PathText(names: seq<CString>): seq<byte> {
    if |names| == 0 then [0x2F]
    else if |names| == 1 then [0x2F] + names[0]
    else PathText(names[..|names| - 1]) + [0x2F] + names[|names| - 1]
  }

  lemma PathGrows(names: seq<CString>, i: nat)
    requires i < |names|
    ensures PathText(names[..i + 1]) == PathText(names[..i]) + (if i > 0 then [SLASH] else []) + names[i]
  {
    assert names[..i + 1][..i] == names[..i] && names[..i + 1][i] == names[i];
  }

  lemma {:induction false} PathPrefix(names: seq<CString>, i: nat)
    requires i <= |names|
    ensures |PathText(names[..i])| <= |PathText(names)|
    decreases |names| - i
  {
    if i < |names| {
      PathGrows(names, i);
      PathPrefix(names, i + 1);
    } else {
      assert names[..i] == names;
    }
  }
}
