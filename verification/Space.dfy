/** Whether the calls of fs/dir.cc and fs/file.cc lose space: blocks that stay marked although no file has them, and
    inodes that stay in use although no entry names them. */
module Space {
  import opened Options
  import opened Bitmaps
  import opened FileSystem
  import StaleBlockRun


  // ----- No space is lost

  ghost predicate OwnedBy(fs: Fs, b: nat) {
    exists n: nat, i: nat :: Live(fs, n) && i < SECTORS && Sector(fs, n, i) == fs.dataStart + b
  }

  /** Every marked block is a sector of a live inode. */
  ghost predicate BlocksOwned(fs: Fs) {
    forall b: nat :: b < |fs.blockBits| && fs.blockBits[b] ==> OwnedBy(fs, b)
  }

  ghost predicate Named(fs: Fs, n: nat) {
    exists d: nat, k: nat :: Names(fs, d, k, n)
  }

  /** Every live inode but the root's has an entry. */
  ghost predicate InodesNamed(fs: Fs) {
    forall n: nat :: Live(fs, n) && n != ROOT ==> Named(fs, n)
  }

  ghost predicate Tight(fs: Fs) { BlocksOwned(fs) && InodesNamed(fs) }

  // ----- Owners under the elementary updates

  lemma OwnerIs(fs: Fs, b: nat, n: nat, i: nat)
    requires Live(fs, n) && i < SECTORS && Sector(fs, n, i) == fs.dataStart + b
    ensures OwnedBy(fs, b)
  {}

  lemma AssignOwners(fs: Fs, n: nat, i: nat, b: nat)
    requires WellFormed(fs) && BlocksOwned(fs) && Live(fs, n) && i < SECTORS && Sector(fs, n, i) == 0
    requires b < |fs.blockBits|
    ensures BlocksOwned(Assign(fs, n, i, b))
  {
    var g := Assign(fs, n, i, b);
    SectorsAfter(fs, g, n, i, fs.dataStart + b);
    forall c: nat | c < |g.blockBits| && g.blockBits[c] ensures OwnedBy(g, c) {
      if c == b {
        OwnerIs(g, b, n, i);
      } else {
        var m: nat, j: nat :| Live(fs, m) && j < SECTORS && Sector(fs, m, j) == fs.dataStart + c;
        OwnerIs(g, c, m, j);
      }
    }
  }

  lemma ReleaseOwners(fs: Fs, n: nat, i: nat)
    requires WellFormed(fs) && BlocksOwned(fs) && n < |fs.table| && i < SECTORS && IsBlock(fs, Sector(fs, n, i))
    ensures BlocksOwned(Release(fs, n, i))
  {
    var g := Release(fs, n, i);
    SectorsAfter(fs, g, n, i, 0);
    forall c: nat | c < |g.blockBits| && g.blockBits[c] ensures OwnedBy(g, c) {
      var m: nat, j: nat :| Live(fs, m) && j < SECTORS && Sector(fs, m, j) == fs.dataStart + c;
      OwnerIs(g, c, m, j);
    }
  }

  /** Nothing but contents, sizes and names of directories changes. */
  lemma SameOwnersKept(fs: Fs, g: Fs)
    requires BlocksOwned(fs) && g.blockBits == fs.blockBits && g.dataStart == fs.dataStart
    requires forall m, j :: Sector(g, m, j) == Sector(fs, m, j)
    requires forall m :: Live(fs, m) ==> Live(g, m)
    ensures BlocksOwned(g)
  {
    forall c: nat | c < |g.blockBits| && g.blockBits[c] ensures OwnedBy(g, c) {
      var m: nat, j: nat :| Live(fs, m) && j < SECTORS && Sector(fs, m, j) == fs.dataStart + c;
      OwnerIs(g, c, m, j);
    }
  }

  lemma WriteOwners(fs: Fs, b: nat, entries: seq<Entry>)
    requires BlocksOwned(fs) && b < |fs.disk|
    ensures BlocksOwned(WriteBlock(fs, b, entries))
  {
    SameOwnersKept(fs, WriteBlock(fs, b, entries));
  }

  lemma NewInodeOwners(fs: Fs, n: nat)
    requires BlocksOwned(fs) && n < |fs.table| && n < |fs.inodeBits| && !fs.inodeBits[n]
    ensures BlocksOwned(NewInode(fs, n))
  {
    var g := NewInode(fs, n);
    forall c: nat | c < |g.blockBits| && g.blockBits[c] ensures OwnedBy(g, c) {
      var m: nat, j: nat :| Live(fs, m) && j < SECTORS && Sector(fs, m, j) == fs.dataStart + c;
      OwnerIs(g, c, m, j);
    }
  }

  lemma LinkOwners(fs: Fs, d: nat, e: Entry)
    requires WellFormed(fs) && BlocksOwned(fs) && Live(fs, d)
    ensures BlocksOwned(LinkEntry(fs, d, e))
  {
    if FindName(fs, d, e.name, 0) < SLOTS {
    } else if FindName(fs, d, "", 0) < SLOTS {
      var b := BlockOf(fs, d, FindName(fs, d, "", 0) / ENTRIES);
      WriteOwners(fs, b, fs.disk[b][FindName(fs, d, "", 0) % ENTRIES := e]);
    } else {
      var i, b := FirstZero(fs.table[d].sectors, 0), FirstClear(fs.blockBits, 0);
      if i < SECTORS && b < |fs.blockBits| && b < |fs.disk| {
        WriteOwners(fs, b, fs.disk[b][0 := e]);
        AssignOwners(WriteBlock(fs, b, fs.disk[b][0 := e]), d, i, b);
      }
    }
  }

  lemma {:induction false} UnlinkOwners(fs: Fs, d: nat, name: string, i: nat, found: bool)
    requires WellFormed(fs) && BlocksOwned(fs) && d < |fs.table| && i <= SECTORS
    ensures BlocksOwned(Unlink(fs, d, name, i, found))
    decreases SECTORS - i
  {
    hide BlocksOwned;
    if i < SECTORS {
      if Sector(fs, d, i) == 0 || !IsBlock(fs, Sector(fs, d, i)) {
        UnlinkOwners(fs, d, name, i + 1, found);
      } else {
        var b := BlockOf(fs, d, i);
        var entries := ClearName(fs.disk[b], name);
        var now := found || HasName(fs.disk[b], name);
        WriteOwners(fs, b, entries);
        var g := WriteBlock(fs, b, entries);
        if now && AllFree(entries) {
          ReleaseOwners(g, d, i);
        } else {
          UnlinkOwners(g, d, name, i + 1, now);
        }
      }
    }
  }

  // ----- Making files and directories

  /** The name is new and gets a slot. */
  ghost predicate GetsEntry(fs: Fs, d: nat, name: string)
    requires d < |fs.table|
  {
    Lookup(fs, d, name) == None && CanLink(fs, d)
  }

  /** Linking keeps every entry and adds the new one. */
  lemma LinkNames(fs: Fs, d: nat, e: Entry)
    requires Inv(fs) && d in fs.dirs && d < |fs.table| && Ordinary(e.name) && GetsEntry(fs, d, e.name)
    ensures var g := LinkEntry(fs, d, e); Named(g, e.ino) && forall n: nat :: Named(fs, n) ==> Named(g, n)
  {
    var g := LinkEntry(fs, d, e);
    var at := LinkSlots(fs, d, e);
    LinkDirs(fs, d, e);
    assert Names(g, d, at, e.ino);
    forall n: nat | Named(fs, n) ensures Named(g, n) {
      var m: nat, k: nat :| Names(fs, m, k, n);
      assert Live(fs, m);
      assert NameOf(fs, m, k) != "" && SlotAt(g, m, k) == SlotAt(fs, m, k);
      assert Names(g, m, k, n);
    }
  }

  lemma LinkDirs(fs: Fs, d: nat, e: Entry)
    requires WellFormed(fs) && d < |fs.table|
    ensures var g := LinkEntry(fs, d, e);
      && g.dirs == fs.dirs && g.inodeBits == fs.inodeBits && |g.table| == |fs.table|
      && forall n :: Live(g, n) <==> Live(fs, n)
  {}

  /** An inode made and linked, if it gets an entry. */
  ghost function Made(fs: Fs, d: nat, name: string, kind: EntryKind): Fs
    requires MakeSpace(fs, d, name, kind)
  {
    var n := FirstClear(fs.inodeBits, 0);
    LinkEntry(NewInode(fs, n), d, Entry(name, n, kind))
  }

  /** Making an inode and linking it: space is kept if and only if the entry is made. */
  lemma MadeTightIff(fs: Fs, d: nat, name: string, kind: EntryKind)
    requires Inv(fs) && Tight(fs) && d in fs.dirs && Ordinary(name) && MakeSpace(fs, d, name, kind)
    ensures var n, g := FirstClear(fs.inodeBits, 0), Made(fs, d, name, kind);
      && BlocksOwned(g) && Live(g, n) && n != ROOT
      && (forall m :: Live(g, m) <==> Live(fs, m) || m == n)
      && (GetsEntry(fs, d, name) ==> InodesNamed(g)) && (Named(g, n) <==> GetsEntry(fs, d, name))
  {
    hide BlocksOwned;
    hide Inv;
    hide LinkEntry;
    hide LinkSpace;
    hide GetsEntry;
    hide Named;
    hide MakeSpace;
    hide WellFormed;
    hide NewInode;
    hide FirstClear;
    hide Live;
    var n := FirstClear(fs.inodeBits, 0);
    DirInTable(fs, d);
    SpaceParts(fs, d, name, kind);
    NewInodeInv(fs, n);
    NewInodeOwners(fs, n);
    NewInodeNames(fs, n);
    SameEntry(fs, d, name, n);
    LinkedTight(NewInode(fs, n), d, Entry(name, n, kind));
  }

  lemma SpaceParts(fs: Fs, d: nat, name: string, kind: EntryKind)
    requires MakeSpace(fs, d, name, kind)
    ensures var n := FirstClear(fs.inodeBits, 0);
      && d < |fs.table| && n < |fs.table| <= |fs.inodeBits| && !fs.inodeBits[n] && LinkSpace(NewInode(fs, n), d, name)
      && NewInode(fs, n).dirs == fs.dirs && |NewInode(fs, n).table| == |fs.table|
      && WellFormed(NewInode(fs, n)) && forall m :: Live(NewInode(fs, n), m) <==> Live(fs, m) || m == n
  {}

  lemma MadeLive(fs: Fs, d: nat, name: string, kind: EntryKind)
    requires MakeSpace(fs, d, name, kind)
    ensures forall m :: Live(Made(fs, d, name, kind), m) <==> Live(fs, m) || m == FirstClear(fs.inodeBits, 0)
  {
    hide LinkEntry;
    SpaceParts(fs, d, name, kind);
    var n := FirstClear(fs.inodeBits, 0);
    LinkDirs(NewInode(fs, n), d, Entry(name, n, kind));
    hide MakeSpace;
  }

  lemma LinkedTight(fs: Fs, d: nat, e: Entry)
    requires Inv(fs) && BlocksOwned(fs) && d in fs.dirs && d < |fs.table| && Ordinary(e.name)
    requires LinkSpace(fs, d, e.name)
    requires !Named(fs, e.ino)
    ensures var g := LinkEntry(fs, d, e);
      && BlocksOwned(g) && (forall m :: Live(g, m) <==> Live(fs, m)) && (forall m: nat :: Named(fs, m) ==> Named(g, m))
      && (Named(g, e.ino) <==> GetsEntry(fs, d, e.name))
  {
    hide BlocksOwned;
    hide Inv;
    hide LinkEntry;
    hide LinkSpace;
    hide GetsEntry;
    hide Named;
    DirInTable(fs, d);
    InvShape(fs);
    LinkOwners(fs, d, e);
    LinkDirs(fs, d, e);
    if GetsEntry(fs, d, e.name) {
      LinkNames(fs, d, e);
    } else {
      NoEntry(fs, d, e);
    }
  }

  lemma InvShape(fs: Fs)
    requires Inv(fs)
    ensures WellFormed(fs)
  {}

  lemma SameEntry(fs: Fs, d: nat, name: string, n: nat)
    requires n < |fs.table| && n < |fs.inodeBits| && !fs.inodeBits[n] && Live(fs, d)
    ensures GetsEntry(NewInode(fs, n), d, name) <==> GetsEntry(fs, d, name)
  {
    var h := NewInode(fs, n);
    NewInodeSlots(fs, n, d);
    SameFind(fs, h, d, name);
    SameFind(fs, h, d, "");
    hide FindName;
    hide Lookup;
  }

  lemma NoEntry(fs: Fs, d: nat, e: Entry)
    requires WellFormed(fs) && d < |fs.table| && LinkSpace(fs, d, e.name) && !GetsEntry(fs, d, e.name)
    ensures LinkEntry(fs, d, e) == fs
  {
    LinkNothing(fs, d, e);
  }

  lemma NewInodeNames(fs: Fs, n: nat)
    requires Inv(fs) && n < |fs.table| && !fs.inodeBits[n]
    ensures forall m: nat :: Named(NewInode(fs, n), m) <==> Named(fs, m)
    ensures !Named(NewInode(fs, n), n)
  {
    var g := NewInode(fs, n);
    NewInodeInv(fs, n);
    forall d: nat, k: nat, m: nat ensures Names(g, d, k, m) <==> Names(fs, d, k, m) {
      if d in fs.dirs {
        assert Live(fs, d);
        NewInodeSlots(fs, n, d);
      }
    }
  }

  lemma MkFileTightIff(fs: Fs, d: nat, name: string)
    requires Inv(fs) && Tight(fs) && d in fs.dirs && Ordinary(name) && MakeSpace(fs, d, name, File)
    ensures Tight(MkFile(fs, d, name)) <==> GetsEntry(fs, d, name)
  {
    hide BlocksOwned;
    hide Inv;
    hide LinkEntry;
    hide GetsEntry;
    hide Named;
    MadeTightIff(fs, d, name, File);
    assert MkFile(fs, d, name) == Made(fs, d, name, File);
  }

  /** A new directory's own entries are no ordinary ones. */
  lemma InitChildNames(fs: Fs, d: nat, n: nat, b: nat)
    requires Inv(fs) && Live(fs, n) && n !in fs.dirs && b < |fs.blockBits| && b < |fs.disk| && !fs.blockBits[b]
    requires forall i :: 0 <= i < SECTORS ==> Sector(fs, n, i) == 0
    ensures forall m: nat :: Named(InitChild(fs, d, n, b), m) <==> Named(fs, m)
    ensures forall m :: Live(InitChild(fs, d, n, b), m) <==> Live(fs, m)
  {
    var g, entries := InitChild(fs, d, n, b), FreshDirectory(n, d);
    var h := Assign(WriteBlock(fs, b, entries), n, 0, b);
    assert forall m: nat, l: nat :: SlotAt(g, m, l) == SlotAt(h, m, l);
    forall m: nat, l: nat, x: nat ensures Names(g, m, l, x) <==> Names(fs, m, l, x) {
      if m in g.dirs && l < SLOTS {
        assert Live(fs, m);
        GrowSlots(fs, n, 0, b, entries, m, l);
        if m == n {
          assert SlotAt(fs, n, l) == None by { assert Sector(fs, n, l / ENTRIES) == 0; }
        }
      }
    }
  }

  lemma MkDirTightIff(fs: Fs, d: nat, name: string)
    requires Inv(fs) && Tight(fs) && d in fs.dirs && Ordinary(name) && MakeSpace(fs, d, name, Dir)
    ensures Tight(MkDir(fs, d, name)) <==> GetsEntry(fs, d, name)
  {
    hide BlocksOwned;
    hide Inv;
    hide LinkEntry;
    hide GetsEntry;
    hide Named;
    hide InitChild;
    MadeTightIff(fs, d, name, Dir);
    MakeLinked(fs, d, name, Dir);
    var n := FirstClear(fs.inodeBits, 0);
    var g := Made(fs, d, name, Dir);
    var b := FirstClear(g.blockBits, 0);
    InitChildNames(g, d, n, b);
    InitChildOwners(g, d, n, b);
  }

  lemma InitChildOwners(fs: Fs, d: nat, n: nat, b: nat)
    requires Inv(fs) && BlocksOwned(fs) && Live(fs, n) && b < |fs.blockBits| && b < |fs.disk| && Sector(fs, n, 0) == 0
    ensures BlocksOwned(InitChild(fs, d, n, b))
  {
    var w := WriteBlock(fs, b, FreshDirectory(n, d));
    WriteOwners(fs, b, FreshDirectory(n, d));
    AssignOwners(w, n, 0, b);
    SameOwnersKept(Assign(w, n, 0, b), InitChild(fs, d, n, b));
  }

  // ----- Removing files and directories

  /** Removing an entry keeps the entries of every inode but the one it named. */
  lemma UnlinkNamed(fs: Fs, d: nat, name: string, n: nat)
    requires Inv(fs) && d in fs.dirs && d < |fs.table| && Ordinary(name) && Lookup(fs, d, name) != Some(n)
    requires Named(fs, n)
    ensures Named(Unlink(fs, d, name, 0, false), n)
  {
    var g := Unlink(fs, d, name, 0, false);
    var m: nat, k: nat :| Names(fs, m, k, n);
    UnlinkInv(fs, d, name, 0, false);
    assert Live(fs, m);
    UnlinkSlots(fs, d, name, 0, false, m, k);
    if m == d && NameOf(fs, d, k) == name {
      OnlySlot(fs, d, name, k);
    }
    hide Unlink;
    hide Inv;
    assert Names(g, m, k, n);
  }

  lemma OnlySlot(fs: Fs, d: nat, name: string, k: nat)
    requires Inv(fs) && d in fs.dirs && Ordinary(name) && k < SLOTS && NameOf(fs, d, k) == name
    ensures Lookup(fs, d, name) == Some(SlotAt(fs, d, k).value.ino)
  {
    hide Owned;
    hide Directories;
    var r := FindName(fs, d, name, 0);
    assert NameAt(fs, d, k, name);
    assert r < SLOTS && NameOf(fs, d, r) == NameOf(fs, d, k);
  }

  lemma {:induction false} FreeSectorsClears(fs: Fs, sectors: seq<nat>, i: nat)
    requires i <= |sectors|
    ensures var g := FreeSectors(fs, sectors, i);
      && |g.blockBits| == |fs.blockBits|
      && (forall b :: 0 <= b < |fs.blockBits| && g.blockBits[b] ==> fs.blockBits[b])
      && forall b, j ::
           (0 <= b < |fs.blockBits| && b < |fs.disk| && i <= j < |sectors| && sectors[j] == fs.dataStart + b)
           ==> sectors[j] == 0 || !g.blockBits[b]
    decreases |sectors| - i
  {
    if i < |sectors| {
      if sectors[i] == 0 || !IsBlock(fs, sectors[i]) {
        FreeSectorsClears(fs, sectors, i + 1);
      } else {
        FreeSectorsClears(fs.(blockBits := fs.blockBits[sectors[i] - fs.dataStart := false]), sectors, i + 1);
      }
    }
  }

  /** A file's blocks are cleared and its inode freed: what is still marked belongs to others. */
  lemma FreedOwners(fs: Fs, n: nat)
    requires Inv(fs) && BlocksOwned(fs) && Live(fs, n)
    ensures BlocksOwned(ForgetInodeOf(FreeSectors(fs, fs.table[n].sectors, 0), n))
  {
    var sectors := fs.table[n].sectors;
    FreeSectorsEffect(fs, sectors, 0);
    FreeSectorsClears(fs, sectors, 0);
    ForgottenLive(fs, fs, sectors, n);
    hide FreeSectors;
    hide BlocksOwned;
    SectorsMarked(fs, n);
    hide Inv;
    OwnersMinus(fs, ForgetInodeOf(FreeSectors(fs, sectors, 0), n), n);
  }

  lemma SectorsMarked(fs: Fs, n: nat)
    requires Inv(fs) && Live(fs, n)
    ensures |fs.table[n].sectors| == SECTORS
    ensures forall j :: 0 <= j < SECTORS ==> Sector(fs, n, j) == fs.table[n].sectors[j]
    ensures forall j :: 0 <= j < SECTORS && Sector(fs, n, j) != 0 ==> IsBlock(fs, Sector(fs, n, j))
    ensures fs.dataStart > 0
  {}

  /** The marks that are left are none of inode `n`'s. */
  lemma OwnersMinus(fs: Fs, g: Fs, n: nat)
    requires BlocksOwned(fs) && g.dataStart == fs.dataStart && |g.blockBits| == |fs.blockBits| && g.table == fs.table
    requires forall m :: Live(g, m) <==> Live(fs, m) && m != n
    requires forall b :: 0 <= b < |g.blockBits| && g.blockBits[b] ==>
      fs.blockBits[b] && forall j :: 0 <= j < SECTORS ==> Sector(fs, n, j) != fs.dataStart + b
    ensures BlocksOwned(g)
  {
    forall c: nat | c < |g.blockBits| && g.blockBits[c] ensures OwnedBy(g, c) {
      var m: nat, j: nat :| Live(fs, m) && j < SECTORS && Sector(fs, m, j) == fs.dataStart + c;
      assert Sector(g, m, j) == Sector(fs, m, j);
      OwnerIs(g, c, m, j);
    }
  }

  lemma ForgottenNames(fs: Fs, sectors: seq<nat>, n: nat, m: nat)
    requires n !in fs.dirs && Named(fs, m)
    ensures Named(ForgetInodeOf(FreeSectors(fs, sectors, 0), n), m)
  {
    FreeSectorsEffect(fs, sectors, 0);
    var h := FreeSectors(fs, sectors, 0);
    hide FreeSectors;
    var g := ForgetInodeOf(h, n);
    var d: nat, k: nat :| Names(fs, d, k, m);
    assert SlotAt(g, d, k) == SlotAt(fs, d, k);
    assert Names(g, d, k, m);
  }

  lemma RmFileTight(fs: Fs, d: nat, name: string)
    requires Inv(fs) && Tight(fs) && d in fs.dirs && d < |fs.table| && Ordinary(name)
    requires Lookup(fs, d, name).Some? ==> Lookup(fs, d, name).value !in fs.dirs
    ensures Tight(RmFile(fs, d, name))
  {
    hide Unlink;
    hide FreeSectors;
    hide BlocksOwned;
    hide Inv;
    hide Lookup;
    hide Named;
    InvShape(fs);
    if Lookup(fs, d, name).Some? {
      var c := Lookup(fs, d, name).value;
      LookupNames(fs, d, name);
      UnlinkInv(fs, d, name, 0, false);
      UnlinkTable(fs, d, name, 0, false);
      UnlinkOwners(fs, d, name, 0, false);
      var g := Unlink(fs, d, name, 0, false);
      FreedOwners(g, c);
      var h := ForgetInodeOf(FreeSectors(g, g.table[c].sectors, 0), c);
      ForgottenLive(fs, g, g.table[c].sectors, c);
      forall n: nat | Live(h, n) && n != ROOT ensures Named(h, n) {
        UnlinkNamed(fs, d, name, n);
        ForgottenNames(g, g.table[c].sectors, c, n);
      }
    }
  }

  lemma ForgottenLive(fs: Fs, g: Fs, sectors: seq<nat>, c: nat)
    requires g.inodeBits == fs.inodeBits && |g.table| == |fs.table| && Live(fs, c)
    ensures forall n :: Live(ForgetInodeOf(FreeSectors(g, sectors, 0), c), n) <==> Live(fs, n) && n != c
  {
    FreeSectorsEffect(g, sectors, 0);
    hide FreeSectors;
  }

  /** The block of a removed directory stays marked, and nobody has it. */
  lemma RmDirTightIff(fs: Fs, d: nat, name: string)
    requires Inv(fs) && Tight(fs) && d in fs.dirs && d < |fs.table| && Ordinary(name) && Lookup(fs, d, name).Some?
    requires Lookup(fs, d, name).value in fs.dirs
    ensures Tight(RmDir(fs, d, name)) <==> !DirIsEmpty(fs, Lookup(fs, d, name).value)
  {
    var c := Lookup(fs, d, name).value;
    if DirIsEmpty(fs, c) {
      EmptyIsNotParent(fs, d, name);
      UnlinkInv(fs, d, name, 0, false);
      UnlinkTable(fs, d, name, 0, false);
      var g := Unlink(fs, d, name, 0, false);
      hide Unlink;
      FirstSector(fs, c);
      assert Sector(g, c, 0) == Sector(fs, c, 0);
      ForgottenBlock(g, c);
    }
  }

  lemma FirstSector(fs: Fs, c: nat)
    requires Inv(fs) && c in fs.dirs
    ensures Live(fs, c) && Sector(fs, c, 0) != 0
  {
    assert NameAt(fs, c, 0, ".");
  }

  /** A directory that holds the entry is not empty. */
  lemma EmptyIsNotParent(fs: Fs, d: nat, name: string)
    requires Inv(fs) && d in fs.dirs && Ordinary(name) && Lookup(fs, d, name).Some?
    requires DirIsEmpty(fs, Lookup(fs, d, name).value)
    ensures Lookup(fs, d, name).value != d
  {
    var k := FindName(fs, d, name, 0);
    assert NameAt(fs, d, k, name) && NameAt(fs, d, 0, ".") && NameAt(fs, d, 1, "..");
    if k < ENTRIES {
      assert k >= 2;
    } else {
      assert Sector(fs, d, k / ENTRIES) != 0 && k / ENTRIES >= 1;
    }
  }

  lemma ForgottenBlock(fs: Fs, c: nat)
    requires Inv(fs) && Live(fs, c) && Sector(fs, c, 0) != 0
    ensures !BlocksOwned(ForgetInode(fs, c))
  {
    var g, b := ForgetInode(fs, c), Sector(fs, c, 0) - fs.dataStart;
    assert IsBlock(fs, Sector(fs, c, 0)) && fs.blockBits[b];
    forall m: nat, j: nat | Live(g, m) && j < SECTORS ensures Sector(g, m, j) != g.dataStart + b {
      assert Live(fs, m) && Sector(g, m, j) == Sector(fs, m, j);
    }
    assert !OwnedBy(g, b);
  }

  // ----- Changing files

  /** Same directories, same slots in them: the same inodes are named. */
  lemma SameNamed(fs: Fs, g: Fs)
    requires g.dirs == fs.dirs
    requires forall d: nat, k: nat :: d in fs.dirs && k < SLOTS ==> SlotAt(g, d, k) == SlotAt(fs, d, k)
    ensures forall n: nat :: Named(g, n) <==> Named(fs, n)
  {
    forall d: nat, k: nat, n: nat ensures Names(g, d, k, n) <==> Names(fs, d, k, n) {}
  }

  /** A fresh block for a sector a file did not have. */
  lemma GrownFile(fs: Fs, n: nat, i: nat, b: nat, entries: seq<Entry>)
    requires Inv(fs) && Live(fs, n) && n !in fs.dirs && i < SECTORS && |entries| == ENTRIES
    requires b < |fs.blockBits| && b < |fs.disk| && !fs.blockBits[b]
    ensures var g := Assign(WriteBlock(fs, b, entries), n, i, b);
      && Inv(g) && g.dirs == fs.dirs && (forall m :: Live(g, m) <==> Live(fs, m)) && |g.table| == |fs.table|
      && (forall m, j :: Sector(g, m, j) == if m == n && j == i then fs.dataStart + b else Sector(fs, m, j))
      && (forall m: nat :: Named(g, m) <==> Named(fs, m))
      && (BlocksOwned(fs) && Sector(fs, n, i) == 0 ==> BlocksOwned(g))
  {
    hide Owned;
    hide Entries;
    hide Directories;
    hide BlocksOwned;
    var w := WriteBlock(fs, b, entries);
    var g := Assign(w, n, i, b);
    FileGrows(fs, n, i, b, entries);
    SectorsAfter(w, g, n, i, fs.dataStart + b);
    if BlocksOwned(fs) && Sector(fs, n, i) == 0 {
      WriteOwners(fs, b, entries);
      AssignOwners(w, n, i, b);
    }
    forall d: nat, k: nat | d in fs.dirs && k < SLOTS ensures SlotAt(g, d, k) == SlotAt(fs, d, k) {
      DirInTable(fs, d);
      GrowSlots(fs, n, i, b, entries, d, k);
    }
    SameNamed(fs, g);
  }

  /** The copy loop changes no entry, and loses no block if the copy had none. */
  lemma {:induction false} CopyNames(fs: Fs, src: seq<nat>, n: nat, i: nat)
    requires Inv(fs) && Live(fs, n) && n !in fs.dirs && Copyable(fs, src, i)
    ensures var g := CopySectors(fs, src, n, i);
      && (forall m :: Live(g, m) <==> Live(fs, m)) && (forall m: nat :: Named(g, m) <==> Named(fs, m)) && n < |g.table|
      && (BlocksOwned(fs) && (forall j :: i <= j < SECTORS ==> Sector(fs, n, j) == 0) ==> BlocksOwned(g))
    decreases SECTORS - i
  {
    hide Inv;
    hide BlocksOwned;
    hide Named;
    hide CopySectors;
    hide Copyable;
    hide Live;
    LiveInTable(fs, n);
    CopyBounds(fs, src, n, i, 0);
    if i < SECTORS {
      if src[i] == 0 {
        CopyNames(fs, src, n, i + 1);
      } else {
        var g := CopyRound(fs, src, n, i);
        CopyNames(g, src, n, i + 1);
      }
    }
  }

  lemma LiveInTable(fs: Fs, n: nat)
    requires Live(fs, n)
    ensures n < |fs.table|
  {}

  /** One round of the copy loop. */
  lemma CopyRound(fs: Fs, src: seq<nat>, n: nat, i: nat) returns (g: Fs)
    requires Inv(fs) && Live(fs, n) && n !in fs.dirs && Copyable(fs, src, i) && i < SECTORS && src[i] != 0
    ensures Inv(g) && g.dirs == fs.dirs && |g.table| == |fs.table| && Copyable(g, src, i + 1)
    ensures CopySectors(fs, src, n, i) == CopySectors(g, src, n, i + 1)
    ensures (forall m :: Live(g, m) <==> Live(fs, m)) && forall m: nat :: Named(g, m) <==> Named(fs, m)
    ensures forall j :: j != i ==> Sector(g, n, j) == Sector(fs, n, j)
    ensures BlocksOwned(fs) && Sector(fs, n, i) == 0 ==> BlocksOwned(g)
    ensures g.dataStart == fs.dataStart && forall c: nat :: Lost(fs, c) ==> Lost(g, c)
    ensures Sector(fs, n, i) != 0 ==> fs.dataStart <= Sector(fs, n, i) && Lost(g, Sector(fs, n, i) - fs.dataStart)
  {
    hide Owned;
    hide Entries;
    hide Directories;
    hide BlocksOwned;
    hide Named;
    hide SlotAt;
    hide Lost;
    var b, entries := FirstClear(fs.blockBits, 0), fs.disk[src[i] - fs.dataStart];
    GrownFile(fs, n, i, b, entries);
    g := Assign(WriteBlock(fs, b, entries), n, i, b);
    Overwritten(fs, n, i, b, entries);
  }

  /** The block stays marked, but no live inode has it. */
  ghost predicate Lost(fs: Fs, b: nat) {
    b < |fs.blockBits| && fs.blockBits[b] && !OwnedBy(fs, b)
  }

  /** A sector overwritten by a fresh block loses the block it had. */
  lemma Overwritten(fs: Fs, n: nat, i: nat, b: nat, entries: seq<Entry>)
    requires Inv(fs) && Live(fs, n) && i < SECTORS && b < |fs.blockBits| && b < |fs.disk| && !fs.blockBits[b]
    ensures var g := Assign(WriteBlock(fs, b, entries), n, i, b);
      && (forall c: nat :: Lost(fs, c) ==> Lost(g, c))
      && (Sector(fs, n, i) != 0 ==> fs.dataStart <= Sector(fs, n, i) && Lost(g, Sector(fs, n, i) - fs.dataStart))
  {
    hide Entries;
    hide Directories;
    var w := WriteBlock(fs, b, entries);
    var g := Assign(w, n, i, b);
    SectorsAfter(w, g, n, i, fs.dataStart + b);
    assert forall m, j :: Sector(g, m, j) == if m == n && j == i then fs.dataStart + b else Sector(fs, m, j);
    assert forall m :: Live(g, m) <==> Live(fs, m);
    forall c: nat | Lost(fs, c) ensures Lost(g, c) {
      assert forall m: nat, j: nat :: Live(fs, m) && j < SECTORS ==> Sector(fs, m, j) != fs.dataStart + c;
    }
    if Sector(fs, n, i) != 0 {
      assert IsBlock(fs, Sector(fs, n, i)) && fs.blockBits[Sector(fs, n, i) - fs.dataStart];
      forall m: nat, j: nat | Live(g, m) && j < SECTORS ensures Sector(g, m, j) != Sector(fs, n, i) {}
    }
  }

  /** cp onto a file that has blocks: each block replaced is lost. */
  lemma {:induction false} CopyLoses(fs: Fs, src: seq<nat>, n: nat, i: nat, c: nat)
    requires Inv(fs) && Live(fs, n) && n !in fs.dirs && Copyable(fs, src, i)
    requires Lost(fs, c) || exists j :: i <= j < SECTORS && src[j] != 0 && Sector(fs, n, j) == fs.dataStart + c
    ensures Lost(CopySectors(fs, src, n, i), c)
    decreases SECTORS - i
  {
    hide Inv;
    hide Lost;
    hide CopySectors;
    hide Copyable;
    hide Live;
    LiveInTable(fs, n);
    CopyBounds(fs, src, n, i, 0);
    StartPositive(fs);
    if i < SECTORS {
      if src[i] == 0 {
        CopyLoses(fs, src, n, i + 1, c);
      } else {
        var g := CopyRound(fs, src, n, i);
        CopyLoses(g, src, n, i + 1, c);
      }
    }
  }

  lemma StartPositive(fs: Fs)
    requires Inv(fs)
    ensures fs.dataStart > 0
  {}

  /** The whole call, cp of a file onto itself included. */
  lemma CopyOntoLoses(fs: Fs, d: nat, name: string, e: nat, dst: string, j: nat)
    requires Inv(fs) && Transferable(fs, d, name, e, dst) && CopyRoom(MkFile(fs, e, dst), d, name, e, dst)
    requires j < SECTORS
    ensures var g := MkFile(fs, e, dst);
      var was, now := Sector(g, Lookup(g, e, dst).value, j), Sector(g, Lookup(g, d, name).value, j);
      was != 0 && now != 0 ==> g.dataStart <= was && Lost(CopyFile(fs, d, name, e, dst), was - g.dataStart)
  {
    hide Inv;
    hide MkFile;
    hide Lookup;
    hide CopySectors;
    hide Copyable;
    hide Lost;
    MkFileInv(fs, e, dst);
    var g := MkFile(fs, e, dst);
    LookupNames(g, d, name);
    LookupNames(g, e, dst);
    var s, t := Lookup(g, d, name).value, Lookup(g, e, dst).value;
    var was := Sector(g, t, j);
    SectorsMarked(g, s);
    SectorsMarked(g, t);
    if was != 0 && Sector(g, s, j) != 0 {
      CopyLoses(g, g.table[s].sectors, t, 0, was - g.dataStart);
      CopySectorsInv(g, g.table[s].sectors, t, 0);
      SizeKeepsLost(CopySectors(g, g.table[s].sectors, t, 0), t, g.table[s].size, was - g.dataStart);
    }
  }

  lemma SizeKeepsLost(fs: Fs, n: nat, size: nat, c: nat)
    requires n < |fs.table| && Lost(fs, c)
    ensures Lost(WithSize(fs, n, size), c)
  {
    var g := WithSize(fs, n, size);
    assert forall m, j :: Sector(g, m, j) == Sector(fs, m, j);
    assert forall m :: Live(g, m) <==> Live(fs, m);
  }

  /** mv onto a file that has blocks, or of a file onto itself: every block it had is lost. */
  lemma MoveOntoLoses(fs: Fs, d: nat, name: string, e: nat, dst: string, j: nat)
    requires Inv(fs) && Transferable(fs, d, name, e, dst) && j < SECTORS
    ensures var g := MkFile(fs, e, dst);
      var was := Sector(g, Lookup(g, e, dst).value, j);
      was != 0 ==> g.dataStart <= was && Lost(MoveFile(fs, d, name, e, dst), was - g.dataStart)
  {
    hide Inv;
    hide MkFile;
    hide Lookup;
    hide Unlink;
    hide MoveInode;
    hide Lost;
    MkFileInv(fs, e, dst);
    var g := MkFile(fs, e, dst);
    LookupNames(g, d, name);
    LookupNames(g, e, dst);
    DirInTable(g, d);
    InvShape(g);
    UnlinkedNamed(g, d, name);
    UnlinkInv(g, d, name, 0, false);
    var h := Unlink(g, d, name, 0, false);
    var s, t := Lookup(g, d, name).value, Lookup(g, e, dst).value;
    assert h.table[s] == g.table[s] && h.table[t] == g.table[t];
    assert Sector(h, t, j) == Sector(g, t, j);
    ReplacedLost(h, s, t, j);
  }

  lemma ReplacedLost(fs: Fs, s: nat, t: nat, j: nat)
    requires Inv(fs) && Live(fs, s) && Live(fs, t) && j < SECTORS
    ensures Sector(fs, t, j) != 0 ==>
      fs.dataStart <= Sector(fs, t, j) && Lost(MoveInode(fs, s, t, fs.table[s]), Sector(fs, t, j) - fs.dataStart)
  {
    hide Entries;
    hide Directories;
    var g, lba := MoveInode(fs, s, t, fs.table[s]), Sector(fs, t, j);
    if lba != 0 {
      assert IsBlock(fs, lba) && fs.blockBits[lba - fs.dataStart];
      assert forall m, i :: Sector(g, m, i) == if m == t then Sector(fs, s, i) else Sector(fs, m, i);
      forall m: nat, i: nat | Live(g, m) && i < SECTORS ensures Sector(g, m, i) != lba {
        assert Live(fs, m) && m != s;
      }
    }
  }

  /** A call that makes its destination first: whether that destination is new. */
  lemma MadeDestination(fs: Fs, d: nat, name: string, e: nat, dst: string)
    requires Inv(fs) && Tight(fs) && Transferable(fs, d, name, e, dst)
    ensures var g, n := MkFile(fs, e, dst), FirstClear(fs.inodeBits, 0);
      && Inv(g) && BlocksOwned(g) && g.dirs == fs.dirs && Live(g, n) && n != ROOT && n !in g.dirs
      && (Lookup(fs, e, dst) == None ==> InodesNamed(g) && Lookup(g, e, dst) == Some(n))
      && (Lookup(fs, e, dst) != None ==> !Named(g, n))
      && n < |g.table| && g.table[n] == Inode(0, NO_SECTORS)
  {
    hide BlocksOwned;
    hide Inv;
    hide LinkEntry;
    hide LinkSpace;
    hide Named;
    hide Lookup;
    hide FindName;
    MadeTightIff(fs, e, dst, File);
    MakeLinked(fs, e, dst, File);
    var g := MkFile(fs, e, dst);
    assert g == Made(fs, e, dst, File);
    NewEntryIff(fs, d, name, e, dst);
    if Lookup(fs, e, dst) == None {
      NoneFound(fs, e, dst);
      MkFileLookup(fs, e, dst, e, dst);
    }
  }

  lemma NoneFound(fs: Fs, d: nat, name: string)
    ensures Lookup(fs, d, name) == None <==> FindName(fs, d, name, 0) == SLOTS
  {}

  /** Since the destination resolves afterwards, it got an entry if it was new. */
  lemma NewEntryIff(fs: Fs, d: nat, name: string, e: nat, dst: string)
    requires Inv(fs) && Transferable(fs, d, name, e, dst)
    ensures e < |fs.table| && (GetsEntry(fs, e, dst) <==> Lookup(fs, e, dst) == None)
  {
    DirInTable(fs, e);
    SpaceParts(fs, e, dst, File);
    hide Inv;
    hide LinkEntry;
    hide CanLink;
    hide MakeSpace;
    var n := FirstClear(fs.inodeBits, 0);
    SameEntry(fs, e, dst, n);
    if Lookup(fs, e, dst) == None && !GetsEntry(fs, e, dst) {
      var h := NewInode(fs, n);
      NoEntry(h, e, Entry(dst, n, File));
      NewInodeSlots(fs, n, e);
      SameFind(fs, h, e, dst);
    }
  }

  lemma CopyTightIff(fs: Fs, d: nat, name: string, e: nat, dst: string)
    requires Inv(fs) && Tight(fs) && Transferable(fs, d, name, e, dst) && CopyRoom(MkFile(fs, e, dst), d, name, e, dst)
    ensures Tight(CopyFile(fs, d, name, e, dst)) <==> Lookup(fs, e, dst) == None
  {
    hide BlocksOwned;
    hide Inv;
    hide MkFile;
    hide Named;
    hide Lookup;
    hide CopySectors;
    hide Copyable;
    MadeDestination(fs, d, name, e, dst);
    var g, n := MkFile(fs, e, dst), FirstClear(fs.inodeBits, 0);
    LookupNames(g, d, name);
    LookupNames(g, e, dst);
    var s, t := Lookup(g, d, name).value, Lookup(g, e, dst).value;
    CopyNames(g, g.table[s].sectors, t, 0);
    var c := CopySectors(g, g.table[s].sectors, t, 0);
    SizedTight(c, t, g.table[s].size);
    assert t == n ==> forall j :: 0 <= j < SECTORS ==> Sector(g, n, j) == 0;
  }

  lemma SizedTight(fs: Fs, n: nat, size: nat)
    requires n < |fs.table|
    ensures var g := WithSize(fs, n, size);
      && (forall m :: Live(g, m) <==> Live(fs, m)) && (forall m: nat :: Named(g, m) <==> Named(fs, m))
      && (BlocksOwned(fs) ==> BlocksOwned(g))
  {
    var g := WithSize(fs, n, size);
    forall d: nat, k: nat ensures SlotAt(g, d, k) == SlotAt(fs, d, k) { SizeOnly(fs, n, size, d, k); }
    SameNamed(fs, g);
    if BlocksOwned(fs) {
      SameOwnersKept(fs, g);
    }
  }

  /** The sectors of `s` pass to `t`, which had none or is `s` itself without any; then `s` is freed. */
  lemma MovedOwners(fs: Fs, s: nat, t: nat)
    requires BlocksOwned(fs) && Live(fs, s) && Live(fs, t) && forall j :: 0 <= j < SECTORS ==> Sector(fs, t, j) == 0
    requires fs.dataStart > 0
    ensures BlocksOwned(MoveInode(fs, s, t, fs.table[s]))
  {
    var g := MoveInode(fs, s, t, fs.table[s]);
    assert forall m, i :: Sector(g, m, i) == if m == t then Sector(fs, s, i) else Sector(fs, m, i);
    forall c: nat | c < |g.blockBits| && g.blockBits[c] ensures OwnedBy(g, c) {
      var m: nat, j: nat :| Live(fs, m) && j < SECTORS && Sector(fs, m, j) == fs.dataStart + c;
      OwnerIs(g, c, if m == s then t else m, j);
    }
  }

  lemma MovedNamed(fs: Fs, s: nat, t: nat)
    requires Live(fs, s) && Live(fs, t) && t !in fs.dirs
    ensures var g := MoveInode(fs, s, t, fs.table[s]);
      && (forall m :: Live(g, m) <==> Live(fs, m) && m != s) && forall m: nat :: Named(g, m) <==> Named(fs, m)
  {
    var g := MoveInode(fs, s, t, fs.table[s]);
    forall d: nat, k: nat | d in fs.dirs ensures SlotAt(g, d, k) == SlotAt(fs, d, k) {}
    SameNamed(fs, g);
  }

  /** Removing the entry of `s`: what lives and what is named afterwards. */
  lemma UnlinkedNamed(g: Fs, d: nat, name: string)
    requires Inv(g) && d in g.dirs && d < |g.table| && Ordinary(name) && Lookup(g, d, name).Some?
    ensures var h, s := Unlink(g, d, name, 0, false), Lookup(g, d, name).value;
      && Inv(h) && h.dirs == g.dirs && |h.table| == |g.table| && (forall m :: Live(h, m) <==> Live(g, m))
      && (forall m: nat :: Named(h, m) ==> Named(g, m)) && (forall m: nat :: Named(g, m) && m != s ==> Named(h, m))
      && (forall m :: 0 <= m < |g.table| && m != d ==> h.table[m] == g.table[m])
  {
    UnlinkInv(g, d, name, 0, false);
    UnlinkTable(g, d, name, 0, false);
    var h, s := Unlink(g, d, name, 0, false), Lookup(g, d, name).value;
    forall m: nat | Named(g, m) && m != s ensures Named(h, m) {
      UnlinkNamed(g, d, name, m);
    }
    hide Unlink;
    hide Inv;
    hide Lookup;
    forall m: nat | Named(h, m) ensures Named(g, m) {
      var e: nat, k: nat :| Names(h, e, k, m);
      assert Names(g, e, k, m);
    }
  }

  lemma MoveTightIff(fs: Fs, d: nat, name: string, e: nat, dst: string)
    requires Inv(fs) && Tight(fs) && Transferable(fs, d, name, e, dst)
    ensures Tight(MoveFile(fs, d, name, e, dst)) <==> Lookup(fs, e, dst) == None
  {
    hide BlocksOwned;
    hide Inv;
    hide MkFile;
    hide Named;
    hide Lookup;
    hide Unlink;
    hide MoveInode;
    MadeDestination(fs, d, name, e, dst);
    var g, n := MkFile(fs, e, dst), FirstClear(fs.inodeBits, 0);
    LookupNames(g, d, name);
    LookupNames(g, e, dst);
    var s, t := Lookup(g, d, name).value, Lookup(g, e, dst).value;
    NamedByLookup(g, d, name);
    InvShape(g);
    DirInTable(g, d);
    UnlinkedNamed(g, d, name);
    UnlinkOwners(g, d, name, 0, false);
    var h := Unlink(g, d, name, 0, false);
    InvShape(h);
    MovedNamed(h, s, t);
    if Lookup(fs, e, dst) == None {
      assert forall j :: 0 <= j < SECTORS ==> Sector(h, n, j) == 0;
      MovedOwners(h, s, t);
    }
  }

  lemma NamedByLookup(fs: Fs, d: nat, name: string)
    requires Inv(fs) && d in fs.dirs && Ordinary(name) && Lookup(fs, d, name).Some?
    ensures Named(fs, Lookup(fs, d, name).value)
  {
    LookupNames(fs, d, name);
  }

  // ----- Writing

  lemma {:induction false} ResizeTight(fs: Fs, n: nat, sectors: seq<nat>, start: nat, last: nat, i: nat)
    requires Inv(fs) && BlocksOwned(fs) && Live(fs, n) && n !in fs.dirs && Resizable(fs, n, sectors, start, last, i)
    ensures var g := Resize(fs, n, sectors, start, last, i);
      && BlocksOwned(g) && (forall m :: Live(g, m) <==> Live(fs, m)) && (forall m: nat :: Named(g, m) <==> Named(fs, m))
    decreases SECTORS - i
  {
    hide BlocksOwned;
    hide Named;
    hide Owned;
    hide Entries;
    hide Directories;
    hide SlotAt;
    if i < SECTORS {
      assert Sector(fs, n, i) == sectors[i];
      if start <= i <= last && sectors[i] == 0 {
        var b := FirstClear(fs.blockBits, 0);
        GrownFile(fs, n, i, b, fs.disk[b]);
        assert WriteBlock(fs, b, fs.disk[b]) == fs;
        ResizeTight(Assign(fs, n, i, b), n, sectors, start, last, i + 1);
      } else if i > last && sectors[i] != 0 {
        NothingLacking(sectors, start, last, i + 1);
        FileShrinks(fs, n, i);
        ReleaseOwners(fs, n, i);
        ReleasedNamed(fs, n, i);
        ResizeTight(Release(fs, n, i), n, sectors, start, last, i + 1);
      } else {
        ResizeTight(fs, n, sectors, start, last, i + 1);
      }
    }
  }

  lemma ReleasedNamed(fs: Fs, n: nat, i: nat)
    requires WellFormed(fs) && n < |fs.table| && n !in fs.dirs && i < SECTORS && IsBlock(fs, Sector(fs, n, i))
    ensures forall m: nat :: Named(Release(fs, n, i), m) <==> Named(fs, m)
  {
    var g := Release(fs, n, i);
    forall d: nat, k: nat | d in fs.dirs && k < SLOTS ensures SlotAt(g, d, k) == SlotAt(fs, d, k) {
      SlotsAfterSector(fs, g, n, i, 0, d, k);
    }
    SameNamed(fs, g);
  }

  lemma WriteTight(fs: Fs, n: nat, i: nat, entries: seq<Entry>)
    requires Inv(fs) && Tight(fs) && Live(fs, n) && n !in fs.dirs && i < SECTORS && Sector(fs, n, i) != 0
    requires |entries| == ENTRIES && IsBlock(fs, Sector(fs, n, i))
    ensures Tight(WriteBlock(fs, BlockOf(fs, n, i), entries))
  {
    hide BlocksOwned;
    hide Owned;
    hide Entries;
    hide Directories;
    hide Named;
    var g := WriteBlock(fs, BlockOf(fs, n, i), entries);
    WriteOwners(fs, BlockOf(fs, n, i), entries);
    forall d: nat, k: nat | d in fs.dirs && k < SLOTS ensures SlotAt(g, d, k) == SlotAt(fs, d, k) {
      DirInTable(fs, d);
      SlotsAfterWrite(fs, n, i, entries, d, k);
    }
    SameNamed(fs, g);
    hide SlotAt;
  }

  // ----- Every call, every run

  /** What a caller can check before the call: a new name that gets a slot for what is made; a directory that is not
      empty, and so stays, for rmdir. */
  ghost predicate Frugal(fs: Fs, c: Call)
    requires Enabled(fs, c)
  {
    match c
    case CallMkDir(d, name) => GetsEntry(fs, d, name)
    case CallMkFile(d, name) => GetsEntry(fs, d, name)
    case CallRmDir(d, name) => !DirIsEmpty(fs, Lookup(fs, d, name).value)
    case CallCopy(_, _, e, dst) => Lookup(fs, e, dst) == None
    case CallMove(_, _, e, dst) => Lookup(fs, e, dst) == None
    case _ => true
  }

  /** A call loses no space if and only if it is frugal. */
  lemma TightIff(fs: Fs, c: Call)
    requires Inv(fs) && Tight(fs) && Enabled(fs, c)
    ensures Tight(After(fs, c)) <==> Frugal(fs, c)
  {
    hide Inv;
    hide GetsEntry;
    match c
    case CallMkDir(d, name) => MkDirTightIff(fs, d, name);
    case CallMkFile(d, name) => MkFileTightIff(fs, d, name);
    case CallRmDir(d, name) => RmDirTightIff(fs, d, name);
    case CallRmFile(d, name) => RmFileTight(fs, d, name);
    case CallCopy(d, name, e, dst) => CopyTightIff(fs, d, name, e, dst);
    case CallMove(d, name, e, dst) => MoveTightIff(fs, d, name, e, dst);
    case CallResize(n, start, last) => ResizeTight(fs, n, fs.table[n].sectors, start, last, 0);
    case CallWrite(n, i, entries) =>
      SourceSector(fs, n, i);
      WriteTight(fs, n, i, entries);
  }

  lemma SourceSector(fs: Fs, n: nat, i: nat)
    requires Inv(fs) && Live(fs, n) && i < SECTORS && Sector(fs, n, i) >= fs.dataStart
    ensures Sector(fs, n, i) != 0 && IsBlock(fs, Sector(fs, n, i))
  {}

  lemma InstalledTight(fs: Fs)
    requires Installed(fs)
    ensures Tight(fs)
  {
    OwnerIs(fs, 0, ROOT, 0);
    assert forall n: nat :: Live(fs, n) ==> n == ROOT;
  }

  /** From a freshly installed partition no space is ever lost if and only if every call is frugal. */
  lemma {:induction false} TightRunIff(states: seq<Fs>, calls: seq<Call>, n: nat)
    requires IsRun(states, calls) && n < |states|
    ensures (forall k :: 0 <= k <= n ==> Tight(states[k])) <==> forall k :: 0 <= k < n ==> Frugal(states[k], calls[k])
  {
    hide Inv;
    hide Tight;
    hide Frugal;
    hide Enabled;
    hide After;
    hide Installed;
    if n == 0 {
      InstalledTight(states[0]);
    } else {
      TightRunIff(states, calls, n - 1);
      EveryState(states, calls, n - 1);
      if forall k :: 0 <= k <= n - 1 ==> Tight(states[k]) {
        TightIff(states[n - 1], calls[n - 1]);
        assert Tight(states[n]) <==> Frugal(states[n - 1], calls[n - 1]);
        assert forall k :: 0 <= k < n - 1 ==> Frugal(states[k], calls[k]);
      } else {
        var k :| 0 <= k < n - 1 && !Frugal(states[k], calls[k]);
      }
    }
  }

  /** Making a file twice is enough to lose an inode. */
  lemma LosingRun() returns (states: seq<Fs>, calls: seq<Call>)
    ensures IsRun(states, calls) && |calls| == 2 && calls[0] == calls[1] && Tight(states[1]) && !Tight(states[2])
  {
    states, calls := StaleBlockRun.MadeTwice();
    FirstOnly(states, calls);
    hide Frugal;
    hide IsRun;
    TightRunIff(states, calls, 1);
    TightRunIff(states, calls, 2);
  }

  lemma FirstOnly(states: seq<Fs>, calls: seq<Call>)
    requires IsRun(states, calls) && |calls| == 2 && calls[0].CallMkFile? && calls[0] == calls[1]
    requires |states[0].table| > calls[0].dir && CanLink(states[0], calls[0].dir)
    requires Lookup(states[0], calls[0].dir, calls[0].name) == None
    requires Lookup(states[1], calls[0].dir, calls[0].name) != None
    ensures Frugal(states[0], calls[0]) && !Frugal(states[1], calls[1])
  {
    hide CanLink;
    hide Lookup;
  }
}
