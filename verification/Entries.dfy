/** What mkdir, rmfile and rmdir of fs/dir.cc and fs/file.cc do, seen through names, inodes and block bits; and what the
    entries of every directory say in every run. */
module DirectoryEntries {
  import opened Options
  import opened Bitmaps
  import opened FileSystem
  import Space

  // ----- Names unaffected

  /** The same directory slots: every name resolves as before. */
  lemma SameSlotsLookup(fs: Fs, g: Fs, m: nat, name: string)
    requires forall k: nat :: k < SLOTS ==> SlotAt(g, m, k) == SlotAt(fs, m, k)
    ensures Lookup(g, m, name) == Lookup(fs, m, name)
  {
    SameLookup(fs, g, m, name);
  }

  // ----- mkdir

  /** The block of a new directory, in place. */
  lemma InitChildSlots(fs: Fs, d: nat, n: nat, b: nat, m: nat, k: nat)
    requires Inv(fs) && Live(fs, n) && Live(fs, m) && b < |fs.blockBits| && b < |fs.disk| && !fs.blockBits[b]
    requires k < SLOTS
    requires forall i :: 0 <= i < SECTORS ==> Sector(fs, n, i) == 0
    ensures SlotAt(InitChild(fs, d, n, b), m, k) ==
      if m != n then SlotAt(fs, m, k) else if k < ENTRIES then Some(FreshDirectory(n, d)[k]) else None
  {
    var entries := FreshDirectory(n, d);
    var h := Assign(WriteBlock(fs, b, entries), n, 0, b);
    GrowSlots(fs, n, 0, b, entries, m, k);
    assert SlotAt(InitChild(fs, d, n, b), m, k) == SlotAt(h, m, k);
    if m == n {
      if k < ENTRIES {
        SmallSlot(k);
      } else {
        assert k / ENTRIES >= 1;
      }
    }
  }

  /** The two steps of mkdir: the entry, then the block. */
  lemma MkDirSteps(fs: Fs, d: nat, name: string)
    requires Inv(fs) && d in fs.dirs && Ordinary(name) && MakeSpace(fs, d, name, Dir)
    ensures var n, g := FirstClear(fs.inodeBits, 0), Space.Made(fs, d, name, Dir);
      var b := FirstClear(g.blockBits, 0);
      && Inv(g) && g.dirs == fs.dirs && Live(g, n) && n !in g.dirs
      && b < |g.blockBits| && b < |g.disk| && !g.blockBits[b]
      && n < |g.table| && g.table[n] == Inode(0, NO_SECTORS) && MkDir(fs, d, name) == InitChild(g, d, n, b)
  {
    hide Owned;
    hide Entries;
    hide Directories;
    hide LinkEntry;
    MakeLinked(fs, d, name, Dir);
  }

  /** After making an entry, or failing to, every other name and the contents of every other inode are as before. */
  lemma MadeSlots(fs: Fs, d: nat, name: string, kind: EntryKind) returns (at: nat)
    requires Inv(fs) && d in fs.dirs && Ordinary(name) && MakeSpace(fs, d, name, kind)
    ensures var g, n := Space.Made(fs, d, name, kind), FirstClear(fs.inodeBits, 0);
      && d < |fs.table| && !Live(fs, n)
      && (forall m: nat, k: nat :: Live(fs, m) && m != d && k < SLOTS ==> SlotAt(g, m, k) == SlotAt(fs, m, k))
      && (forall k: nat :: k < SLOTS && NameOf(fs, d, k) != "" ==> SlotAt(g, d, k) == SlotAt(fs, d, k))
      && (forall k: nat :: k < SLOTS && NameOf(fs, d, k) == "" && k != at ==> NameOf(g, d, k) == "")
      && (if Space.GetsEntry(fs, d, name) then
            at < SLOTS && NameOf(fs, d, at) == "" && SlotAt(g, d, at) == Some(Entry(name, n, kind))
          else at == SLOTS)
  {
    hide Inv;
    hide LinkEntry;
    hide LinkSpace;
    hide MakeSpace;
    hide WellFormed;
    hide NewInode;
    hide CanLink;
    hide FindName;
    Space.SpaceParts(fs, d, name, kind);
    var n := FirstClear(fs.inodeBits, 0);
    var h, e := NewInode(fs, n), Entry(name, n, kind);
    DirInTable(fs, d);
    NewInodeInv(fs, n);
    Space.SameEntry(fs, d, name, n);
    at := SLOTS;
    if Space.GetsEntry(fs, d, name) {
      Space.NoneFound(h, d, name);
      at := LinkSlots(h, d, e);
    } else {
      Space.NoEntry(h, d, e);
    }
    forall m: nat, k: nat | Live(fs, m) ensures SlotAt(h, m, k) == SlotAt(fs, m, k) && Live(h, m) {
      NewInodeSlots(fs, n, m);
    }
    hide SlotAt;
  }

  /** Slot by slot: the new directory, its entry, and everything else as before. */
  lemma MkDirSlots(fs: Fs, d: nat, name: string) returns (at: nat)
    requires Inv(fs) && d in fs.dirs && Ordinary(name) && MakeSpace(fs, d, name, Dir)
    ensures var g, n := MkDir(fs, d, name), FirstClear(fs.inodeBits, 0);
      && d < |fs.table| && !Live(fs, n) && Live(g, n) && g.dirs == fs.dirs + {n} && n !in fs.dirs
      && (forall m: nat, k: nat :: Live(fs, m) && m != d && k < SLOTS ==> SlotAt(g, m, k) == SlotAt(fs, m, k))
      && (forall k: nat :: k < SLOTS && NameOf(fs, d, k) != "" ==> SlotAt(g, d, k) == SlotAt(fs, d, k))
      && (forall k: nat :: k < SLOTS && NameOf(fs, d, k) == "" && k != at ==> NameOf(g, d, k) == "")
      && (if Space.GetsEntry(fs, d, name) then
            at < SLOTS && NameOf(fs, d, at) == "" && SlotAt(g, d, at) == Some(Entry(name, n, Dir))
          else at == SLOTS)
      && (forall k: nat :: k < SLOTS ==>
            SlotAt(g, n, k) == if k < ENTRIES then Some(FreshDirectory(n, d)[k]) else None)
  {
    hide Inv;
    hide LinkEntry;
    hide MakeSpace;
    hide MkDir;
    hide InitChild;
    hide Space.Made;
    hide Space.GetsEntry;
    hide FreshDirectory;
    at := MadeSlots(fs, d, name, Dir);
    MkDirSteps(fs, d, name);
    DirInTable(fs, d);
    var n, g := FirstClear(fs.inodeBits, 0), Space.Made(fs, d, name, Dir);
    Space.MadeLive(fs, d, name, Dir);
    var b := FirstClear(g.blockBits, 0);
    Space.SectorsMarked(g, n);
    InitChildSlotsAll(g, d, n, b);
    hide SlotAt;
  }

  lemma InitChildSlotsAll(fs: Fs, d: nat, n: nat, b: nat)
    requires Inv(fs) && Live(fs, n) && n !in fs.dirs && b < |fs.blockBits| && b < |fs.disk| && !fs.blockBits[b]
    requires forall i :: 0 <= i < SECTORS ==> Sector(fs, n, i) == 0
    ensures var g := InitChild(fs, d, n, b);
      && g.dirs == fs.dirs + {n} && (forall m :: Live(g, m) <==> Live(fs, m))
      && (forall m: nat, k: nat :: Live(fs, m) && m != n && k < SLOTS ==> SlotAt(g, m, k) == SlotAt(fs, m, k))
      && (forall k: nat :: k < SLOTS ==>
            SlotAt(g, n, k) == if k < ENTRIES then Some(FreshDirectory(n, d)[k]) else None)
  {
    Space.InitChildNames(fs, d, n, b);
    hide Inv;
    forall m: nat, k: nat | Live(fs, m) && k < SLOTS
      ensures SlotAt(InitChild(fs, d, n, b), m, k) ==
        if m != n then SlotAt(fs, m, k) else if k < ENTRIES then Some(FreshDirectory(n, d)[k]) else None
    {
      InitChildSlots(fs, d, n, b, m, k);
    }
    hide SlotAt;
  }

  /** mkdir of a new name that gets a slot: the name resolves to a new live directory, whose "." is
      itself and whose ".." is its parent and which holds nothing else; every other name in every directory resolves
      as before. */
  lemma MkDirLookup(fs: Fs, d: nat, name: string, m: nat, other: string)
    requires Inv(fs) && d in fs.dirs && Ordinary(name) && MakeSpace(fs, d, name, Dir) && d < |fs.table|
    requires Lookup(fs, d, name) == None && CanLink(fs, d) && m in fs.dirs && other != ""
    ensures var g, n := MkDir(fs, d, name), FirstClear(fs.inodeBits, 0);
      && !Live(fs, n) && Live(g, n) && g.dirs == fs.dirs + {n}
      && Lookup(g, n, ".") == Some(n) && Lookup(g, n, "..") == Some(d)
      && (Ordinary(other) ==> Lookup(g, n, other) == None)
      && Lookup(g, m, other) == (if m == d && other == name then Some(n) else Lookup(fs, m, other))
      && exists k: nat :: k < SLOTS && SlotAt(g, d, k) == Some(Entry(name, n, Dir))
  {
    hide Inv;
    hide MkDir;
    hide MakeSpace;
    hide CanLink;
    hide LinkEntry;
    Space.InvShape(fs);
    Space.SpaceParts(fs, d, name, Dir);
    var at := MkDirSlots(fs, d, name);
    DirInTable(fs, m);
    var g, n := MkDir(fs, d, name), FirstClear(fs.inodeBits, 0);
    OwnEntries(g, d, n, other);
    hide SlotAt;
    hide Lookup;
    if m == d && other == name {
      Added(fs, g, d, name, n, at);
    } else {
      Unchanged(fs, g, d, name, at, m, other);
    }
  }

  /** mkdir of a name that is taken, or in a directory that is full, changes no name. */
  lemma MkDirRefused(fs: Fs, d: nat, name: string, m: nat, other: string)
    requires Inv(fs) && d in fs.dirs && Ordinary(name) && MakeSpace(fs, d, name, Dir) && d < |fs.table|
    requires Lookup(fs, d, name) != None || !CanLink(fs, d)
    requires m in fs.dirs && other != ""
    ensures Lookup(MkDir(fs, d, name), m, other) == Lookup(fs, m, other)
  {
    hide Inv;
    hide MkDir;
    hide MakeSpace;
    hide CanLink;
    hide LinkEntry;
    Space.InvShape(fs);
    Space.SpaceParts(fs, d, name, Dir);
    var at := MkDirSlots(fs, d, name);
    DirInTable(fs, m);
    hide SlotAt;
    hide Lookup;
    var g := MkDir(fs, d, name);
    if m != d {
      Unchanged(fs, g, d, name, at, m, other);
    } else {
      NoneAdded(fs, g, d, other);
    }
  }

  lemma NoneAdded(fs: Fs, g: Fs, d: nat, other: string)
    requires other != ""
    requires forall k: nat :: k < SLOTS && NameOf(fs, d, k) != "" ==> SlotAt(g, d, k) == SlotAt(fs, d, k)
    requires forall k: nat :: k < SLOTS && NameOf(fs, d, k) == "" ==> NameOf(g, d, k) == ""
    ensures Lookup(g, d, other) == Lookup(fs, d, other)
  {
    forall k: nat | k < SLOTS ensures NameAt(g, d, k, other) <==> NameAt(fs, d, k, other) {
      assert NameAt(g, d, k, other) ==> NameOf(g, d, k) == other;
      assert NameAt(fs, d, k, other) ==> NameOf(fs, d, k) == other;
    }
    SameLookup(fs, g, d, other);
  }

  /** What a new directory holds. */
  lemma OwnEntries(g: Fs, d: nat, n: nat, other: string)
    requires forall k: nat :: k < SLOTS ==> SlotAt(g, n, k) == if k < ENTRIES then Some(FreshDirectory(n, d)[k])
      else None
    ensures Lookup(g, n, ".") == Some(n) && Lookup(g, n, "..") == Some(d)
    ensures Ordinary(other) ==> Lookup(g, n, other) == None
  {
    assert FreshDirectory(n, d)[0] == Entry(".", n, Dir) && FreshDirectory(n, d)[1] == Entry("..", d, Dir);
    assert SlotAt(g, n, 0) == Some(Entry(".", n, Dir)) && SlotAt(g, n, 1) == Some(Entry("..", d, Dir));
    FindIs(g, n, ".", 0);
    FindIs(g, n, "..", 1);
    if Ordinary(other) {
      forall k: nat | k < SLOTS ensures !NameAt(g, n, k, other) {
        if k < ENTRIES && k != 0 && k != 1 {
          assert FreshDirectory(n, d)[k] == FREE_SLOT;
        }
      }
    }
  }

  /** One slot gained a name. */
  lemma Added(fs: Fs, g: Fs, d: nat, name: string, n: nat, at: nat)
    requires at < SLOTS && SlotAt(g, d, at).Some? && SlotAt(g, d, at).value.name == name
    requires SlotAt(g, d, at).value.ino == n
    requires name != "" && FindName(fs, d, name, 0) == SLOTS
    requires forall k: nat :: k < SLOTS && NameOf(fs, d, k) != "" ==> SlotAt(g, d, k) == SlotAt(fs, d, k)
    requires forall k: nat :: k < SLOTS && NameOf(fs, d, k) == "" && k != at ==> NameOf(g, d, k) == ""
    ensures Lookup(g, d, name) == Some(n)
  {
    forall j: nat | j < at ensures !NameAt(g, d, j, name) {
      assert !NameAt(fs, d, j, name);
    }
    FindIs(g, d, name, at);
  }

  lemma Unchanged(fs: Fs, g: Fs, d: nat, name: string, at: nat, m: nat, other: string)
    requires other != "" && !(m == d && other == name) && Live(fs, m)
    requires at < SLOTS ==> NameOf(fs, d, at) == "" && NameOf(g, d, at) == name
    requires forall k: nat :: k < SLOTS && m != d ==> SlotAt(g, m, k) == SlotAt(fs, m, k)
    requires forall k: nat :: k < SLOTS && NameOf(fs, d, k) != "" ==> SlotAt(g, d, k) == SlotAt(fs, d, k)
    requires forall k: nat :: k < SLOTS && NameOf(fs, d, k) == "" && k != at ==> NameOf(g, d, k) == ""
    ensures Lookup(g, m, other) == Lookup(fs, m, other)
  {
    if m == d {
      forall k: nat | k < SLOTS ensures NameAt(g, d, k, other) <==> NameAt(fs, d, k, other) {
        assert NameAt(g, d, k, other) ==> NameOf(g, d, k) == other;
        assert NameAt(fs, d, k, other) ==> NameOf(fs, d, k) == other;
      }
    }
    SameLookup(fs, g, m, other);
  }

  // ----- rmfile and rmdir

  /** Removing an entry gives back at most one sector of the directory, entirely free by then: sector `r`. */
  lemma {:induction false} UnlinkFrees(fs: Fs, d: nat, name: string, i: nat, found: bool) returns (r: nat)
    requires WellFormed(fs) && d < |fs.table| && i <= SECTORS
    ensures r <= SECTORS && (r < SECTORS ==> Sector(fs, d, r) != 0 && IsBlock(fs, Sector(fs, d, r)))
    ensures var g := Unlink(fs, d, name, i, found);
      if r == SECTORS then g.table == fs.table && g.blockBits == fs.blockBits
      else
        && g.table == WithSector(fs, d, r, 0).table
        && g.blockBits == fs.blockBits[Sector(fs, d, r) - fs.dataStart := false]
    decreases SECTORS - i
  {
    if i == SECTORS {
      r := SECTORS;
    } else if Sector(fs, d, i) == 0 || !IsBlock(fs, Sector(fs, d, i)) {
      r := UnlinkFrees(fs, d, name, i + 1, found);
    } else {
      var b := BlockOf(fs, d, i);
      var entries := ClearName(fs.disk[b], name);
      var now := found || HasName(fs.disk[b], name);
      var g := WriteBlock(fs, b, entries);
      if now && AllFree(entries) {
        r := i;
      } else {
        r := UnlinkFrees(g, d, name, i + 1, now);
      }
    }
  }

  /** A sector that holds nothing but the entry removed is given back. */
  lemma {:induction false} UnlinkGivesBack(fs: Fs, d: nat, name: string, i: nat, k: nat)
    requires Inv(fs) && d in fs.dirs && d < |fs.table| && Ordinary(name) && i <= SECTORS && k < SLOTS
    requires i <= k / ENTRIES
    requires NameAt(fs, d, k, name) && forall j: nat :: j < k ==> !NameAt(fs, d, j, name)
    requires forall j: nat :: j < SLOTS && j / ENTRIES == k / ENTRIES ==>
      NameOf(fs, d, j) == "" || NameOf(fs, d, j) == name
    ensures var g := Unlink(fs, d, name, i, false);
      && Sector(g, d, k / ENTRIES) == 0 && IsBlock(fs, Sector(fs, d, k / ENTRIES))
      && Sector(fs, d, k / ENTRIES) - fs.dataStart < |g.blockBits|
      && !g.blockBits[Sector(fs, d, k / ENTRIES) - fs.dataStart]
    decreases SECTORS - i
  {
    SectorIsBlock(fs, d, i);
    hide Owned;
    hide Entries;
    if Sector(fs, d, i) == 0 {
      UnlinkGivesBack(fs, d, name, i + 1, k);
    } else if i < k / ENTRIES {
      NoMatchInSector(fs, d, name, i, k);
      UnlinkGivesBack(fs, d, name, i + 1, k);
    } else {
      Emptied(fs, d, name, i, k);
      var b := BlockOf(fs, d, i);
      var g := WriteBlock(fs, b, ClearName(fs.disk[b], name));
      SectorsAfter(g, Release(g, d, i), d, i, 0);
    }
  }

  lemma Emptied(fs: Fs, d: nat, name: string, i: nat, k: nat)
    requires WellFormed(fs) && i == k / ENTRIES && k < SLOTS && Sector(fs, d, i) != 0 && IsBlock(fs, Sector(fs, d, i))
    requires NameAt(fs, d, k, name)
    requires forall j: nat :: j < SLOTS && j / ENTRIES == i ==> NameOf(fs, d, j) == "" || NameOf(fs, d, j) == name
    ensures var b := BlockOf(fs, d, i); HasName(fs.disk[b], name) && AllFree(ClearName(fs.disk[b], name))
  {
    var b := BlockOf(fs, d, i);
    assert fs.disk[b][k % ENTRIES].name == name;
    forall l | 0 <= l < ENTRIES ensures fs.disk[b][l].name == "" || fs.disk[b][l].name == name {
      var j := ENTRIES * i + l;
      assert j / ENTRIES == i && j % ENTRIES == l;
      assert NameOf(fs, d, j) == fs.disk[b][l].name;
    }
  }

  /** The block bits after removing an entry: only a block the directory no longer has is cleared. */
  lemma UnlinkBits(fs: Fs, d: nat, name: string)
    requires Inv(fs) && d in fs.dirs && d < |fs.table|
    ensures var g := Unlink(fs, d, name, 0, false);
      && |g.blockBits| == |fs.blockBits|
      && (forall b :: 0 <= b < |fs.blockBits| ==>
            (g.blockBits[b] <==> fs.blockBits[b] && StillHas(fs, g, d, b)))
      && forall m, i :: m != d ==> Sector(g, m, i) == Sector(fs, m, i)
  {
    var g := Unlink(fs, d, name, 0, false);
    var r := UnlinkFrees(fs, d, name, 0, false);
    hide Unlink;
    assert Live(fs, d);
    if r < SECTORS {
      SectorsAfter(fs, g, d, r, 0);
    } else {
      assert forall m, i :: Sector(g, m, i) == Sector(fs, m, i);
    }
    forall b | 0 <= b < |fs.blockBits| ensures g.blockBits[b] <==> fs.blockBits[b] && StillHas(fs, g, d, b) {
      if r < SECTORS {
        if b == Sector(fs, d, r) - fs.dataStart {
          assert Sector(g, d, r) == 0;
        }
      }
    }
  }

  /** Directory `d` has not given up block `b`. */
  ghost predicate StillHas(fs: Fs, g: Fs, d: nat, b: nat) {
    forall i :: 0 <= i < SECTORS && Sector(fs, d, i) == fs.dataStart + b ==> Sector(g, d, i) == fs.dataStart + b
  }

  /** What freeing a file's blocks and inode leaves. */
  lemma FreedEffect(fs: Fs, c: nat)
    requires Inv(fs) && Live(fs, c)
    ensures var g := ForgetInodeOf(FreeSectors(fs, fs.table[c].sectors, 0), c);
      && !Live(g, c) && (forall m :: m != c ==> (Live(g, m) <==> Live(fs, m)))
      && g.table == fs.table && g.disk == fs.disk
      && g.dirs == fs.dirs - {c} && |g.blockBits| == |fs.blockBits| && g.dataStart == fs.dataStart
      && forall b :: 0 <= b < |fs.blockBits| ==>
           (g.blockBits[b] <==> fs.blockBits[b] && forall j :: 0 <= j < SECTORS ==>
             Sector(fs, c, j) != fs.dataStart + b)
  {
    var sectors := fs.table[c].sectors;
    Space.SectorsMarked(fs, c);
    FreeSectorsEffect(fs, sectors, 0);
    Space.FreeSectorsClears(fs, sectors, 0);
    hide FreeSectors;
    hide Inv;
    var h := FreeSectors(fs, sectors, 0);
    forall b | 0 <= b < |fs.blockBits|
      ensures h.blockBits[b] <==> fs.blockBits[b] && forall j :: 0 <= j < SECTORS ==>
        Sector(fs, c, j) != fs.dataStart + b
    {
      if j :| 0 <= j < SECTORS && Sector(fs, c, j) == fs.dataStart + b {
        assert IsBlock(fs, Sector(fs, c, j)) && sectors[j] == fs.dataStart + b;
      }
    }
  }

  lemma SlotsKept(fs: Fs, g: Fs)
    requires g.table == fs.table && g.disk == fs.disk && |g.blockBits| == |fs.blockBits| && g.dataStart == fs.dataStart
    ensures forall m: nat, k: nat :: SlotAt(g, m, k) == SlotAt(fs, m, k)
  {}

  /** rmfile of an existing file: the name is gone, the inode and exactly its blocks are free (and a block the directory
      gives back), no other inode is; of an absent name: nothing changes. */
  lemma RmFileRemoves(fs: Fs, d: nat, name: string)
    requires Inv(fs) && d in fs.dirs && d < |fs.table| && Ordinary(name)
    requires Lookup(fs, d, name).Some? ==> Lookup(fs, d, name).value !in fs.dirs
    ensures Lookup(fs, d, name) == None ==> RmFile(fs, d, name) == fs
    ensures Lookup(fs, d, name).Some? ==>
      var c, g := Lookup(fs, d, name).value, RmFile(fs, d, name);
      && Live(fs, c) && !Live(g, c) && (forall m :: m != c ==> (Live(g, m) <==> Live(fs, m))) && g.dirs == fs.dirs
      && Lookup(g, d, name) == None && |g.blockBits| == |fs.blockBits|
      && forall b :: 0 <= b < |fs.blockBits| ==>
           (g.blockBits[b] <==>
              && fs.blockBits[b] && StillHas(fs, g, d, b)
              && forall j :: 0 <= j < SECTORS ==> Sector(fs, c, j) != fs.dataStart + b)
  {
    hide Inv;
    hide Unlink;
    hide FreeSectors;
    hide Lookup;
    Space.InvShape(fs);
    if Lookup(fs, d, name).Some? {
      var c := Lookup(fs, d, name).value;
      LookupNames(fs, d, name);
      UnlinkInv(fs, d, name, 0, false);
      UnlinkTable(fs, d, name, 0, false);
      UnlinkBits(fs, d, name);
      UnlinkLookup(fs, d, name, d, name);
      var h := Unlink(fs, d, name, 0, false);
      FreedEffect(h, c);
      var g := RmFile(fs, d, name);
      assert g == ForgetInodeOf(FreeSectors(h, h.table[c].sectors, 0), c);
      SlotsKept(h, g);
      SameSlotsLookup(h, g, d, name);
      SameTableStillHas(fs, h, g, d);
    }
  }

  lemma SameTableStillHas(fs: Fs, h: Fs, g: Fs, d: nat)
    requires g.table == h.table
    ensures forall b :: StillHas(fs, g, d, b) <==> StillHas(fs, h, d, b)
  {
    assert forall i :: Sector(g, d, i) == Sector(h, d, i);
  }

  /** And every other name in every directory, and the contents of every other inode, are as before. */
  lemma RmFileKeeps(fs: Fs, d: nat, name: string, m: nat, other: string, k: nat)
    requires Inv(fs) && d in fs.dirs && d < |fs.table| && Ordinary(name) && k < SLOTS
    requires Lookup(fs, d, name).Some? ==> Lookup(fs, d, name).value !in fs.dirs
    ensures m in fs.dirs && other != "" && !(m == d && other == name) ==>
      Lookup(RmFile(fs, d, name), m, other) == Lookup(fs, m, other)
    ensures Live(fs, m) && m != d ==>
      && m < |RmFile(fs, d, name).table| && RmFile(fs, d, name).table[m] == fs.table[m]
      && SlotAt(RmFile(fs, d, name), m, k) == SlotAt(fs, m, k)
  {
    hide Inv;
    hide Unlink;
    hide FreeSectors;
    hide Lookup;
    hide SlotAt;
    Space.InvShape(fs);
    if Lookup(fs, d, name).Some? {
      var c := Lookup(fs, d, name).value;
      LookupNames(fs, d, name);
      UnlinkInv(fs, d, name, 0, false);
      UnlinkTable(fs, d, name, 0, false);
      var h := Unlink(fs, d, name, 0, false);
      FreedEffect(h, c);
      var g := RmFile(fs, d, name);
      assert g == ForgetInodeOf(FreeSectors(h, h.table[c].sectors, 0), c);
      SlotsKept(h, g);
      if m in fs.dirs && other != "" {
        UnlinkLookup(fs, d, name, m, other);
        SameSlotsLookup(h, g, m, other);
      }
      if Live(fs, m) {
        UnlinkSlots(fs, d, name, 0, false, m, k);
      }
    }
  }

  /** A directory with no name after its first two and no second sector. */
  ghost predicate HoldsNothing(fs: Fs, c: nat) {
    && (forall k: nat :: 2 <= k < ENTRIES ==> NameOf(fs, c, k) == "")
    && forall i :: 1 <= i < SECTORS ==> Sector(fs, c, i) == 0
  }

  lemma EmptyIff(fs: Fs, c: nat)
    ensures DirIsEmpty(fs, c) <==> HoldsNothing(fs, c)
  {
    if DirIsEmpty(fs, c) {
      forall k: nat | 2 <= k < ENTRIES ensures NameOf(fs, c, k) == "" {}
    }
    if HoldsNothing(fs, c) {
      forall k: nat | 2 <= k < ENTRIES ensures SlotAt(fs, c, k).Some? ==> SlotAt(fs, c, k).value.name == "" {
        assert NameOf(fs, c, k) == "";
      }
    }
  }

  /** rmdir of an empty directory: the name is gone and the inode free, no other inode is, and of the blocks at most one
      that the parent gives back; of any other directory: nothing changes. */
  lemma RmDirRemoves(fs: Fs, d: nat, name: string)
    requires Inv(fs) && d in fs.dirs && d < |fs.table| && Ordinary(name) && Lookup(fs, d, name).Some?
    ensures var c, g := Lookup(fs, d, name).value, RmDir(fs, d, name);
      if !HoldsNothing(fs, c) then g == fs
      else
        && Live(fs, c) && !Live(g, c) && (forall m :: m != c ==> (Live(g, m) <==> Live(fs, m)))
        && g.dirs == fs.dirs - {c} && Lookup(g, d, name) == None && |g.blockBits| == |fs.blockBits|
        && forall b :: 0 <= b < |fs.blockBits| ==> (g.blockBits[b] <==> fs.blockBits[b] && StillHas(fs, g, d, b))
  {
    hide Inv;
    hide Unlink;
    hide Lookup;
    hide DirIsEmpty;
    hide HoldsNothing;
    Space.InvShape(fs);
    var c := Lookup(fs, d, name).value;
    EmptyIff(fs, c);
    if DirIsEmpty(fs, c) {
      LookupNames(fs, d, name);
      UnlinkInv(fs, d, name, 0, false);
      UnlinkBits(fs, d, name);
      UnlinkLookup(fs, d, name, d, name);
      var h, g := Unlink(fs, d, name, 0, false), RmDir(fs, d, name);
      SlotsKept(h, g);
      SameSlotsLookup(h, g, d, name);
      SameTableStillHas(fs, h, g, d);
    }
  }

  lemma RmDirKeeps(fs: Fs, d: nat, name: string, m: nat, other: string, k: nat)
    requires Inv(fs) && d in fs.dirs && d < |fs.table| && Ordinary(name) && k < SLOTS && Lookup(fs, d, name).Some?
    ensures m in fs.dirs && other != "" && !(m == d && other == name) ==>
      Lookup(RmDir(fs, d, name), m, other) == Lookup(fs, m, other)
    ensures Live(fs, m) && m != d ==>
      && m < |RmDir(fs, d, name).table| && RmDir(fs, d, name).table[m] == fs.table[m]
      && SlotAt(RmDir(fs, d, name), m, k) == SlotAt(fs, m, k)
  {
    hide Inv;
    hide Unlink;
    hide Lookup;
    hide DirIsEmpty;
    hide SlotAt;
    Space.InvShape(fs);
    if DirIsEmpty(fs, Lookup(fs, d, name).value) {
      LookupNames(fs, d, name);
      UnlinkInv(fs, d, name, 0, false);
      UnlinkTable(fs, d, name, 0, false);
      var h, g := Unlink(fs, d, name, 0, false), RmDir(fs, d, name);
      SlotsKept(h, g);
      if m in fs.dirs && other != "" {
        UnlinkLookup(fs, d, name, m, other);
        SameSlotsLookup(h, g, m, other);
      }
      if Live(fs, m) {
        UnlinkSlots(fs, d, name, 0, false, m, k);
      }
    }
  }

  // ----- What the entries of a directory say

  function InoAt(fs: Fs, d: nat, k: nat): Option<nat> {
    if SlotAt(fs, d, k).Some? then Some(SlotAt(fs, d, k).value.ino) else None
  }

  /** The first entry of a directory names the directory itself; the second names the directory that holds its entry,
      and the root for the root; an entry has kind Dir exactly when it names a directory. */
  ghost predicate EntriesRight(fs: Fs) {
    && (forall d: nat :: d in fs.dirs ==> InoAt(fs, d, 0) == Some(d))
    && InoAt(fs, ROOT, 1) == Some(ROOT)
    && (forall e: nat, k: nat, d: nat :: Names(fs, e, k, d) && d in fs.dirs ==> InoAt(fs, d, 1) == Some(e))
    && (forall e: nat, k: nat, d: nat :: Names(fs, e, k, d) ==> (SlotAt(fs, e, k).value.kind == Dir <==> d in fs.dirs))
  }

  /** Entries may go, and entries of kind File may be added for inode `n`; directories may go once nothing
      names them. */
  ghost predicate OnlyFiles(fs: Fs, g: Fs, n: nat) {
    && g.dirs <= fs.dirs && ROOT in g.dirs && n !in g.dirs
    && (forall d: nat :: d in g.dirs ==> SlotAt(g, d, 0) == SlotAt(fs, d, 0) && SlotAt(g, d, 1) == SlotAt(fs, d, 1))
    && (forall e: nat, k: nat, d: nat :: Names(g, e, k, d) ==>
          if d == n then SlotAt(g, e, k).value.kind == File
          else SlotAt(g, e, k) == SlotAt(fs, e, k) && e in fs.dirs && (d in fs.dirs ==> d in g.dirs))
  }

  lemma OnlyFilesRight(fs: Fs, g: Fs, n: nat)
    requires EntriesRight(fs) && OnlyFiles(fs, g, n)
    ensures EntriesRight(g)
  {
    hide SlotAt;
    forall e: nat, k: nat, d: nat | Names(g, e, k, d)
      ensures d in g.dirs ==> InoAt(g, d, 1) == Some(e)
      ensures SlotAt(g, e, k).value.kind == Dir <==> d in g.dirs
    {
      if d != n {
        assert Names(fs, e, k, d);
      }
    }
  }

  /** The slots of all directories are the same. */
  lemma SameSlotsRight(fs: Fs, g: Fs)
    requires EntriesRight(fs) && g.dirs == fs.dirs && ROOT in g.dirs
    requires forall d: nat, k: nat :: d in fs.dirs && k < SLOTS ==> SlotAt(g, d, k) == SlotAt(fs, d, k)
    ensures EntriesRight(g)
  {
    forall e: nat, k: nat, d: nat | Names(g, e, k, d) ensures Names(fs, e, k, d) {}
  }

  lemma OwnNames(fs: Fs, d: nat)
    requires Inv(fs) && d in fs.dirs
    ensures NameOf(fs, d, 0) == "." && NameOf(fs, d, 1) == ".." && ROOT in fs.dirs && Live(fs, d)
  {
    assert NameAt(fs, d, 0, ".") && NameAt(fs, d, 1, "..");
  }

  /** Making an entry, or failing to: its name is the only one added. */
  lemma MadeKept(fs: Fs, d: nat, name: string, kind: EntryKind)
    requires Inv(fs) && d in fs.dirs && Ordinary(name) && MakeSpace(fs, d, name, kind)
    ensures var g, n := Space.Made(fs, d, name, kind), FirstClear(fs.inodeBits, 0);
      && g.dirs == fs.dirs && n !in fs.dirs
      && (forall e: nat :: e in fs.dirs ==> SlotAt(g, e, 0) == SlotAt(fs, e, 0) && SlotAt(g, e, 1) == SlotAt(fs, e, 1))
      && forall e: nat, k: nat, x: nat :: Names(g, e, k, x) ==>
           (e == d && x == n && SlotAt(g, e, k).value.kind == kind) || (SlotAt(g, e, k) == SlotAt(fs, e, k) && x != n)
  {
    hide Inv;
    hide MakeSpace;
    hide Space.GetsEntry;
    hide SlotAt;
    var at := MadeSlots(fs, d, name, kind);
    MadeDirs(fs, d, name, kind);
    var g, n := Space.Made(fs, d, name, kind), FirstClear(fs.inodeBits, 0);
    hide Space.Made;
    hide FirstClear;
    forall e: nat | e in fs.dirs ensures SlotAt(g, e, 0) == SlotAt(fs, e, 0) && SlotAt(g, e, 1) == SlotAt(fs, e, 1) {
      OwnNames(fs, e);
    }
    forall e: nat, k: nat, x: nat | Names(g, e, k, x)
      ensures (e == d && x == n && SlotAt(g, e, k).value.kind == kind) ||
        (SlotAt(g, e, k) == SlotAt(fs, e, k) && x != n)
    {
      OwnNames(fs, e);
      if e == d && NameOf(fs, d, k) == "" {
        assert NameOf(g, d, k) != "";
      } else {
        assert SlotAt(g, e, k) == SlotAt(fs, e, k);
        LiveNamed(fs, e, k, x);
      }
    }
  }

  lemma LiveNamed(fs: Fs, e: nat, k: nat, x: nat)
    requires Inv(fs) && Names(fs, e, k, x)
    ensures Live(fs, x)
  {}

  lemma MadeDirs(fs: Fs, d: nat, name: string, kind: EntryKind)
    requires Inv(fs) && MakeSpace(fs, d, name, kind)
    ensures Space.Made(fs, d, name, kind).dirs == fs.dirs && FirstClear(fs.inodeBits, 0) !in fs.dirs
  {
    hide LinkEntry;
    Space.SpaceParts(fs, d, name, kind);
    var n := FirstClear(fs.inodeBits, 0);
    NewInodeInv(fs, n);
    Space.LinkDirs(NewInode(fs, n), d, Entry(name, n, kind));
    hide MakeSpace;
  }

  lemma MkFileRight(fs: Fs, d: nat, name: string)
    requires Inv(fs) && EntriesRight(fs) && d in fs.dirs && Ordinary(name) && MakeSpace(fs, d, name, File)
    ensures EntriesRight(MkFile(fs, d, name))
  {
    hide Inv;
    hide LinkEntry;
    hide EntriesRight;
    OwnNames(fs, d);
    MadeKept(fs, d, name, File);
    var g, n := Space.Made(fs, d, name, File), FirstClear(fs.inodeBits, 0);
    assert MkFile(fs, d, name) == g;
    hide Space.Made;
    hide SlotAt;
    assert OnlyFiles(fs, g, n);
    OnlyFilesRight(fs, g, n);
  }

  lemma MkDirRight(fs: Fs, d: nat, name: string)
    requires Inv(fs) && EntriesRight(fs) && d in fs.dirs && Ordinary(name) && MakeSpace(fs, d, name, Dir)
    ensures EntriesRight(MkDir(fs, d, name))
  {
    hide Inv;
    hide LinkEntry;
    hide MkDir;
    hide InitChild;
    hide MakeSpace;
    hide SlotAt;
    hide FreshDirectory;
    MadeKept(fs, d, name, Dir);
    MkDirSteps(fs, d, name);
    var h, n := Space.Made(fs, d, name, Dir), FirstClear(fs.inodeBits, 0);
    hide Space.Made;
    var b := FirstClear(h.blockBits, 0);
    hide FirstClear;
    Space.SectorsMarked(h, n);
    InitChildSlotsAll(h, d, n, b);
    NewEntries(n, d);
    var g := InitChild(h, d, n, b);
    assert forall e: nat :: e in fs.dirs ==> Live(h, e) by {
      forall e: nat | e in fs.dirs ensures Live(h, e) { OwnNames(h, e); }
    }
    OwnNames(fs, d);
    assert forall e: nat, k: nat :: e in fs.dirs && k < SLOTS ==> SlotAt(g, e, k) == SlotAt(h, e, k);
    NewDirectoryRight(fs, h, g, d, n);
  }

  lemma NewEntries(n: nat, d: nat)
    ensures FreshDirectory(n, d)[0] == Entry(".", n, Dir) && FreshDirectory(n, d)[1] == Entry("..", d, Dir)
    ensures forall k: nat :: k < ENTRIES ==> !Ordinary(FreshDirectory(n, d)[k].name)
  {}

  lemma NewDirectoryRight(fs: Fs, h: Fs, g: Fs, d: nat, n: nat)
    requires EntriesRight(fs) && h.dirs == fs.dirs && n !in fs.dirs && g.dirs == fs.dirs + {n} && d in fs.dirs
    requires ROOT in fs.dirs
    requires forall e: nat :: e in fs.dirs ==>
      SlotAt(h, e, 0) == SlotAt(fs, e, 0) && SlotAt(h, e, 1) == SlotAt(fs, e, 1)
    requires forall e: nat, k: nat, x: nat :: Names(h, e, k, x) ==>
      (e == d && x == n && SlotAt(h, e, k).value.kind == Dir) || (SlotAt(h, e, k) == SlotAt(fs, e, k) && x != n)
    requires forall e: nat, k: nat :: e in fs.dirs && k < SLOTS ==> SlotAt(g, e, k) == SlotAt(h, e, k)
    requires forall k: nat :: k < SLOTS ==>
      SlotAt(g, n, k) == if k < ENTRIES then Some(FreshDirectory(n, d)[k]) else None
    requires FreshDirectory(n, d)[0] == Entry(".", n, Dir) && FreshDirectory(n, d)[1] == Entry("..", d, Dir)
    requires forall k: nat :: k < ENTRIES ==> !Ordinary(FreshDirectory(n, d)[k].name)
    ensures EntriesRight(g)
  {
    hide SlotAt;
    hide FreshDirectory;
    forall e: nat, k: nat, x: nat | Names(g, e, k, x)
      ensures x in g.dirs ==> InoAt(g, x, 1) == Some(e)
      ensures SlotAt(g, e, k).value.kind == Dir <==> x in g.dirs
    {
      if e != n {
        assert Names(h, e, k, x);
        if x != n {
          assert Names(fs, e, k, x);
        }
      }
    }
  }

  /** Removing an entry. */
  lemma UnlinkKept(fs: Fs, d: nat, name: string)
    requires Inv(fs) && d in fs.dirs && d < |fs.table| && Ordinary(name)
    ensures var g := Unlink(fs, d, name, 0, false);
      && g.dirs == fs.dirs
      && (forall e: nat :: e in fs.dirs ==> SlotAt(g, e, 0) == SlotAt(fs, e, 0) && SlotAt(g, e, 1) == SlotAt(fs, e, 1))
      && forall e: nat, k: nat, x: nat :: Names(g, e, k, x) ==> SlotAt(g, e, k) == SlotAt(fs, e, k)
  {
    hide Inv;
    hide Unlink;
    hide SlotAt;
    hide Lookup;
    Space.InvShape(fs);
    var g := Unlink(fs, d, name, 0, false);
    UnlinkInv(fs, d, name, 0, false);
    forall e: nat | e in fs.dirs ensures SlotAt(g, e, 0) == SlotAt(fs, e, 0) && SlotAt(g, e, 1) == SlotAt(fs, e, 1) {
      OwnNames(fs, e);
      UnlinkSlots(fs, d, name, 0, false, e, 0);
      UnlinkSlots(fs, d, name, 0, false, e, 1);
    }
    UnlinkLookup(fs, d, name, d, name);
    forall e: nat, k: nat, x: nat | Names(g, e, k, x) ensures SlotAt(g, e, k) == SlotAt(fs, e, k) {
      OwnNames(fs, e);
      UnlinkSlots(fs, d, name, 0, false, e, k);
      if e == d {
        GoneName(g, d, name, k);
      }
    }
  }

  lemma GoneName(g: Fs, d: nat, name: string, k: nat)
    requires Lookup(g, d, name) == None && k < SLOTS && name != ""
    ensures NameOf(g, d, k) != name
  {
    assert !NameAt(g, d, k, name);
  }

  /** After removing an entry, slots unchanged since, and directories that went with nothing naming them. */
  lemma RemovedRight(fs: Fs, d: nat, name: string, g: Fs)
    requires Inv(fs) && EntriesRight(fs) && d in fs.dirs && d < |fs.table| && Ordinary(name)
    requires g.dirs <= fs.dirs && ROOT in g.dirs
    requires forall e: nat, k: nat :: e in g.dirs ==> SlotAt(g, e, k) == SlotAt(Unlink(fs, d, name, 0, false), e, k)
    requires forall e: nat, k: nat, x: nat :: x in fs.dirs && x !in g.dirs ==>
      !Names(Unlink(fs, d, name, 0, false), e, k, x)
    ensures EntriesRight(g)
  {
    hide Inv;
    hide Unlink;
    hide SlotAt;
    Space.InvShape(fs);
    UnlinkKept(fs, d, name);
    var h := Unlink(fs, d, name, 0, false);
    forall e: nat, k: nat, x: nat | Names(g, e, k, x)
      ensures Names(h, e, k, x) && Names(fs, e, k, x) && (x in fs.dirs ==> x in g.dirs)
    {
      assert Names(h, e, k, x);
    }
  }

  lemma RmFileRight(fs: Fs, d: nat, name: string)
    requires Inv(fs) && EntriesRight(fs) && d in fs.dirs && d < |fs.table| && Ordinary(name)
    requires Lookup(fs, d, name).Some? ==> Lookup(fs, d, name).value !in fs.dirs
    ensures EntriesRight(RmFile(fs, d, name))
  {
    hide Inv;
    hide Unlink;
    hide FreeSectors;
    hide Lookup;
    hide SlotAt;
    Space.InvShape(fs);
    if Lookup(fs, d, name).Some? {
      var c := Lookup(fs, d, name).value;
      OwnNames(fs, d);
      LookupNames(fs, d, name);
      UnlinkInv(fs, d, name, 0, false);
      UnlinkTable(fs, d, name, 0, false);
      var h := Unlink(fs, d, name, 0, false);
      FreedEffect(h, c);
      var g := RmFile(fs, d, name);
      assert g == ForgetInodeOf(FreeSectors(h, h.table[c].sectors, 0), c);
      SlotsKept(h, g);
      hide EntriesRight;
      RemovedRight(fs, d, name, g);
    }
  }

  lemma RmDirRight(fs: Fs, d: nat, name: string)
    requires Inv(fs) && EntriesRight(fs) && d in fs.dirs && d < |fs.table| && Ordinary(name)
    requires Lookup(fs, d, name).Some?
    ensures EntriesRight(RmDir(fs, d, name))
  {
    hide Inv;
    hide Unlink;
    hide Lookup;
    hide DirIsEmpty;
    hide SlotAt;
    hide EntriesRight;
    Space.InvShape(fs);
    var c := Lookup(fs, d, name).value;
    if DirIsEmpty(fs, c) {
      OwnNames(fs, d);
      LookupNames(fs, d, name);
      UnlinkInv(fs, d, name, 0, false);
      UnlinkUnnames(fs, d, name);
      var h, g := Unlink(fs, d, name, 0, false), RmDir(fs, d, name);
      SlotsKept(h, g);
      RemovedRight(fs, d, name, g);
    }
  }

  lemma CopyRight(fs: Fs, d: nat, name: string, e: nat, dst: string)
    requires Inv(fs) && EntriesRight(fs) && Transferable(fs, d, name, e, dst)
    requires CopyRoom(MkFile(fs, e, dst), d, name, e, dst)
    ensures EntriesRight(CopyFile(fs, d, name, e, dst))
  {
    hide Inv;
    hide MkFile;
    hide Lookup;
    hide CopySectors;
    hide Copyable;
    hide SlotAt;
    hide EntriesRight;
    MkFileInv(fs, e, dst);
    MkFileRight(fs, e, dst);
    var g := MkFile(fs, e, dst);
    LookupNames(g, d, name);
    LookupNames(g, e, dst);
    var s, t := Lookup(g, d, name).value, Lookup(g, e, dst).value;
    var src := g.table[s].sectors;
    CopySectorsInv(g, src, t, 0);
    var c := CopySectors(g, src, t, 0);
    forall m: nat, k: nat | m in g.dirs && k < SLOTS
      ensures SlotAt(WithSize(c, t, g.table[s].size), m, k) == SlotAt(g, m, k)
    {
      OwnNames(g, m);
      SourceBlocks(g, s, k);
      CopyContents(g, src, t, 0, m, k);
      SizeOnly(c, t, g.table[s].size, m, k);
    }
    OwnNames(g, d);
    SameSlotsRight(g, WithSize(c, t, g.table[s].size));
  }

  lemma MoveRight(fs: Fs, d: nat, name: string, e: nat, dst: string)
    requires Inv(fs) && EntriesRight(fs) && Transferable(fs, d, name, e, dst)
    ensures EntriesRight(MoveFile(fs, d, name, e, dst))
  {
    hide Inv;
    hide MkFile;
    hide Lookup;
    hide Unlink;
    hide SlotAt;
    hide EntriesRight;
    MkFileInv(fs, e, dst);
    MkFileRight(fs, e, dst);
    var g := MkFile(fs, e, dst);
    Space.InvShape(g);
    DirInTable(g, d);
    LookupNames(g, d, name);
    LookupNames(g, e, dst);
    UnlinkInv(g, d, name, 0, false);
    UnlinkTable(g, d, name, 0, false);
    OwnNames(g, d);
    var s, t := Lookup(g, d, name).value, Lookup(g, e, dst).value;
    var h := Unlink(g, d, name, 0, false);
    var r := MoveInode(h, s, t, g.table[s]);
    forall m: nat, k: nat | m in g.dirs ensures SlotAt(r, m, k) == SlotAt(h, m, k) {
      MovedElsewhere(h, s, t, g.table[s], m, k);
    }
    RemovedRight(g, d, name, r);
  }

  lemma MovedElsewhere(fs: Fs, s: nat, t: nat, inode: Inode, m: nat, k: nat)
    requires s < |fs.inodeBits| && t < |fs.table| && m != t
    ensures SlotAt(MoveInode(fs, s, t, inode), m, k) == SlotAt(fs, m, k)
  {}

  /** The sector loops of write_file change the contents of no other inode, and none of the file's kept sectors. */
  lemma {:induction false} ResizeSlots(fs: Fs, n: nat, sectors: seq<nat>, start: nat, last: nat, i: nat)
    requires WellFormed(fs) && Resizable(fs, n, sectors, start, last, i)
    ensures var g := Resize(fs, n, sectors, start, last, i);
      && g.disk == fs.disk && g.dataStart == fs.dataStart && |g.blockBits| == |fs.blockBits| && g.dirs == fs.dirs
      && |g.table| == |fs.table| && forall m :: 0 <= m < |fs.table| && m != n ==> g.table[m] == fs.table[m]
    decreases SECTORS - i
  {
    if i < SECTORS {
      if start <= i <= last && sectors[i] == 0 {
        ResizeSlots(Assign(fs, n, i, FirstClear(fs.blockBits, 0)), n, sectors, start, last, i + 1);
      } else if i > last && sectors[i] != 0 {
        NothingLacking(sectors, start, last, i + 1);
        ResizeSlots(Release(fs, n, i), n, sectors, start, last, i + 1);
      } else {
        ResizeSlots(fs, n, sectors, start, last, i + 1);
      }
    }
  }

  /** Same disk, same sectors: the same contents. */
  lemma SameInodeSlots(fs: Fs, g: Fs, m: nat, k: nat)
    requires g.disk == fs.disk && g.dataStart == fs.dataStart && |g.blockBits| == |fs.blockBits|
    requires Sector(g, m, k / ENTRIES) == Sector(fs, m, k / ENTRIES)
    ensures SlotAt(g, m, k) == SlotAt(fs, m, k)
  {}

  /** Seen through contents: every other inode reads as before, and so does each sector of the file that stays. */
  lemma ResizeKeepsContents(fs: Fs, n: nat, start: nat, last: nat, m: nat, k: nat)
    requires WellFormed(fs) && n < |fs.table| && Resizable(fs, n, fs.table[n].sectors, start, last, 0) && k < SLOTS
    ensures var g := Resize(fs, n, fs.table[n].sectors, start, last, 0);
      m != n || (k / ENTRIES <= last && Sector(fs, n, k / ENTRIES) != 0) ==> SlotAt(g, m, k) == SlotAt(fs, m, k)
  {
    hide Resize;
    hide SlotAt;
    var sectors := fs.table[n].sectors;
    ResizeSlots(fs, n, sectors, start, last, 0);
    var g := Resize(fs, n, sectors, start, last, 0);
    if m == n {
      ResizeSectors(fs, n, sectors, start, last, 0, k / ENTRIES);
    }
    if m != n || (k / ENTRIES <= last && Sector(fs, n, k / ENTRIES) != 0) {
      SameInodeSlots(fs, g, m, k);
    }
  }

  lemma ResizeRight(fs: Fs, n: nat, start: nat, last: nat)
    requires Inv(fs) && EntriesRight(fs) && n !in fs.dirs && n < |fs.table|
    requires Resizable(fs, n, fs.table[n].sectors, start, last, 0)
    ensures WellFormed(fs) && EntriesRight(Resize(fs, n, fs.table[n].sectors, start, last, 0))
  {
    hide Inv;
    hide Resize;
    hide Resizable;
    hide SlotAt;
    hide EntriesRight;
    Space.InvShape(fs);
    var g := Resize(fs, n, fs.table[n].sectors, start, last, 0);
    ResizeSlots(fs, n, fs.table[n].sectors, start, last, 0);
    forall d: nat, k: nat | d in fs.dirs && k < SLOTS ensures SlotAt(g, d, k) == SlotAt(fs, d, k) {
      ResizeKeepsContents(fs, n, start, last, d, k);
    }
    RootThere(fs);
    SameSlotsRight(fs, g);
  }

  lemma RootThere(fs: Fs)
    requires Inv(fs)
    ensures ROOT in fs.dirs
  {}

  lemma WriteRight(fs: Fs, n: nat, i: nat, entries: seq<Entry>)
    requires Inv(fs) && EntriesRight(fs) && Live(fs, n) && n !in fs.dirs && i < SECTORS && Sector(fs, n, i) != 0
    requires |entries| == ENTRIES && IsBlock(fs, Sector(fs, n, i))
    ensures EntriesRight(WriteBlock(fs, BlockOf(fs, n, i), entries))
  {
    hide Owned;
    hide Entries;
    hide EntriesRight;
    hide SlotAt;
    var g := WriteBlock(fs, BlockOf(fs, n, i), entries);
    forall d: nat, k: nat | d in fs.dirs && k < SLOTS ensures SlotAt(g, d, k) == SlotAt(fs, d, k) {
      DirInTable(fs, d);
      SlotsAfterWrite(fs, n, i, entries, d, k);
    }
    SameSlotsRight(fs, g);
  }

  lemma AfterRight(fs: Fs, c: Call)
    requires Inv(fs) && EntriesRight(fs) && Enabled(fs, c)
    ensures EntriesRight(After(fs, c))
  {
    hide Inv;
    hide EntriesRight;
    match c
    case CallMkDir(d, name) => MkDirRight(fs, d, name);
    case CallMkFile(d, name) => MkFileRight(fs, d, name);
    case CallRmDir(d, name) => RmDirRight(fs, d, name);
    case CallRmFile(d, name) => RmFileRight(fs, d, name);
    case CallCopy(d, name, e, dst) => CopyRight(fs, d, name, e, dst);
    case CallMove(d, name, e, dst) => MoveRight(fs, d, name, e, dst);
    case CallResize(n, start, last) => ResizeRight(fs, n, start, last);
    case CallWrite(n, i, entries) =>
      Space.SourceSector(fs, n, i);
      WriteRight(fs, n, i, entries);
  }

  lemma InstalledRight(fs: Fs)
    requires Installed(fs)
    ensures EntriesRight(fs)
  {
    InstalledInv(fs);
    assert Sector(fs, ROOT, 0) == fs.dataStart && forall i :: 0 < i < SECTORS ==> Sector(fs, ROOT, i) == 0;
    SmallSlot(0);
    SmallSlot(1);
    assert SlotAt(fs, ROOT, 0) == Some(fs.disk[0][0]) && SlotAt(fs, ROOT, 1) == Some(fs.disk[0][1]);
    forall d: nat, k: nat, n: nat ensures !Names(fs, d, k, n) {
      if k < ENTRIES {
        SmallSlot(k);
      }
    }
  }

  /** In every run from a freshly installed partition the entries say what they should. */
  lemma {:induction false} EveryEntryRight(states: seq<Fs>, calls: seq<Call>, n: nat)
    requires IsRun(states, calls) && n < |states|
    ensures EntriesRight(states[n])
  {
    hide Inv;
    hide EntriesRight;
    hide Enabled;
    hide After;
    hide Installed;
    if n == 0 {
      InstalledRight(states[0]);
    } else {
      EveryEntryRight(states, calls, n - 1);
      EveryState(states, calls, n - 1);
      AfterRight(states[n - 1], calls[n - 1]);
    }
  }
}
