/** A run of file system calls after which the next mkfile leaves a dangling entry: a file's block is written so that it
    reads as a directory entry for a dead inode, the file is removed, and the root directory is filled until it has to
    grow by that block (fs/dir.cc:195-212). The partition has eight inodes and two blocks. */
module StaleBlockRun {
  import opened Options
  import opened FileSystem
  import opened Bitmaps

  const INODES := 8

  /** The name of the file in slot `k`. */
  function Name(k: nat): string { seq(k, _ => 'f') }

  function Used(n: nat): seq<bool> { seq(INODES, i => i < n) }

  const BLANK: seq<Entry> :=
    [FREE_SLOT, FREE_SLOT, FREE_SLOT, FREE_SLOT, FREE_SLOT, FREE_SLOT, FREE_SLOT]

  /** What the file's block is written to: read as entries, the second names inode 7. */
  const STALE: seq<Entry> := BLANK[1 := Entry("ghost", 7, File)]

  /** The root directory with `m` files. */
  function RootBlock(m: nat): (r: seq<Entry>)
    ensures |r| == ENTRIES
  {
    seq(ENTRIES, k requires 0 <= k < ENTRIES =>
      if k == 0 then Entry(".", ROOT, Dir) else if k == 1 then Entry("..", ROOT, Dir)
      else if k < 2 + m then Entry(Name(k), k - 1, File) else FREE_SLOT)
  }

  const EMPTY := Inode(0, NO_SECTORS)
  const TABLE: seq<Inode> := [Inode(0, NO_SECTORS[0 := 1]), EMPTY, EMPTY, EMPTY, EMPTY, EMPTY, EMPTY, EMPTY]

  function Disk(inodes: nat, file: bool, table: seq<Inode>, root: seq<Entry>, block: seq<Entry>): Fs {
    Fs(1, Used(inodes), [true, file], table, [root, block], {ROOT})
  }

  /** The partition after `m` files, the second block free. */
  function Filled(m: nat): Fs { Disk(m + 1, false, TABLE, RootBlock(m), STALE) }

  // ----- One mkfile

  /** The root directory as such a partition has it: `m` files in the first slots, the rest free. */
  ghost predicate RootOk(fs: Fs, m: nat) {
    && |fs.table| == INODES && |fs.disk| == 2 && fs.dataStart == 1 && |fs.blockBits| == 2
    && fs.table[ROOT] == Inode(0, NO_SECTORS[0 := 1]) && |fs.disk[0]| == ENTRIES
    && fs.disk[0][0].name == "." && fs.disk[0][1].name == ".." && fs.inodeBits == Used(m + 1) && m < 6
    && (forall k :: 2 <= k < ENTRIES ==> fs.disk[0][k].name == if k < 2 + m then Name(k) else "")
    && (forall i :: 0 <= i < INODES ==> |fs.table[i].sectors| == SECTORS) && |fs.disk[1]| == ENTRIES
  }

  lemma RootSlots(fs: Fs, m: nat)
    requires RootOk(fs, m)
    ensures forall k: nat :: SlotAt(fs, ROOT, k) == if k < ENTRIES then Some(fs.disk[0][k]) else None
  {
    forall k: nat ensures SlotAt(fs, ROOT, k) == if k < ENTRIES then Some(fs.disk[0][k]) else None {
      if k < ENTRIES {
        SmallSlot(k);
      } else {
        assert k / ENTRIES >= 1;
      }
    }
  }

  lemma NewName(fs: Fs, m: nat, name: string)
    requires RootOk(fs, m) && Ordinary(name) && forall k :: 2 <= k < 2 + m ==> Name(k) != name
    ensures FindName(fs, ROOT, name, 0) == SLOTS
    ensures m < 5 ==> FindName(fs, ROOT, "", 0) == 2 + m
    ensures m == 5 ==> FindName(fs, ROOT, "", 0) == SLOTS
  {
    RootSlots(fs, m);
    if m < 5 {
      FindIs(fs, ROOT, "", 2 + m);
    }
  }

  lemma NextInode(m: nat)
    requires m < INODES - 1
    ensures FirstClear(Used(m + 1), 0) == m + 1 && Used(m + 1)[m + 1 := true] == Used(m + 2)
  {
    var bits := Used(m + 1);
    assert forall j :: 0 <= j < m + 1 ==> bits[j];
    assert !bits[m + 1];
  }

  lemma NamesDiffer(m: nat)
    ensures forall k: nat :: k < m ==> Name(k) != Name(m)
    ensures m >= 2 ==> Ordinary(Name(m))
  {
    assert forall k: nat :: |Name(k)| == k;
    if m >= 2 {
      assert Name(m)[0] == 'f';
    }
  }

  lemma MkFileStep(fs: Fs, m: nat)
    requires WellFormed(fs) && RootOk(fs, m) && m < 5
    ensures var name := Name(2 + m);
      && Ordinary(name) && MakeSpace(fs, ROOT, name, File)
      && MkFile(fs, ROOT, name) ==
         fs.(inodeBits := Used(m + 2), table := fs.table[m + 1 := Inode(0, NO_SECTORS)],
             disk := fs.disk[0 := fs.disk[0][2 + m := Entry(name, m + 1, File)]])
  {
    var name := Name(2 + m);
    NextInode(m);
    NamesDiffer(2 + m);
    var h := NewInode(fs, m + 1);
    RootSlots(fs, m);
    forall k: nat ensures SlotAt(h, ROOT, k) == SlotAt(fs, ROOT, k) {}
    NewName(fs, m, name);
    SameFind(fs, h, ROOT, name);
    SameFind(fs, h, ROOT, "");
    SmallSlot(2 + m);
  }

  // ----- The run

  const AFTER_MAKE: Fs := Disk(2, false, TABLE, RootBlock(1), BLANK)
  const FILE_TABLE: seq<Inode> := TABLE[1 := Inode(0, NO_SECTORS[0 := 2])]
  const AFTER_RESIZE: Fs := Disk(2, true, FILE_TABLE, RootBlock(1), BLANK)
  const AFTER_WRITE: Fs := Disk(2, true, FILE_TABLE, RootBlock(1), STALE)
  const AFTER_REMOVE: Fs := Disk(1, false, FILE_TABLE, RootBlock(0)[2 := Entry("", 1, File)], STALE)

  lemma FreshRootOk()
    ensures var fs := Disk(1, false, TABLE, RootBlock(0), BLANK); RootOk(fs, 0) && WellFormed(fs)
  {}

  lemma MadeInstalled()
    ensures Installed(Disk(1, false, TABLE, RootBlock(0), BLANK))
  {
    assert RootBlock(0) == FreshDirectory(ROOT, ROOT);
  }

  lemma Made()
    ensures Installed(Disk(1, false, TABLE, RootBlock(0), BLANK))
    ensures Enabled(Disk(1, false, TABLE, RootBlock(0), BLANK), CallMkFile(ROOT, Name(2)))
    ensures MkFile(Disk(1, false, TABLE, RootBlock(0), BLANK), ROOT, Name(2)) == AFTER_MAKE
  {
    hide Installed;
    hide MkFile;
    hide MakeSpace;
    hide RootOk;
    var fs := Disk(1, false, TABLE, RootBlock(0), BLANK);
    MadeInstalled();
    FreshRootOk();
    MkFileStep(fs, 0);
    assert RootBlock(0)[2 := Entry(Name(2), 1, File)] == RootBlock(1);
    assert TABLE[1 := Inode(0, NO_SECTORS)] == TABLE;
  }

  lemma {:induction false} NothingToResize(fs: Fs, n: nat, sectors: seq<nat>, i: nat)
    requires WellFormed(fs) && Resizable(fs, n, sectors, 0, 0, i) && i >= 1
    requires forall j :: 1 <= j < SECTORS ==> sectors[j] == 0
    ensures Resize(fs, n, sectors, 0, 0, i) == fs
    decreases SECTORS - i
  {
    if i < SECTORS {
      NothingToResize(fs, n, sectors, i + 1);
    }
  }

  lemma Resized()
    ensures Enabled(AFTER_MAKE, CallResize(1, 0, 0))
    ensures Resize(AFTER_MAKE, 1, AFTER_MAKE.table[1].sectors, 0, 0, 0) == AFTER_RESIZE
  {
    var fs := AFTER_MAKE;
    NothingLacking(NO_SECTORS, 0, 0, 1);
    assert Lacking(NO_SECTORS, 0, 0, 0) == 1;
    assert FirstClear([true, false], 0) == FirstClear([true, false], 1) == 1;
    assert Room([true, false], 2, 1);
    assert [true, false][1 := true] == [true, true];
    NothingToResize(Assign(fs, 1, 0, 1), 1, NO_SECTORS, 1);
  }

  lemma Written()
    ensures Enabled(AFTER_RESIZE, CallWrite(1, 0, STALE))
    ensures After(AFTER_RESIZE, CallWrite(1, 0, STALE)) == AFTER_WRITE
  {}

  lemma {:induction false} NothingToUnlink(fs: Fs, d: nat, name: string, i: nat, found: bool)
    requires WellFormed(fs) && d < |fs.table| && 1 <= i <= SECTORS
    requires forall j :: 1 <= j < SECTORS ==> Sector(fs, d, j) == 0
    ensures Unlink(fs, d, name, i, found) == fs
    decreases SECTORS - i
  {
    if i < SECTORS {
      NothingToUnlink(fs, d, name, i + 1, found);
    }
  }

  lemma {:induction false} NothingToFree(fs: Fs, sectors: seq<nat>, i: nat)
    requires 1 <= i <= |sectors| && forall j :: 1 <= j < |sectors| ==> sectors[j] == 0
    ensures FreeSectors(fs, sectors, i) == fs
    decreases |sectors| - i
  {
    if i < |sectors| {
      NothingToFree(fs, sectors, i + 1);
    }
  }

  lemma Found()
    ensures Lookup(AFTER_WRITE, ROOT, Name(2)) == Some(1)
  {
    NamesDiffer(2);
    RootSlots(AFTER_WRITE, 1);
    FindIs(AFTER_WRITE, ROOT, Name(2), 2);
  }

  const CLEARED: seq<Entry> := RootBlock(0)[2 := Entry("", 1, File)]

  lemma Cleared()
    ensures ClearName(RootBlock(1), Name(2)) == CLEARED && HasName(RootBlock(1), Name(2)) && !AllFree(CLEARED)
  {
    var entries := ClearName(RootBlock(1), Name(2));
    NamesDiffer(2);
    forall k | 0 <= k < ENTRIES ensures entries[k] == CLEARED[k] {}
    assert RootBlock(1)[2].name == Name(2) && CLEARED[0].name == ".";
  }

  /** Unlinking the file empties its slot and keeps the root's block. */
  lemma Unlinked()
    ensures Unlink(AFTER_WRITE, ROOT, Name(2), 0, false) == Disk(2, true, FILE_TABLE, CLEARED, STALE)
  {
    hide FindName;
    hide ClearName;
    hide HasName;
    hide AllFree;
    hide RootBlock;
    hide Name;
    var fs, name := AFTER_WRITE, Name(2);
    Cleared();
    var g := WriteBlock(fs, 0, CLEARED);
    NothingToUnlink(g, ROOT, name, 1, true);
    assert Sector(fs, ROOT, 0) == 1;
    assert Unlink(fs, ROOT, name, 0, false) == Unlink(g, ROOT, name, 1, true);
  }

  lemma Removed()
    ensures Enabled(AFTER_WRITE, CallRmFile(ROOT, Name(2)))
    ensures RmFile(AFTER_WRITE, ROOT, Name(2)) == AFTER_REMOVE
  {
    hide Unlink;
    hide Lookup;
    NamesDiffer(2);
    Found();
    Unlinked();
    var g := Unlink(AFTER_WRITE, ROOT, Name(2), 0, false);
    var sectors := NO_SECTORS[0 := 2];
    var f := g.(blockBits := [true, true][1 := false]);
    NothingToFree(f, sectors, 1);
    assert FreeSectors(g, sectors, 0) == f;
    assert Used(2)[1 := false] == Used(1);
  }

  lemma Refilled()
    ensures Enabled(AFTER_REMOVE, CallMkFile(ROOT, Name(2)))
    ensures MkFile(AFTER_REMOVE, ROOT, Name(2)) == Filled(1)
  {
    MkFileStep(AFTER_REMOVE, 0);
    assert RootBlock(0)[2 := Entry("", 1, File)][2 := Entry(Name(2), 1, File)] == RootBlock(1);
    assert FILE_TABLE[1 := Inode(0, NO_SECTORS)] == TABLE;
  }

  lemma FilledOk(m: nat)
    requires m <= 5
    ensures RootOk(Filled(m), m) && WellFormed(Filled(m))
  {}

  lemma FilledMore(m: nat)
    requires 1 <= m < 5
    ensures Enabled(Filled(m), CallMkFile(ROOT, Name(2 + m)))
    ensures MkFile(Filled(m), ROOT, Name(2 + m)) == Filled(m + 1)
  {
    hide RootOk;
    hide MkFile;
    hide MakeSpace;
    FilledOk(m);
    MkFileStep(Filled(m), m);
    assert RootBlock(m)[2 + m := Entry(Name(2 + m), m + 1, File)] == RootBlock(m + 1);
    assert TABLE[m + 1 := Inode(0, NO_SECTORS)] == TABLE;
  }

  /** The same file made twice. */
  lemma MadeTwice() returns (states: seq<Fs>, calls: seq<Call>)
    ensures IsRun(states, calls) && |calls| == 2 && calls == [CallMkFile(ROOT, Name(2)), CallMkFile(ROOT, Name(2))]
    ensures Lookup(states[0], ROOT, Name(2)) == None && Lookup(states[1], ROOT, Name(2)) != None
    ensures |states[0].table| == INODES && CanLink(states[0], ROOT)
  {
    hide Enabled;
    hide Installed;
    hide MkFile;
    hide Lookup;
    hide CanLink;
    Made();
    FoundMade();
    MkFileCall(AFTER_MAKE);
    var c := CallMkFile(ROOT, Name(2));
    states := [Disk(1, false, TABLE, RootBlock(0), BLANK), AFTER_MAKE, After(AFTER_MAKE, c)];
    calls := [c, c];
  }

  lemma MkFileCall(fs: Fs)
    requires Enabled(fs, CallMkFile(ROOT, Name(2)))
    ensures WellFormed(fs) && |fs.table| > ROOT && FirstClear(fs.inodeBits, 0) < |fs.table|
  {}

  lemma FoundMade()
    ensures Lookup(AFTER_MAKE, ROOT, Name(2)) == Some(1) && Enabled(AFTER_MAKE, CallMkFile(ROOT, Name(2)))
    ensures var fs := Disk(1, false, TABLE, RootBlock(0), BLANK); Lookup(fs, ROOT, Name(2)) == None && CanLink(fs, ROOT)
  {
    var fs := Disk(1, false, TABLE, RootBlock(0), BLANK);
    NamesDiffer(2);
    NewName(fs, 0, Name(2));
    RootSlots(AFTER_MAKE, 1);
    FindIs(AFTER_MAKE, ROOT, Name(2), 2);
    NextInode(1);
    var h := NewInode(AFTER_MAKE, 2);
    forall k: nat ensures SlotAt(h, ROOT, k) == SlotAt(AFTER_MAKE, ROOT, k) {}
    SameFind(AFTER_MAKE, h, ROOT, Name(2));
  }

  /** From a freshly installed partition nine calls lead to a full root directory whose next block is stale. */
  lemma StaleRun() returns (states: seq<Fs>, calls: seq<Call>)
    ensures IsRun(states, calls) && |calls| == 9 && states[9] == Filled(5)
  {
    hide Enabled;
    hide Installed;
    hide RmFile;
    hide MkFile;
    hide Resize;
    Made();
    Resized();
    Written();
    Removed();
    Refilled();
    FilledMore(1);
    FilledMore(2);
    FilledMore(3);
    FilledMore(4);
    states := [Disk(1, false, TABLE, RootBlock(0), BLANK), AFTER_MAKE, AFTER_RESIZE, AFTER_WRITE, AFTER_REMOVE,
               Filled(1), Filled(2), Filled(3), Filled(4), Filled(5)];
    calls := [CallMkFile(ROOT, Name(2)), CallResize(1, 0, 0), CallWrite(1, 0, STALE), CallRmFile(ROOT, Name(2)),
              CallMkFile(ROOT, Name(2)), CallMkFile(ROOT, Name(3)), CallMkFile(ROOT, Name(4)),
                CallMkFile(ROOT, Name(5)),
              CallMkFile(ROOT, Name(6))];
  }

  /** One more mkfile, and the root directory has an entry for an inode that is not in use. */
  lemma StaleRunDangles() returns (states: seq<Fs>, calls: seq<Call>)
    ensures IsRun(states, calls) && |calls| == 9
    ensures WellFormed(states[9]) && |states[9].table| == INODES && FirstClear(states[9].inodeBits, 0) < INODES
    ensures !Inv(MkFile(states[9], ROOT, Name(7)))
  {
    hide Inv;
    hide MkFile;
    states, calls := StaleRun();
    EveryState(states, calls, 9);
    FilledOk(5);
    NextInode(5);
    FullRootDangles();
  }

  /** Names in the full root, and the inode and block the next mkfile takes. */
  lemma FullRoot()
    ensures var h := NewInode(Filled(5), 6);
      && FindName(h, ROOT, Name(7), 0) == SLOTS && FindName(h, ROOT, "", 0) == SLOTS && Ordinary(Name(7))
      && FirstZero(h.table[ROOT].sectors, 0) == 1 && FirstClear(h.blockBits, 0) == 1
  {
    hide RootBlock;
    hide RootOk;
    hide FindName;
    var fs, h := Filled(5), NewInode(Filled(5), 6);
    NamesDiffer(7);
    FilledOk(5);
    NewName(fs, 5, Name(7));
    NewInodeSlots(fs, 6, ROOT);
    SameFind(fs, h, ROOT, Name(7));
    SameFind(fs, h, ROOT, "");
    assert FirstClear([true, false], 0) == FirstClear([true, false], 1) == 1;
    assert FirstZero(TABLE[ROOT].sectors, 0) == FirstZero(TABLE[ROOT].sectors, 1) == 1;
  }

  lemma FullRootDangles()
    requires Inv(Filled(5))
    ensures WellFormed(Filled(5)) && FirstClear(Filled(5).inodeBits, 0) == 6 && !Inv(MkFile(Filled(5), ROOT, Name(7)))
  {
    hide Inv;
    hide FindName;
    hide LinkEntry;
    hide RootBlock;
    FilledOk(5);
    NextInode(5);
    FullRoot();
    NewInodeInv(Filled(5), 6);
    RootIsDirectory(Filled(5));
    StaleBlockDangles(NewInode(Filled(5), 6), ROOT, Entry(Name(7), 6, File), 1);
  }

  lemma RootIsDirectory(fs: Fs)
    requires Inv(fs)
    ensures ROOT in fs.dirs && WellFormed(fs)
  {}
}
