/** fs/dir.cc, fs/file.cc and fs/inode.cc as they run: loops over sectors and entries on an in-memory copy of the inode,
    blocks read and written one at a time. Each method is proved to do what module FileSystem says. */
module FileSystemObject {
  import opened Options
  import opened FileSystem
  import opened Bitmaps

  /** Sectors in use lie on the disk. */
  ghost predicate SectorsOk(fs: Fs, d: nat) {
    WellFormed(fs) && d < |fs.table| && forall i :: 0 <= i < SECTORS && Sector(fs, d, i) != 0 ==>
      IsBlock(fs, Sector(fs, d, i))
  }

  lemma {:induction false} FindSkip(fs: Fs, d: nat, name: string, k: nat, n: nat)
    requires k <= n <= SLOTS && forall j :: k <= j < n ==> !NameAt(fs, d, j, name)
    ensures FindName(fs, d, name, k) == FindName(fs, d, name, n)
    decreases n - k
  {
    if k < n {
      FindSkip(fs, d, name, k + 1, n);
    }
  }

  lemma NoSectorNoSlot(fs: Fs, d: nat, i: nat)
    requires Sector(fs, d, i) == 0
    ensures forall k :: ENTRIES * i <= k < ENTRIES * (i + 1) ==> SlotAt(fs, d, k) == None
  {}

  lemma SlotIs(fs: Fs, d: nat, i: nat, j: nat)
    requires SectorsOk(fs, d) && i < SECTORS && j < ENTRIES && Sector(fs, d, i) != 0
    ensures SlotAt(fs, d, ENTRIES * i + j) == Some(fs.disk[BlockOf(fs, d, i)][j])
  {
    assert (ENTRIES * i + j) / ENTRIES == i && (ENTRIES * i + j) % ENTRIES == j;
  }

  /** The first position of a name in a sector, or ENTRIES. */
  ghost predicate IsFirst(buf: seq<Entry>, name: string, j: nat) {
    && j <= |buf| == ENTRIES && (j < ENTRIES ==> buf[j].name == name) && forall x :: 0 <= x < j ==> buf[x].name != name
  }

  /** Searching a directory sector by sector. */
  lemma FindInSector(fs: Fs, d: nat, i: nat, name: string, j: nat)
    requires SectorsOk(fs, d) && i < SECTORS && Sector(fs, d, i) != 0 && IsFirst(fs.disk[BlockOf(fs, d, i)], name, j)
    ensures FindName(fs, d, name, ENTRIES * i) ==
      if j < ENTRIES then ENTRIES * i + j else FindName(fs, d, name, ENTRIES * (i + 1))
    ensures j < ENTRIES ==> SlotAt(fs, d, ENTRIES * i + j) == Some(fs.disk[BlockOf(fs, d, i)][j])
  {
    forall k | ENTRIES * i <= k < ENTRIES * i + j ensures !NameAt(fs, d, k, name) {
      SlotIs(fs, d, i, k - ENTRIES * i);
    }
    FindSkip(fs, d, name, ENTRIES * i, ENTRIES * i + j);
    if j < ENTRIES {
      SlotIs(fs, d, i, j);
    }
  }

  lemma FindInNoSector(fs: Fs, d: nat, i: nat, name: string)
    requires i < SECTORS && Sector(fs, d, i) == 0
    ensures FindName(fs, d, name, ENTRIES * i) == FindName(fs, d, name, ENTRIES * (i + 1))
  {
    NoSectorNoSlot(fs, d, i);
    FindSkip(fs, d, name, ENTRIES * i, ENTRIES * (i + 1));
  }

  lemma BlockInRange(fs: Fs, d: nat, i: nat)
    requires SectorsOk(fs, d) && i < SECTORS && Sector(fs, d, i) != 0
    ensures Sector(fs, d, i) == fs.table[d].sectors[i] >= fs.dataStart
    ensures BlockOf(fs, d, i) < |fs.disk| && |fs.disk[BlockOf(fs, d, i)]| == ENTRIES
    ensures BlockOf(fs, d, i) < |fs.blockBits|
  {}

  class Partition {
    const dataStart: nat
    var inodeBits: seq<bool>
    var blockBits: seq<bool>
    var table: seq<Inode>
    var disk: seq<seq<Entry>>
    ghost var dirs: set<nat>

    ghost function View(): Fs
      reads this
    {
      Fs(dataStart, inodeBits, blockBits, table, disk, dirs)
    }

    constructor (fs: Fs)
      ensures View() == fs
    {
      dataStart, inodeBits, blockBits, table, disk := fs.dataStart, fs.inodeBits, fs.blockBits, fs.table, fs.disk;
      dirs := fs.dirs;
    }

    /** bitmap_scan for one bit. */
    static method Scan(bits: seq<bool>) returns (r: nat)
      ensures r == FirstClear(bits, 0)
    {
      r := 0;
      while r < |bits| && bits[r]
        invariant r <= |bits| && FirstClear(bits, r) == FirstClear(bits, 0)
      {
        r := r + 1;
      }
    }

    static method SearchSector(buf: seq<Entry>, name: string) returns (j: nat)
      requires |buf| == ENTRIES
      ensures IsFirst(buf, name, j)
    {
      j := 0;
      while j < ENTRIES && buf[j].name != name
        invariant j <= ENTRIES && forall x :: 0 <= x < j ==> buf[x].name != name
      {
        j := j + 1;
      }
    }

    /** find_dir_entry: the inode number of the first entry with that name. */
    method FindDirEntry(d: nat, name: string) returns (r: Option<nat>)
      requires SectorsOk(View(), d) && name != ""
      ensures r == Lookup(View(), d, name)
    {
      hide FindName;
      hide SlotAt;
      hide IsFirst;
      ghost var fs := View();
      var inode := table[d];
      var i := 0;
      while i < SECTORS
        invariant 0 <= i <= SECTORS
        invariant FindName(fs, d, name, 0) == FindName(fs, d, name, ENTRIES * i)
      {
        if inode.sectors[i] != 0 {
          BlockInRange(fs, d, i);
          var buf := disk[inode.sectors[i] - dataStart];
          var j := SearchSector(buf, name);
          FindInSector(fs, d, i, name, j);
          if j < ENTRIES {
            return Some(buf[j].ino);
          }
        } else {
          FindInNoSector(fs, d, i, name);
        }
        i := i + 1;
      }
      return None;
    }

    /** The search of create_dir_entry: whether the name is there, and the first free slot. */
    method SearchDirectory(d: nat, name: string) returns (taken: bool, free: nat)
      requires SectorsOk(View(), d) && name != ""
      ensures taken <==> FindName(View(), d, name, 0) < SLOTS
      ensures !taken ==> free == FindName(View(), d, "", 0)
    {
      hide FindName;
      hide SlotAt;
      hide IsFirst;
      ghost var fs := View();
      var inode := table[d];
      taken, free := false, SLOTS;
      var i := 0;
      while i < SECTORS
        invariant 0 <= i <= SECTORS && !taken && free <= SLOTS
        invariant FindName(fs, d, name, 0) == FindName(fs, d, name, ENTRIES * i)
        invariant FindName(fs, d, "", 0) == if free < SLOTS then free else FindName(fs, d, "", ENTRIES * i)
      {
        if inode.sectors[i] != 0 {
          BlockInRange(fs, d, i);
          var buf := disk[inode.sectors[i] - dataStart];
          var j := SearchSector(buf, name);
          FindInSector(fs, d, i, name, j);
          if j < ENTRIES {
            return true, free;
          }
          var k := SearchSector(buf, "");
          FindInSector(fs, d, i, "", k);
          if k < ENTRIES && free == SLOTS {
            free := ENTRIES * i + k;
          }
        } else {
          FindInNoSector(fs, d, i, name);
          FindInNoSector(fs, d, i, "");
        }
        i := i + 1;
      }
    }

    method CreateDirEntry(d: nat, e: Entry)
      requires SectorsOk(View(), d) && e.name != ""
      modifies this`disk, this`table, this`blockBits
      ensures View() == LinkEntry(old(View()), d, e)
    {
      hide FindName;
      hide SlotAt;
      ghost var fs := View();
      var taken, free := SearchDirectory(d, e.name);
      if taken {
        return;
      }
      if free < SLOTS {
        FoundSlot(fs, d, "");
        var b := table[d].sectors[free / ENTRIES] - dataStart;
        disk := disk[b := disk[b][free % ENTRIES := e]];
        return;
      }
      GrowDirectory(d, e);
    }

    lemma FoundSlot(fs: Fs, d: nat, name: string)
      requires SectorsOk(fs, d) && FindName(fs, d, name, 0) < SLOTS
      ensures var k := FindName(fs, d, name, 0);
        && SlotAt(fs, d, k).Some? && k / ENTRIES < SECTORS && Sector(fs, d, k / ENTRIES) >= fs.dataStart
        && BlockOf(fs, d, k / ENTRIES) < |fs.disk| && |fs.disk[BlockOf(fs, d, k / ENTRIES)]| == ENTRIES
    {}

    /** No free slot: the first unused sector gets a fresh block. */
    method GrowDirectory(d: nat, e: Entry)
      requires WellFormed(View()) && d < |table|
      modifies this`disk, this`table, this`blockBits
      ensures var fs := old(View());
        var i, b := FirstZero(fs.table[d].sectors, 0), FirstClear(fs.blockBits, 0);
        View() == if i < SECTORS && b < |fs.blockBits| && b < |fs.disk| then Grow(fs, d, i, b, e) else fs
    {
      var i := 0;
      while i < SECTORS && table[d].sectors[i] != 0
        invariant 0 <= i <= SECTORS && FirstZero(table[d].sectors, 0) == FirstZero(table[d].sectors, i)
      {
        i := i + 1;
      }
      if i < SECTORS {
        var b := Scan(blockBits);
        if b < |blockBits| && b < |disk| {
          disk := disk[b := disk[b][0 := e]];
          blockBits := blockBits[b := true];
          table := table[d := table[d].(sectors := table[d].sectors[i := dataStart + b])];
        }
      }
    }

    /** One sector of remove_dir_entry: clear matching names and count the free slots. */
    method ClearSector(b: nat, name: string) returns (found: bool, allFree: bool)
      requires b < |disk| && |disk[b]| == ENTRIES && name != ""
      modifies this`disk
      ensures disk == old(disk)[b := ClearName(old(disk)[b], name)]
      ensures found == HasName(old(disk)[b], name) && allFree == AllFree(disk[b])
    {
      ghost var was := disk[b];
      var buf, emptyCnts, j := disk[b], 0, 0;
      found := false;
      while j < ENTRIES
        invariant 0 <= j <= ENTRIES && |buf| == ENTRIES && |disk| == |old(disk)|
        invariant forall x :: 0 <= x < j ==> buf[x] == ClearName(was, name)[x]
        invariant forall x :: j <= x < ENTRIES ==> buf[x] == was[x]
        invariant disk[b] == buf && forall x :: 0 <= x < |disk| && x != b ==> disk[x] == old(disk)[x]
        invariant found == exists x :: 0 <= x < j && was[x].name == name
        invariant 0 <= emptyCnts <= j && (emptyCnts == j <==> forall x :: 0 <= x < j ==> buf[x].name == "")
      {
        if buf[j].name == name {
          found := true;
          buf := buf[j := buf[j].(name := "")];
          emptyCnts := emptyCnts + 1;
          disk := disk[b := buf];
        } else if buf[j].name == "" {
          emptyCnts := emptyCnts + 1;
        }
        j := j + 1;
      }
      assert buf == ClearName(was, name);
      allFree := emptyCnts == ENTRIES;
    }

    method RemoveDirEntry(d: nat, name: string)
      requires SectorsOk(View(), d) && name != ""
      modifies this`disk, this`table, this`blockBits
      ensures View() == Unlink(old(View()), d, name, 0, false)
    {
      hide Unlink;
      hide ClearName;
      hide HasName;
      hide AllFree;
      ghost var fs := View();
      var isFound, i := false, 0;
      while i < SECTORS
        invariant 0 <= i <= SECTORS && SectorsOk(View(), d)
        invariant dirs == fs.dirs && inodeBits == fs.inodeBits
        invariant Unlink(View(), d, name, i, isFound) == Unlink(fs, d, name, 0, false)
      {
        ghost var s := View();
        UnlinkStep(s, d, name, i, isFound);
        if table[d].sectors[i] != 0 {
          BlockInRange(s, d, i);
          var b := table[d].sectors[i] - dataStart;
          var found, allFree := ClearSector(b, name);
          assert View() == WriteBlock(s, b, ClearName(s.disk[b], name));
          isFound := isFound || found;
          if isFound && allFree {
            blockBits := blockBits[b := false];
            table := table[d := table[d].(sectors := table[d].sectors[i := 0])];
            return;
          }
          WrittenSectorsOk(s, d, b, ClearName(s.disk[b], name));
        }
        i := i + 1;
      }
      UnlinkEnd(View(), d, name, isFound);
    }

    lemma UnlinkEnd(fs: Fs, d: nat, name: string, found: bool)
      requires WellFormed(fs) && d < |fs.table|
      ensures Unlink(fs, d, name, SECTORS, found) == fs
    {}

    lemma WrittenSectorsOk(fs: Fs, d: nat, b: nat, entries: seq<Entry>)
      requires SectorsOk(fs, d) && b < |fs.disk| && |entries| == ENTRIES
      ensures SectorsOk(WriteBlock(fs, b, entries), d)
    {
      assert forall i :: Sector(WriteBlock(fs, b, entries), d, i) == Sector(fs, d, i);
    }

    lemma UnlinkStep(fs: Fs, d: nat, name: string, i: nat, found: bool)
      requires SectorsOk(fs, d) && i < SECTORS
      ensures Sector(fs, d, i) == 0 ==> Unlink(fs, d, name, i, found) == Unlink(fs, d, name, i + 1, found)
      ensures Sector(fs, d, i) != 0 ==>
        var b := BlockOf(fs, d, i);
        var entries := ClearName(fs.disk[b], name);
        var now := found || HasName(fs.disk[b], name);
        var g := WriteBlock(fs, b, entries);
        Unlink(fs, d, name, i, found) == if now && AllFree(entries) then Release(g, d, i)
          else Unlink(g, d, name, i + 1, now)
    {
      if Sector(fs, d, i) != 0 {
        BlockInRange(fs, d, i);
      }
    }

    method FreeInodeSectors(sectors: seq<nat>)
      requires forall i :: 0 <= i < |sectors| && sectors[i] != 0 ==> IsBlock(View(), sectors[i])
      modifies this`blockBits
      ensures View() == FreeSectors(old(View()), sectors, 0)
    {
      var i := 0;
      while i < |sectors|
        invariant 0 <= i <= |sectors| && |blockBits| == |old(blockBits)|
        invariant FreeSectors(View(), sectors, i) == FreeSectors(old(View()), sectors, 0)
      {
        if sectors[i] != 0 {
          assert IsBlock(View(), sectors[i]);
          blockBits := blockBits[sectors[i] - dataStart := false];
        }
        i := i + 1;
      }
    }

    /** create_inode followed by sync_inode. */
    method CreateInode() returns (n: nat)
      requires FirstClear(inodeBits, 0) < |table| <= |inodeBits|
      modifies this`inodeBits, this`table
      ensures n == FirstClear(old(inodeBits), 0) && View() == NewInode(old(View()), n)
    {
      n := Scan(inodeBits);
      inodeBits := inodeBits[n := true];
      table := table[n := Inode(0, NO_SECTORS)];
    }

    method SysMkfile(d: nat, name: string)
      requires Inv(View()) && d in dirs && Ordinary(name) && MakeSpace(View(), d, name, File)
      modifies this
      ensures Inv(View()) && View() == MkFile(old(View()), d, name)
    {
      hide Inv;
      hide LinkEntry;
      hide LinkSpace;
      MkFileInv(View(), d, name);
      NewInodeSectors(View(), d);
      var n := CreateInode();
      CreateDirEntry(d, Entry(name, n, File));
    }

    method SysMkdir(d: nat, name: string)
      requires Inv(View()) && d in dirs && Ordinary(name) && MakeSpace(View(), d, name, Dir)
      modifies this
      ensures Inv(View()) && View() == MkDir(old(View()), d, name)
    {
      hide Inv;
      hide LinkEntry;
      hide LinkSpace;
      hide FirstClear;
      ghost var fs := View();
      MkDirInv(fs, d, name);
      NewInodeSectors(fs, d);
      LinkedSectors(fs, d, name);
      var n := CreateInode();
      CreateDirEntry(d, Entry(name, n, Dir));
      var b := Scan(blockBits);
      disk := disk[b := [Entry(".", n, Dir), Entry("..", d, Dir),
                         FREE_SLOT, FREE_SLOT, FREE_SLOT, FREE_SLOT, FREE_SLOT]];
      blockBits := blockBits[b := true];
      table := table[n := table[n].(sectors := table[n].sectors[0 := dataStart + b])];
      dirs := dirs + {n};
    }

    method SysRmfile(d: nat, name: string)
      requires Inv(View()) && d in dirs && d < |table| && Ordinary(name)
      requires Lookup(View(), d, name).Some? ==> Lookup(View(), d, name).value !in dirs
      modifies this
      ensures Inv(View()) && View() == RmFile(old(View()), d, name)
    {
      hide Inv;
      hide Unlink;
      hide FreeSectors;
      hide Lookup;
      ghost var fs := View();
      RmFileInv(fs, d, name);
      DirSectors(fs, d);
      var found := FindDirEntry(d, name);
      if found == None {
        return;
      }
      var c := found.value;
      FileSectors(fs, d, name);
      var sectors := table[c].sectors;
      RemoveDirEntry(d, name);
      FreeInodeSectors(sectors);
      FreeSectorsEffect(Unlink(fs, d, name, 0, false), sectors, 0);
      inodeBits := inodeBits[c := false];
      dirs := dirs - {c};
    }

    /** dir_is_empty on the first sector and the list of the others. */
    method CheckEmpty(c: nat) returns (empty: bool)
      requires SectorsOk(View(), c) && Sector(View(), c, 0) != 0
      ensures empty == DirIsEmpty(View(), c)
    {
      ghost var fs := View();
      BlockInRange(fs, c, 0);
      var inode := table[c];
      var buf := disk[inode.sectors[0] - dataStart];
      var k := 2;
      while k < ENTRIES
        invariant 2 <= k <= ENTRIES
        invariant forall j :: 2 <= j < k ==> SlotAt(fs, c, j).Some? && SlotAt(fs, c, j).value.name == ""
      {
        SlotIs(fs, c, 0, k);
        if buf[k].name != "" {
          return false;
        }
        k := k + 1;
      }
      var i := 1;
      while i < SECTORS
        invariant 1 <= i <= SECTORS && forall j :: 1 <= j < i ==> Sector(fs, c, j) == 0
      {
        assert inode.sectors[i] == Sector(fs, c, i);
        if inode.sectors[i] != 0 {
          return false;
        }
        i := i + 1;
      }
      return true;
    }

    method SysRmdir(d: nat, name: string)
      requires Inv(View()) && d in dirs && d < |table| && Ordinary(name)
      requires Lookup(View(), d, name).Some? && Lookup(View(), d, name).value in dirs
      modifies this
      ensures Inv(View()) && View() == RmDir(old(View()), d, name)
    {
      hide Inv;
      hide Unlink;
      hide Lookup;
      hide DirIsEmpty;
      ghost var fs := View();
      RmDirInv(fs, d, name);
      DirSectors(fs, d);
      var found := FindDirEntry(d, name);
      var c := found.value;
      DirSectors(fs, c);
      DirHasSector(fs, c);
      UnlinkedBits(fs, d, name, c);
      var empty := CheckEmpty(c);
      if !empty {
        return;
      }
      RemoveDirEntry(d, name);
      inodeBits := inodeBits[c := false];
      dirs := dirs - {c};
    }

    /** copy_file after the destination entry has been made: `s` and `n` are the two inode numbers. */
    method CopyContents(s: nat, n: nat)
      requires Inv(View()) && Live(View(), s) && Live(View(), n) && n !in dirs
      requires Copyable(View(), table[s].sectors, 0)
      modifies this`disk, this`blockBits, this`table
      ensures var g := CopySectors(old(View()), old(table)[s].sectors, n, 0);
        n < |g.table| && View() == WithSize(g, n, old(table)[s].size)
    {
      hide Inv;
      hide CopySectors;
      hide Copyable;
      hide WellFormed;
      ghost var fs := View();
      WellFormedTable(fs);
      SectorCount(fs, s);
      SectorCount(fs, n);
      CopySectorsInv(fs, table[s].sectors, n, 0);
      var src, dst := table[s], table[n];
      ghost var cur := fs;
      assert table[n := dst] == table;
      var i := 0;
      while i < SECTORS
        invariant 0 <= i <= SECTORS && table == fs.table && dirs == fs.dirs && inodeBits == fs.inodeBits
        invariant cur == View().(table := table[n := dst]) && WellFormed(cur) && |dst.sectors| == SECTORS
        invariant Copyable(cur, src.sectors, i)
        invariant CopySectors(cur, src.sectors, n, i) == CopySectors(fs, src.sectors, n, 0)
      {
        CopyStep(cur, src.sectors, n, i);
        if src.sectors[i] != 0 {
          var b := Scan(blockBits);
          cur := Assign(WriteBlock(cur, b, cur.disk[src.sectors[i] - dataStart]), n, i, b);
          blockBits := blockBits[b := true];
          dst := dst.(sectors := dst.sectors[i := dataStart + b]);
          disk := disk[b := disk[src.sectors[i] - dataStart]];
          assert cur.table == table[n := dst];
        }
        i := i + 1;
      }
      CopyEnd(cur, src.sectors, n);
      table := table[n := dst.(size := src.size)];
    }

    /** The two sector loops of write_file on the inode `n`: allocate, then give back. */
    method SetSectors(n: nat, start: nat, last: nat)
      requires WellFormed(View()) && n < |table| && Resizable(View(), n, table[n].sectors, start, last, 0)
      modifies this`blockBits, this`table
      ensures View() == Resize(old(View()), n, old(table)[n].sectors, start, last, 0)
    {
      hide Resize;
      hide Resizable;
      hide WellFormed;
      ghost var fs := View();
      var sectors := table[n].sectors;
      SectorCount(fs, n);
      LastInRange(fs, n, sectors, start, last);
      var i := 0;
      while i < last + 1
        invariant 0 <= i <= last + 1 <= SECTORS && n < |table| && |table[n].sectors| == SECTORS && WellFormed(View())
        invariant Resizable(View(), n, sectors, start, last, i)
        invariant Resize(View(), n, sectors, start, last, i) == Resize(fs, n, sectors, start, last, 0)
      {
        ResizeStep(View(), n, sectors, start, last, i);
        if i >= start && table[n].sectors[i] == 0 {
          var b := Scan(blockBits);
          blockBits := blockBits[b := true];
          table := table[n := table[n].(sectors := table[n].sectors[i := dataStart + b])];
        }
        i := i + 1;
      }
      while i < SECTORS
        invariant last < i <= SECTORS && n < |table| && |table[n].sectors| == SECTORS && WellFormed(View())
        invariant Resizable(View(), n, sectors, start, last, i)
        invariant Resize(View(), n, sectors, start, last, i) == Resize(fs, n, sectors, start, last, 0)
      {
        ResizeStep(View(), n, sectors, start, last, i);
        if table[n].sectors[i] != 0 {
          blockBits := blockBits[table[n].sectors[i] - dataStart := false];
          table := table[n := table[n].(sectors := table[n].sectors[i := 0])];
        }
        i := i + 1;
      }
      ResizeEnd(View(), n, sectors, start, last);
    }

    /** copy_file. */
    method SysCopy(d: nat, name: string, e: nat, dst: string)
      requires Inv(View()) && Transferable(View(), d, name, e, dst)
      requires CopyRoom(MkFile(View(), e, dst), d, name, e, dst)
      modifies this
      ensures Inv(View()) && View() == CopyFile(old(View()), d, name, e, dst)
    {
      hide Inv;
      hide MkFile;
      hide Lookup;
      hide CopySectors;
      ghost var fs := View();
      CopyFileInv(fs, d, name, e, dst);
      SysMkfile(e, dst);
      ghost var g := View();
      Resolved(fs, d, name, e, dst);
      var s := FindDirEntry(d, name);
      var t := FindDirEntry(e, dst);
      CopyContents(s.value, t.value);
    }

    /** move_file: the sector numbers change hands one by one, then the source's entry and inode go. */
    method SysMove(d: nat, name: string, e: nat, dst: string)
      requires Inv(View()) && Transferable(View(), d, name, e, dst)
      modifies this
      ensures Inv(View()) && View() == MoveFile(old(View()), d, name, e, dst)
    {
      hide Inv;
      hide MkFile;
      hide Lookup;
      hide Unlink;
      ghost var fs := View();
      MoveFileInv(fs, d, name, e, dst);
      SysMkfile(e, dst);
      Resolved(fs, d, name, e, dst);
      ghost var g := View();
      var s := FindDirEntry(d, name);
      var t := FindDirEntry(e, dst);
      var src, to := table[s.value], table[t.value];
      var i := 0;
      while i < SECTORS
        invariant 0 <= i <= SECTORS && View() == g && |to.sectors| == SECTORS
        invariant to.sectors[..i] == src.sectors[..i]
      {
        to := to.(sectors := to.sectors[i := src.sectors[i]]);
        assert to.sectors[..i + 1] == to.sectors[..i] + [src.sectors[i]];
        assert src.sectors[..i + 1] == src.sectors[..i] + [src.sectors[i]];
        i := i + 1;
      }
      assert to.sectors == to.sectors[..i] && src.sectors == src.sectors[..i];
      to := to.(size := src.size);
      assert to == src;
      RemoveDirEntry(d, name);
      inodeBits := inodeBits[s.value := false];
      table := table[t.value := to];
    }
  }

  /** After the destination has been made, both names resolve to live files. */
  lemma Resolved(fs: Fs, d: nat, name: string, e: nat, dst: string)
    requires Inv(fs) && Transferable(fs, d, name, e, dst)
    ensures var g := MkFile(fs, e, dst);
      var s, t := Lookup(g, d, name).value, Lookup(g, e, dst).value;
      && Inv(g) && g.dirs == fs.dirs && SectorsOk(g, d) && SectorsOk(g, e) && d < |g.table| && name != "" && dst != ""
      && Live(g, s) && Live(g, t) && |g.table[s].sectors| == SECTORS && |g.table[t].sectors| == SECTORS
      && Unlink(g, d, name, 0, false).inodeBits == g.inodeBits && |Unlink(g, d, name, 0, false).table| == |g.table|
  {
    MkFileInv(fs, e, dst);
    var g := MkFile(fs, e, dst);
    hide MkFile;
    DirSectors(g, d);
    DirSectors(g, e);
    LookupNames(g, d, name);
    LookupNames(g, e, dst);
    DirInTable(g, d);
    UnlinkInv(g, d, name, 0, false);
    UnlinkTable(g, d, name, 0, false);
  }

  lemma SectorCount(fs: Fs, n: nat)
    requires WellFormed(fs) && n < |fs.table|
    ensures |fs.table[n].sectors| == SECTORS
  {}

  lemma CopyStep(fs: Fs, src: seq<nat>, n: nat, i: nat)
    requires WellFormed(fs) && n < |fs.table| && Copyable(fs, src, i) && i < SECTORS
    ensures |src| == SECTORS
    ensures src[i] == 0 ==> Copyable(fs, src, i + 1) && CopySectors(fs, src, n, i) == CopySectors(fs, src, n, i + 1)
    ensures src[i] != 0 ==>
      var b := FirstClear(fs.blockBits, 0);
      && IsBlock(fs, src[i]) && b < |fs.blockBits| && b < |fs.disk| && |fs.table[n].sectors| == SECTORS
      && var g := Assign(WriteBlock(fs, b, fs.disk[src[i] - fs.dataStart]), n, i, b);
      && WellFormed(g) && Copyable(g, src, i + 1) && CopySectors(fs, src, n, i) == CopySectors(g, src, n, i + 1)
  {}

  lemma CopyEnd(fs: Fs, src: seq<nat>, n: nat)
    requires WellFormed(fs) && n < |fs.table| && Copyable(fs, src, SECTORS)
    ensures CopySectors(fs, src, n, SECTORS) == fs
  {}

  lemma LastInRange(fs: Fs, n: nat, sectors: seq<nat>, start: nat, last: nat)
    requires Resizable(fs, n, sectors, start, last, 0)
    ensures last < SECTORS && |sectors| == SECTORS
  {}

  /** One round of the loops, whichever applies to sector `i`. */
  lemma ResizeStep(fs: Fs, n: nat, sectors: seq<nat>, start: nat, last: nat, i: nat)
    requires WellFormed(fs) && Resizable(fs, n, sectors, start, last, i) && i < SECTORS
    ensures |sectors| == SECTORS && n < |fs.table| && |fs.table[n].sectors| == SECTORS
    ensures fs.table[n].sectors[i] == sectors[i]
    ensures start <= i <= last && sectors[i] == 0 ==>
      var b := FirstClear(fs.blockBits, 0);
      && b < |fs.blockBits|
      && var g := Assign(fs, n, i, b);
      && WellFormed(g) && Resizable(g, n, sectors, start, last, i + 1)
      && Resize(fs, n, sectors, start, last, i) == Resize(g, n, sectors, start, last, i + 1)
    ensures i > last && sectors[i] != 0 ==>
      && IsBlock(fs, sectors[i]) && Sector(fs, n, i) == sectors[i]
      && var g := Release(fs, n, i);
      && WellFormed(g) && Resizable(g, n, sectors, start, last, i + 1)
      && Resize(fs, n, sectors, start, last, i) == Resize(g, n, sectors, start, last, i + 1)
    ensures !(start <= i <= last && sectors[i] == 0) && !(i > last && sectors[i] != 0) ==>
      && Resizable(fs, n, sectors, start, last, i + 1)
      && Resize(fs, n, sectors, start, last, i) == Resize(fs, n, sectors, start, last, i + 1)
  {
    if i > last {
      NothingLacking(sectors, start, last, i + 1);
    }
  }

  lemma ResizeEnd(fs: Fs, n: nat, sectors: seq<nat>, start: nat, last: nat)
    requires WellFormed(fs) && Resizable(fs, n, sectors, start, last, SECTORS)
    ensures Resize(fs, n, sectors, start, last, SECTORS) == fs
  {}

  lemma WellFormedTable(fs: Fs)
    requires Inv(fs)
    ensures WellFormed(fs)
  {}

  lemma DirHasSector(fs: Fs, d: nat)
    requires Inv(fs) && d in fs.dirs
    ensures Sector(fs, d, 0) != 0
  {
    assert NameAt(fs, d, 0, ".");
  }

  lemma UnlinkedBits(fs: Fs, d: nat, name: string, c: nat)
    requires Inv(fs) && d in fs.dirs && d < |fs.table| && Ordinary(name) && c in fs.dirs
    ensures Unlink(fs, d, name, 0, false).inodeBits == fs.inodeBits && Unlink(fs, d, name, 0, false).dirs == fs.dirs
    ensures c < |fs.inodeBits|
  {
    assert Live(fs, c);
    UnlinkInv(fs, d, name, 0, false);
  }

  lemma DirSectors(fs: Fs, d: nat)
    requires Inv(fs) && d in fs.dirs
    ensures SectorsOk(fs, d)
  {
    assert Live(fs, d);
  }

  lemma NewInodeSectors(fs: Fs, d: nat)
    requires Inv(fs) && d in fs.dirs && FirstClear(fs.inodeBits, 0) < |fs.table|
    ensures |fs.table| <= |fs.inodeBits| && SectorsOk(NewInode(fs, FirstClear(fs.inodeBits, 0)), d)
  {
    var n := FirstClear(fs.inodeBits, 0);
    NewInodeInv(fs, n);
    DirSectors(NewInode(fs, n), d);
  }

  /** After linking, the new inode still has no sectors and there is a block for it. */
  lemma LinkedSectors(fs: Fs, d: nat, name: string)
    requires Inv(fs) && d in fs.dirs && Ordinary(name) && MakeSpace(fs, d, name, Dir)
    ensures var n := FirstClear(fs.inodeBits, 0);
      var g := LinkEntry(NewInode(fs, n), d, Entry(name, n, Dir));
      && n < |g.table| && |g.table[n].sectors| == SECTORS
      && FirstClear(g.blockBits, 0) < |g.blockBits| && FirstClear(g.blockBits, 0) < |g.disk|
  {
    MakeLinked(fs, d, name, Dir);
  }

  /** The sectors of a file about to be removed are blocks, before and after its entry goes. */
  lemma FileSectors(fs: Fs, d: nat, name: string)
    requires Inv(fs) && d in fs.dirs && d < |fs.table| && Ordinary(name) && Lookup(fs, d, name).Some?
    requires Lookup(fs, d, name).value !in fs.dirs
    ensures var c := Lookup(fs, d, name).value;
      var g := Unlink(fs, d, name, 0, false);
      && c < |fs.table| && c < |fs.inodeBits| && g.inodeBits == fs.inodeBits && g.dirs == fs.dirs
      && forall i :: 0 <= i < |fs.table[c].sectors| && fs.table[c].sectors[i] != 0 ==>
        IsBlock(g, fs.table[c].sectors[i])
  {
    var c := Lookup(fs, d, name).value;
    LookupNames(fs, d, name);
    UnlinkInv(fs, d, name, 0, false);
    UnlinkTable(fs, d, name, 0, false);
    var g := Unlink(fs, d, name, 0, false);
    hide Unlink;
    assert Live(g, c);
    forall i | 0 <= i < |fs.table[c].sectors| && fs.table[c].sectors[i] != 0
      ensures IsBlock(g, fs.table[c].sectors[i])
    {
      assert Sector(g, c, i) == fs.table[c].sectors[i];
    }
  }
}
