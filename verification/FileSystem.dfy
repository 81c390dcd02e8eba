/** Directories, inodes and block ownership of fs/dir.cc, fs/file.cc and fs/inode.cc. Paths are taken as resolved to a
    parent directory and a name; sector buffers are values. */
module FileSystem {
  import opened Options
  import opened Bitmaps

  const SECTORS := 9
  /** 512 / sizeof(struct dir_entry). */
  const ENTRIES := 7
  const SLOTS := SECTORS * ENTRIES
  const ROOT := 0

  datatype EntryKind = Dir | File

  /** An entry whose name is empty is a free slot. */
  datatype Entry = Entry(name: string, ino: nat, kind: EntryKind)

  /** A sector number of 0 means no block. */
  datatype Inode = Inode(size: nat, sectors: seq<nat>)

  /** The mounted partition. Every data block can be read as a block of entries. `dirs` are the inodes made as
      directories and not yet removed; the source does not store this. */
  datatype Fs = Fs(dataStart: nat, inodeBits: seq<bool>, blockBits: seq<bool>, table: seq<Inode>,
                   disk: seq<seq<Entry>>, dirs: set<nat>)

  const NO_SECTORS: seq<nat> := [0, 0, 0, 0, 0, 0, 0, 0, 0]
  const FREE_SLOT := Entry("", 0, Dir)

  predicate Ordinary(name: string) { name != "" && name != "." && name != ".." }

  // ----- Reading

  ghost predicate WellFormed(fs: Fs) {
    && fs.dataStart > 0 && |fs.table| <= |fs.inodeBits|
    && (forall n :: 0 <= n < |fs.table| ==> |fs.table[n].sectors| == SECTORS)
    && (forall b :: 0 <= b < |fs.disk| ==> |fs.disk[b]| == ENTRIES)
  }

  predicate Live(fs: Fs, ino: nat) {
    ino < |fs.table| && ino < |fs.inodeBits| && fs.inodeBits[ino]
  }

  /** Sector `i` of inode `ino`, 0 if there is none. */
  function Sector(fs: Fs, ino: nat, i: nat): nat {
    if ino < |fs.table| && i < |fs.table[ino].sectors| then fs.table[ino].sectors[i] else 0
  }

  /** The data block with that sector number exists. */
  predicate IsBlock(fs: Fs, lba: nat) {
    fs.dataStart <= lba < fs.dataStart + |fs.disk| && lba - fs.dataStart < |fs.blockBits|
  }

  /** Entry `k` of a directory, counting through its nine sectors. */
  function SlotAt(fs: Fs, d: nat, k: nat): Option<Entry> {
    var lba := Sector(fs, d, k / ENTRIES);
    if lba != 0 && IsBlock(fs, lba) && k % ENTRIES < |fs.disk[lba - fs.dataStart]| then
      Some(fs.disk[lba - fs.dataStart][k % ENTRIES])
    else None
  }

  predicate NameAt(fs: Fs, d: nat, k: nat, name: string) {
    SlotAt(fs, d, k).Some? && SlotAt(fs, d, k).value.name == name
  }

  /** The first entry from `k` on with that name, or SLOTS. */
  function FindName(fs: Fs, d: nat, name: string, k: nat): (r: nat)
    requires k <= SLOTS
    ensures k <= r <= SLOTS && (r < SLOTS ==> NameAt(fs, d, r, name))
    ensures forall j :: k <= j < r ==> !NameAt(fs, d, j, name)
    decreases SLOTS - k
  {
    if k == SLOTS || NameAt(fs, d, k, name) then k else FindName(fs, d, name, k + 1)
  }

  /** find_dir_entry. */
  function Lookup(fs: Fs, d: nat, name: string): Option<nat> {
    var k := FindName(fs, d, name, 0);
    if k < SLOTS then Some(SlotAt(fs, d, k).value.ino) else None
  }

  function FirstZero(sectors: seq<nat>, i: nat): (r: nat)
    requires i <= |sectors|
    ensures i <= r <= |sectors| && (r < |sectors| ==> sectors[r] == 0) && forall j :: i <= j < r ==> sectors[j] != 0
    decreases |sectors| - i
  {
    if i == |sectors| || sectors[i] == 0 then i else FirstZero(sectors, i + 1)
  }

  // ----- The invariant

  /** Every block a live inode refers to exists and is marked, and no block is referred to twice. */
  ghost predicate Owned(fs: Fs) {
    && (forall n, i :: Live(fs, n) && 0 <= i < SECTORS && Sector(fs, n, i) != 0 ==>
          IsBlock(fs, Sector(fs, n, i)) && fs.blockBits[Sector(fs, n, i) - fs.dataStart])
    && (forall n, i, m, j ::
          (&& Live(fs, n) && Live(fs, m) && 0 <= i < SECTORS && 0 <= j < SECTORS
           && Sector(fs, n, i) != 0 && Sector(fs, n, i) == Sector(fs, m, j))
          ==> n == m && i == j)
  }

  /** Every directory is live and starts with its own two entries. */
  ghost predicate Directories(fs: Fs) {
    && ROOT in fs.dirs
    && (forall d :: d in fs.dirs ==> Live(fs, d) && NameAt(fs, d, 0, ".") && NameAt(fs, d, 1, ".."))
  }

  /** Slot `k` of directory `d` holds an ordinary entry for inode `n`. */
  ghost predicate Names(fs: Fs, d: nat, k: nat, n: nat) {
    d in fs.dirs && k < SLOTS && SlotAt(fs, d, k).Some?
    && Ordinary(SlotAt(fs, d, k).value.name) && SlotAt(fs, d, k).value.ino == n
  }

  /** Every ordinary entry names a live inode other than the root, no inode is named twice, and no name occurs twice
      in a directory. */
  ghost predicate Entries(fs: Fs) {
    && (forall d, k, n :: Names(fs, d, k, n) ==> Live(fs, n) && n != ROOT)
    && (forall d, k, e, l, n :: Names(fs, d, k, n) && Names(fs, e, l, n) ==> d == e && k == l)
    && UniqueNames(fs)
  }

  /** The name in a slot; empty if the slot is free or absent. */
  function NameOf(fs: Fs, d: nat, k: nat): string {
    if SlotAt(fs, d, k).Some? then SlotAt(fs, d, k).value.name else ""
  }

  ghost predicate UniqueNames(fs: Fs) {
    forall d: nat, k: nat, l: nat ::
      d in fs.dirs && k < SLOTS && l < SLOTS && Ordinary(NameOf(fs, d, k)) && NameOf(fs, d, k) == NameOf(fs, d, l) ==>
        k == l
  }

  /** Names that stay or go leave the rest unique. */
  lemma StillUnique(fs: Fs, g: Fs)
    requires UniqueNames(fs)
    requires forall d: nat, k: nat :: d in g.dirs && k < SLOTS && Ordinary(NameOf(g, d, k)) ==>
      d in fs.dirs && NameOf(g, d, k) == NameOf(fs, d, k)
    ensures UniqueNames(g)
  {}

  lemma OneMoreName(fs: Fs, g: Fs, e: nat, at: nat, name: string)
    requires UniqueNames(fs) && g.dirs == fs.dirs && (forall k: nat :: k < SLOTS ==> NameOf(fs, e, k) != name)
    requires NameOf(g, e, at) == name
    requires forall d: nat, k: nat :: d in g.dirs && k < SLOTS && Ordinary(NameOf(g, d, k)) && !(d == e && k == at) ==>
      NameOf(g, d, k) == NameOf(fs, d, k)
    ensures UniqueNames(g)
  {}

  ghost predicate Inv(fs: Fs) {
    WellFormed(fs) && Owned(fs) && Directories(fs) && Entries(fs)
  }

  // ----- Elementary updates

  function WithSector(fs: Fs, n: nat, i: nat, lba: nat): Fs
    requires n < |fs.table| && i < |fs.table[n].sectors|
  {
    fs.(table := fs.table[n := fs.table[n].(sectors := fs.table[n].sectors[i := lba])])
  }

  /** A fresh block becomes sector `i` of inode `n`. */
  function Assign(fs: Fs, n: nat, i: nat, b: nat): Fs
    requires n < |fs.table| && i < |fs.table[n].sectors| && b < |fs.blockBits|
  {
    WithSector(fs, n, i, fs.dataStart + b).(blockBits := fs.blockBits[b := true])
  }

  lemma AssignOwned(fs: Fs, n: nat, i: nat, b: nat)
    requires WellFormed(fs) && Owned(fs) && n < |fs.table| && i < SECTORS
    requires b < |fs.blockBits| && b < |fs.disk| && !fs.blockBits[b]
    ensures WellFormed(Assign(fs, n, i, b)) && Owned(Assign(fs, n, i, b))
  {
    var g := Assign(fs, n, i, b);
    SectorsAfter(fs, g, n, i, fs.dataStart + b);
    forall m, j | Live(g, m) && 0 <= j < SECTORS && Sector(g, m, j) != 0
      ensures IsBlock(g, Sector(g, m, j)) && g.blockBits[Sector(g, m, j) - g.dataStart]
      ensures Sector(g, m, j) == fs.dataStart + b ==> m == n && j == i
    {
      assert Live(fs, m);
      if m != n || j != i {
        assert Sector(g, m, j) == Sector(fs, m, j);
      }
    }
  }

  lemma SectorsAfter(fs: Fs, g: Fs, n: nat, i: nat, lba: nat)
    requires n < |fs.table| && i < |fs.table[n].sectors| && g.table == WithSector(fs, n, i, lba).table
    ensures forall m, j :: Sector(g, m, j) == if m == n && j == i then lba else Sector(fs, m, j)
    ensures |g.table| == |fs.table|
  {}

  /** Sector `i` of inode `n` is given back. */
  function Release(fs: Fs, n: nat, i: nat): Fs
    requires n < |fs.table| && i < |fs.table[n].sectors| && IsBlock(fs, Sector(fs, n, i))
  {
    WithSector(fs, n, i, 0).(blockBits := fs.blockBits[Sector(fs, n, i) - fs.dataStart := false])
  }

  lemma ReleaseOwned(fs: Fs, n: nat, i: nat)
    requires WellFormed(fs) && Owned(fs) && Live(fs, n) && i < SECTORS && Sector(fs, n, i) != 0
    ensures IsBlock(fs, Sector(fs, n, i)) && WellFormed(Release(fs, n, i)) && Owned(Release(fs, n, i))
  {
    var g := Release(fs, n, i);
    SectorsAfter(fs, g, n, i, 0);
    forall m, j | Live(g, m) && 0 <= j < SECTORS && Sector(g, m, j) != 0
      ensures IsBlock(g, Sector(g, m, j)) && g.blockBits[Sector(g, m, j) - g.dataStart]
      ensures Sector(g, m, j) == Sector(fs, m, j) && Live(fs, m)
    {
      assert Live(fs, m);
    }
  }

  /** The contents of one block are replaced. */
  function WriteBlock(fs: Fs, b: nat, entries: seq<Entry>): Fs
    requires b < |fs.disk|
  {
    fs.(disk := fs.disk[b := entries])
  }

  lemma WriteOwned(fs: Fs, b: nat, entries: seq<Entry>)
    requires WellFormed(fs) && Owned(fs) && b < |fs.disk| && |entries| == ENTRIES
    ensures WellFormed(WriteBlock(fs, b, entries)) && Owned(WriteBlock(fs, b, entries))
  {
    var g := WriteBlock(fs, b, entries);
    assert forall n, i :: Sector(g, n, i) == Sector(fs, n, i);
    assert forall n :: Live(g, n) <==> Live(fs, n);
  }

  /** Writing sector `i` of inode `n` changes those slots of that inode and no slot of another live inode. */
  lemma SlotsAfterWrite(fs: Fs, n: nat, i: nat, entries: seq<Entry>, m: nat, k: nat)
    requires WellFormed(fs) && Owned(fs) && Live(fs, n) && Live(fs, m) && i < SECTORS && k < SLOTS
    requires Sector(fs, n, i) != 0 && |entries| == ENTRIES
    ensures IsBlock(fs, Sector(fs, n, i))
    ensures SlotAt(WriteBlock(fs, Sector(fs, n, i) - fs.dataStart, entries), m, k) ==
      if m == n && k / ENTRIES == i then Some(entries[k % ENTRIES]) else SlotAt(fs, m, k)
  {
    var g := WriteBlock(fs, Sector(fs, n, i) - fs.dataStart, entries);
    assert Sector(g, m, k / ENTRIES) == Sector(fs, m, k / ENTRIES);
    if !(m == n && k / ENTRIES == i) && Sector(fs, m, k / ENTRIES) != 0 {
      assert Sector(fs, m, k / ENTRIES) != Sector(fs, n, i);
    }
  }

  /** Taking or clearing block bits and sectors of other inodes does not change what a slot reads. */
  lemma SlotsAfterSector(fs: Fs, g: Fs, n: nat, i: nat, lba: nat, m: nat, k: nat)
    requires n < |fs.table| && i < |fs.table[n].sectors| && g.table == WithSector(fs, n, i, lba).table
    requires g.disk == fs.disk && |g.blockBits| == |fs.blockBits| && g.dataStart == fs.dataStart
    requires !(m == n && k / ENTRIES == i)
    ensures SlotAt(g, m, k) == SlotAt(fs, m, k)
  {
    SectorsAfter(fs, g, n, i, lba);
    assert forall x :: IsBlock(g, x) <==> IsBlock(fs, x);
  }

  // ----- Making inodes

  /** create_inode: the first clear bit, and an inode without sectors. */
  function NewInode(fs: Fs, n: nat): Fs
    requires n < |fs.table| && n < |fs.inodeBits|
  {
    fs.(inodeBits := fs.inodeBits[n := true], table := fs.table[n := Inode(0, NO_SECTORS)])
  }

  lemma NewInodeInv(fs: Fs, n: nat)
    requires Inv(fs) && n < |fs.table| && !fs.inodeBits[n]
    ensures Inv(NewInode(fs, n)) && n !in fs.dirs && n != ROOT
    ensures forall d, k :: !Names(NewInode(fs, n), d, k, n)
  {
    var g := NewInode(fs, n);
    assert n !in fs.dirs by { assert forall d :: d in fs.dirs ==> Live(fs, d); }
    assert Owned(g) by {
      assert forall m, j :: Sector(g, m, j) == if m == n then 0 else Sector(fs, m, j);
      assert forall m :: Live(g, m) <==> Live(fs, m) || m == n;
    }
    forall d: nat, k: nat | d in fs.dirs ensures SlotAt(g, d, k) == SlotAt(fs, d, k) {
      assert Sector(g, d, k / ENTRIES) == Sector(fs, d, k / ENTRIES);
    }
    SameNames(fs, g);
  }

  /** Same directories and same slots: the entries say the same. */
  lemma SameNames(fs: Fs, g: Fs)
    requires g.dirs == fs.dirs && Directories(fs) && Entries(fs)
    requires forall d: nat, k: nat :: d in fs.dirs && k < SLOTS ==> SlotAt(g, d, k) == SlotAt(fs, d, k)
    requires forall n :: Live(fs, n) ==> Live(g, n)
    ensures Directories(g) && Entries(g)
    ensures forall d, k, n :: Names(g, d, k, n) <==> Names(fs, d, k, n)
  {
    forall d, k, n ensures Names(g, d, k, n) <==> Names(fs, d, k, n) {}
    StillUnique(fs, g);
    hide UniqueNames;
  }

  // ----- create_dir_entry

  function BlockOf(fs: Fs, n: nat, i: nat): nat
    requires Sector(fs, n, i) >= fs.dataStart
  {
    Sector(fs, n, i) - fs.dataStart
  }

  /** The slot is written into the block it lies in. */
  function PutSlot(fs: Fs, d: nat, k: nat, e: Entry): Fs
    requires SlotAt(fs, d, k).Some?
  {
    var b := BlockOf(fs, d, k / ENTRIES);
    WriteBlock(fs, b, fs.disk[b][k % ENTRIES := e])
  }

  /** A directory without a free slot grows by one block, whose first entry is set; the rest of the block is
      whatever the disk held there. */
  function Grow(fs: Fs, d: nat, i: nat, b: nat, e: Entry): Fs
    requires d < |fs.table| && i < |fs.table[d].sectors| && b < |fs.blockBits| && b < |fs.disk| && |fs.disk[b]| > 0
  {
    Assign(WriteBlock(fs, b, fs.disk[b][0 := e]), d, i, b)
  }

  function LinkEntry(fs: Fs, d: nat, e: Entry): Fs
    requires WellFormed(fs) && d < |fs.table|
  {
    if FindName(fs, d, e.name, 0) < SLOTS then fs
    else if FindName(fs, d, "", 0) < SLOTS then PutSlot(fs, d, FindName(fs, d, "", 0), e)
    else
      var i, b := FirstZero(fs.table[d].sectors, 0), FirstClear(fs.blockBits, 0);
      if i < SECTORS && b < |fs.blockBits| && b < |fs.disk| then Grow(fs, d, i, b, e) else fs
  }

  /** Block `b` reads as free slots after the first. */
  predicate ReadsEmpty(fs: Fs, b: nat) {
    b < |fs.disk| && forall j :: 1 <= j < |fs.disk[b]| ==> fs.disk[b][j].name == ""
  }

  /** If the directory has to grow there is a block for it, and the block reads as empty. */
  ghost predicate LinkSpace(fs: Fs, d: nat, name: string)
    requires d < |fs.table|
  {
    FindName(fs, d, name, 0) == SLOTS && FindName(fs, d, "", 0) == SLOTS &&
      FirstZero(fs.table[d].sectors, 0) < SECTORS ==>
      FirstClear(fs.blockBits, 0) < |fs.blockBits| && ReadsEmpty(fs, FirstClear(fs.blockBits, 0))
  }

  /** An entry that may be added: ordinary, for a live inode nothing names yet. */
  ghost predicate Linkable(fs: Fs, e: Entry) {
    Ordinary(e.name) && Live(fs, e.ino) && e.ino != ROOT && forall d, k :: !Names(fs, d, k, e.ino)
  }

  /** Only names of `n` may have been added, and nothing but directory contents changed. */
  ghost predicate OnlyNamed(fs: Fs, g: Fs, n: nat) {
    && g.dirs == fs.dirs && g.inodeBits == fs.inodeBits && |g.table| == |fs.table| && g.dataStart == fs.dataStart
    && (forall d, k, m :: Names(g, d, k, m) && m != n ==> Names(fs, d, k, m))
  }

  /** After a change that touches only slots `lo .. hi` of directory `d`, of which only `at` reads an ordinary
      entry that was not there before. */
  lemma EntryAdded(fs: Fs, g: Fs, d: nat, at: nat, e: Entry)
    requires Directories(fs) && Entries(fs) && Linkable(fs, e) && d in fs.dirs && 2 <= at < SLOTS
    requires g.dirs == fs.dirs && (forall n :: Live(g, n) <==> Live(fs, n))
    requires SlotAt(g, d, at) == Some(e) && forall k: nat :: k < SLOTS ==> !NameAt(fs, d, k, e.name)
    requires forall m: nat, k: nat :: m in fs.dirs && k < SLOTS && !(m == d && k == at) ==>
      SlotAt(g, m, k) == SlotAt(fs, m, k) || (k >= 2 && SlotAt(g, m, k).Some? && SlotAt(g, m, k).value.name == "")
    ensures Directories(g) && Entries(g)
    ensures forall m, k, n :: Names(g, m, k, n) && n != e.ino ==> Names(fs, m, k, n)
  {
    forall m, k, n | Names(g, m, k, n)
      ensures (m == d && k == at && n == e.ino) || (Names(fs, m, k, n) && n != e.ino)
    {
      if m == d && k == at {
      } else {
        assert SlotAt(g, m, k) == SlotAt(fs, m, k);
        assert Names(fs, m, k, n);
      }
    }
    AddedUnique(fs, g, d, at, e);
    hide UniqueNames;
  }

  lemma AddedUnique(fs: Fs, g: Fs, d: nat, at: nat, e: Entry)
    requires UniqueNames(fs) && g.dirs == fs.dirs && d in fs.dirs && at < SLOTS && Ordinary(e.name)
    requires SlotAt(g, d, at) == Some(e) && forall k: nat :: k < SLOTS ==> !NameAt(fs, d, k, e.name)
    requires forall m: nat, k: nat :: m in fs.dirs && k < SLOTS && !(m == d && k == at) ==>
      SlotAt(g, m, k) == SlotAt(fs, m, k) || (k >= 2 && SlotAt(g, m, k).Some? && SlotAt(g, m, k).value.name == "")
    ensures UniqueNames(g)
  {
    hide UniqueNames;
    forall k: nat | k < SLOTS ensures NameOf(fs, d, k) != e.name {
      assert !NameAt(fs, d, k, e.name);
    }
    OneMoreName(fs, g, d, at, e.name);
  }

  /** Writing one slot of a directory changes that slot only. */
  lemma PutSlots(fs: Fs, d: nat, k: nat, e: Entry, m: nat, l: nat)
    requires WellFormed(fs) && Owned(fs) && Live(fs, d) && Live(fs, m) && k < SLOTS && l < SLOTS
    requires SlotAt(fs, d, k).Some?
    ensures SlotAt(PutSlot(fs, d, k, e), m, l) == if m == d && l == k then Some(e) else SlotAt(fs, m, l)
  {
    var i, b := k / ENTRIES, BlockOf(fs, d, k / ENTRIES);
    SlotsAfterWrite(fs, d, i, fs.disk[b][k % ENTRIES := e], m, l);
    if m == d && l / ENTRIES == i {
      assert l == ENTRIES * i + l % ENTRIES && k == ENTRIES * i + k % ENTRIES;
    }
  }

  lemma PutSlotInv(fs: Fs, d: nat, k: nat, e: Entry)
    requires Inv(fs) && d in fs.dirs && k < SLOTS && NameAt(fs, d, k, "") && Linkable(fs, e)
    requires FindName(fs, d, e.name, 0) == SLOTS
    ensures Inv(PutSlot(fs, d, k, e)) && OnlyNamed(fs, PutSlot(fs, d, k, e), e.ino)
  {
    hide Owned;
    hide Entries;
    var b := BlockOf(fs, d, k / ENTRIES);
    var g := PutSlot(fs, d, k, e);
    assert Live(fs, d) && NameAt(fs, d, 0, ".") && NameAt(fs, d, 1, "..");
    WriteOwned(fs, b, fs.disk[b][k % ENTRIES := e]);
    forall m: nat, l: nat | m in fs.dirs && l < SLOTS
      ensures SlotAt(g, m, l) == if m == d && l == k then Some(e) else SlotAt(fs, m, l)
    {
      PutSlots(fs, d, k, e, m, l);
    }
    EntryAdded(fs, g, d, k, e);
  }

  /** A fresh block becomes sector `i` of inode `n`: its entries appear there, and no other slot changes. */
  lemma GrowSlots(fs: Fs, n: nat, i: nat, b: nat, entries: seq<Entry>, m: nat, k: nat)
    requires WellFormed(fs) && Owned(fs) && Live(fs, n) && Live(fs, m) && i < SECTORS && k < SLOTS
    requires |entries| == ENTRIES
    requires b < |fs.blockBits| && b < |fs.disk| && !fs.blockBits[b]
    ensures SlotAt(Assign(WriteBlock(fs, b, entries), n, i, b), m, k) ==
      if m == n && k / ENTRIES == i then Some(entries[k % ENTRIES]) else SlotAt(fs, m, k)
  {
    var h := WriteBlock(fs, b, entries);
    var g := Assign(h, n, i, b);
    SectorsAfter(h, g, n, i, h.dataStart + b);
    if !(m == n && k / ENTRIES == i) {
      SlotsAfterSector(h, g, n, i, h.dataStart + b, m, k);
      UnmarkedUnread(fs, b, entries, m, k);
    }
  }

  lemma GrowInv(fs: Fs, d: nat, i: nat, b: nat, e: Entry)
    requires Inv(fs) && d in fs.dirs && d < |fs.table| && i < SECTORS && Sector(fs, d, i) == 0 && Linkable(fs, e)
    requires FindName(fs, d, e.name, 0) == SLOTS
    requires b < |fs.blockBits| && !fs.blockBits[b] && ReadsEmpty(fs, b)
    ensures Inv(Grow(fs, d, i, b, e)) && OnlyNamed(fs, Grow(fs, d, i, b, e), e.ino)
  {
    hide Owned;
    hide Entries;
    var entries := fs.disk[b][0 := e];
    var g := Grow(fs, d, i, b, e);
    FirstSectorUsed(fs, d, i);
    GrowShape(fs, d, i, b, e);
    GrownSlots(fs, g, d, i, entries);
    EntryAdded(fs, g, d, ENTRIES * i, e);
  }

  /** Of a block that reads as free after its first entry, only that entry is new. */
  lemma GrownSlots(fs: Fs, g: Fs, d: nat, i: nat, entries: seq<Entry>)
    requires |entries| == ENTRIES && 1 <= i < SECTORS && forall j :: 1 <= j < ENTRIES ==> entries[j].name == ""
    requires d in fs.dirs
    requires forall m: nat, l: nat :: m in fs.dirs && l < SLOTS ==>
      SlotAt(g, m, l) == if m == d && l / ENTRIES == i then Some(entries[l % ENTRIES]) else SlotAt(fs, m, l)
    ensures 2 <= ENTRIES * i < SLOTS && SlotAt(g, d, ENTRIES * i) == Some(entries[0])
    ensures forall m: nat, k: nat :: m in fs.dirs && k < SLOTS && !(m == d && k == ENTRIES * i) ==>
      SlotAt(g, m, k) == SlotAt(fs, m, k) || (k >= 2 && SlotAt(g, m, k).Some? && SlotAt(g, m, k).value.name == "")
  {
    assert (ENTRIES * i) / ENTRIES == i && (ENTRIES * i) % ENTRIES == 0;
    forall k: nat | k < SLOTS && k / ENTRIES == i && k != ENTRIES * i ensures 1 <= k % ENTRIES < ENTRIES && k >= 2 {}
  }

  /** Writing a block that is not marked changes no slot of a live inode. */
  lemma UnmarkedUnread(fs: Fs, b: nat, entries: seq<Entry>, m: nat, k: nat)
    requires WellFormed(fs) && Owned(fs) && Live(fs, m) && k < SLOTS && b < |fs.disk| && b < |fs.blockBits|
    requires !fs.blockBits[b]
    ensures SlotAt(WriteBlock(fs, b, entries), m, k) == SlotAt(fs, m, k)
  {
    var g := WriteBlock(fs, b, entries);
    assert Sector(g, m, k / ENTRIES) == Sector(fs, m, k / ENTRIES);
    if Sector(fs, m, k / ENTRIES) != 0 {
      assert IsBlock(fs, Sector(fs, m, k / ENTRIES));
    }
  }

  lemma LinkInv(fs: Fs, d: nat, e: Entry)
    requires Inv(fs) && d in fs.dirs && d < |fs.table| && Linkable(fs, e) && LinkSpace(fs, d, e.name)
    ensures Inv(LinkEntry(fs, d, e)) && OnlyNamed(fs, LinkEntry(fs, d, e), e.ino)
  {
    if FindName(fs, d, e.name, 0) < SLOTS {
    } else if FindName(fs, d, "", 0) < SLOTS {
      PutSlotInv(fs, d, FindName(fs, d, "", 0), e);
    } else {
      var i, b := FirstZero(fs.table[d].sectors, 0), FirstClear(fs.blockBits, 0);
      if i < SECTORS && b < |fs.blockBits| && b < |fs.disk| {
        GrowInv(fs, d, i, b, e);
      }
    }
  }

  // ----- remove_dir_entry

  function ClearName(entries: seq<Entry>, name: string): (r: seq<Entry>)
    ensures |r| == |entries|
    ensures forall j :: 0 <= j < |r| ==> r[j] == if entries[j].name == name then entries[j].(name := "") else entries[j]
  {
    if entries == [] then []
    else
      var e := entries[|entries| - 1];
      ClearName(entries[..|entries| - 1], name) + [if e.name == name then e.(name := "") else e]
  }

  predicate HasName(entries: seq<Entry>, name: string) {
    exists j :: 0 <= j < |entries| && entries[j].name == name
  }

  predicate AllFree(entries: seq<Entry>) {
    forall j :: 0 <= j < |entries| ==> entries[j].name == ""
  }

  /** The loop over the sectors from `i` on. Once the name has been found, the first sector that is entirely free is
      given back, and the loop ends there. */
  function Unlink(fs: Fs, d: nat, name: string, i: nat, found: bool): Fs
    requires WellFormed(fs) && d < |fs.table| && i <= SECTORS
    decreases SECTORS - i
  {
    if i == SECTORS then fs
    else if Sector(fs, d, i) == 0 || !IsBlock(fs, Sector(fs, d, i)) then Unlink(fs, d, name, i + 1, found)
    else
      var b := BlockOf(fs, d, i);
      var entries := ClearName(fs.disk[b], name);
      var now := found || HasName(fs.disk[b], name);
      var g := WriteBlock(fs, b, entries);
      if now && AllFree(entries) then Release(g, d, i) else Unlink(g, d, name, i + 1, now)
  }

  /** No entry is added, and nothing but directory contents and block bits changes. */
  ghost predicate OnlyUnnamed(fs: Fs, g: Fs) {
    && g.dirs == fs.dirs && g.inodeBits == fs.inodeBits && |g.table| == |fs.table| && g.dataStart == fs.dataStart
    && (forall d, k, n :: Names(g, d, k, n) ==> Names(fs, d, k, n))
  }

  /** Slots that read free or nothing name nobody. */
  lemma EntriesRemoved(fs: Fs, g: Fs)
    requires Directories(fs) && Entries(fs) && g.dirs == fs.dirs && (forall n :: Live(g, n) <==> Live(fs, n))
    requires forall m: nat, k: nat :: m in fs.dirs && k < SLOTS ==>
      || SlotAt(g, m, k) == SlotAt(fs, m, k)
      || (k >= 2 && (SlotAt(g, m, k) == None || SlotAt(g, m, k).value.name == ""))
    ensures Directories(g) && Entries(g) && forall d, k, n :: Names(g, d, k, n) ==> Names(fs, d, k, n)
  {
    forall d, k, n | Names(g, d, k, n) ensures Names(fs, d, k, n) {
      assert SlotAt(g, d, k) == SlotAt(fs, d, k);
    }
    forall m: nat, k: nat | m in g.dirs && k < SLOTS && Ordinary(NameOf(g, m, k))
      ensures NameOf(g, m, k) == NameOf(fs, m, k) {}
    StillUnique(fs, g);
    hide UniqueNames;
  }

  lemma ClearSectorInv(fs: Fs, d: nat, name: string, i: nat)
    requires Inv(fs) && d in fs.dirs && d < |fs.table| && Ordinary(name) && i < SECTORS && Sector(fs, d, i) != 0
    ensures IsBlock(fs, Sector(fs, d, i))
    ensures var b := BlockOf(fs, d, i);
      var g := WriteBlock(fs, b, ClearName(fs.disk[b], name));
      && Inv(g) && OnlyUnnamed(fs, g)
      && (AllFree(ClearName(fs.disk[b], name)) ==> i != 0)
      && forall k :: k < SLOTS && k / ENTRIES == i && NameAt(fs, d, k, name) ==> NameAt(g, d, k, "")
  {
    assert Live(fs, d) && NameAt(fs, d, 0, ".") && NameAt(fs, d, 1, "..");
    var b := BlockOf(fs, d, i);
    var entries := ClearName(fs.disk[b], name);
    var g := WriteBlock(fs, b, entries);
    WriteOwned(fs, b, entries);
    forall m: nat, l: nat | m in fs.dirs && l < SLOTS
      ensures SlotAt(g, m, l) == if m == d && l / ENTRIES == i then Some(entries[l % ENTRIES]) else SlotAt(fs, m, l)
    {
      assert Live(fs, m);
      SlotsAfterWrite(fs, d, i, entries, m, l);
    }
    assert SlotAt(fs, d, 0) == (if i == 0 then Some(fs.disk[b][0]) else SlotAt(fs, d, 0));
    hide Owned;
    hide ClearName;
    forall l: nat | l < SLOTS && l / ENTRIES == i
      ensures SlotAt(g, d, l) == SlotAt(fs, d, l) || (l >= 2 && SlotAt(g, d, l).Some? &&
        SlotAt(g, d, l).value.name == "")
    {
      assert SlotAt(fs, d, l) == Some(fs.disk[b][l % ENTRIES]);
    }
    EntriesRemoved(fs, g);
  }

  lemma ReleaseInv(fs: Fs, d: nat, i: nat)
    requires Inv(fs) && d in fs.dirs && d < |fs.table| && 0 < i < SECTORS && Sector(fs, d, i) != 0
    ensures IsBlock(fs, Sector(fs, d, i)) && Inv(Release(fs, d, i)) && OnlyUnnamed(fs, Release(fs, d, i))
    ensures forall k :: SlotAt(Release(fs, d, i), d, k) == SlotAt(fs, d, k) || SlotAt(Release(fs, d, i), d, k) == None
  {
    ReleaseOwned(fs, d, i);
    var g := Release(fs, d, i);
    forall m: nat, l: nat
      ensures SlotAt(g, m, l) == if m == d && l / ENTRIES == i then None else SlotAt(fs, m, l)
    {
      if m == d && l / ENTRIES == i {
        SectorsAfter(fs, g, d, i, 0);
      } else {
        SlotsAfterSector(fs, g, d, i, 0, m, l);
      }
    }
    hide Owned;
    EntriesRemoved(fs, g);
  }

  /** remove_dir_entry keeps the invariant. */
  lemma {:induction false} UnlinkInv(fs: Fs, d: nat, name: string, i: nat, found: bool)
    requires Inv(fs) && d in fs.dirs && d < |fs.table| && Ordinary(name) && i <= SECTORS
    ensures Inv(Unlink(fs, d, name, i, found)) && OnlyUnnamed(fs, Unlink(fs, d, name, i, found))
    decreases SECTORS - i
  {
    hide Owned;
    hide Directories;
    hide Entries;
    if i < SECTORS {
      SectorIsBlock(fs, d, i);
      if Sector(fs, d, i) == 0 {
        UnlinkInv(fs, d, name, i + 1, found);
      } else {
        ClearSectorInv(fs, d, name, i);
        var b := BlockOf(fs, d, i);
        var g := WriteBlock(fs, b, ClearName(fs.disk[b], name));
        var now := found || HasName(fs.disk[b], name);
        if now && AllFree(ClearName(fs.disk[b], name)) {
          ReleaseInv(g, d, i);
        } else {
          UnlinkInv(g, d, name, i + 1, now);
        }
      }
    }
  }

  lemma SectorIsBlock(fs: Fs, d: nat, i: nat)
    requires Inv(fs) && d in fs.dirs && i < SECTORS
    ensures Sector(fs, d, i) != 0 ==> IsBlock(fs, Sector(fs, d, i))
  {
    assert Live(fs, d);
  }

  /** Sectors already passed are not touched again. */
  lemma {:induction false} UnlinkKeeps(fs: Fs, d: nat, name: string, i: nat, found: bool, k: nat)
    requires Inv(fs) && d in fs.dirs && d < |fs.table| && Ordinary(name) && i <= SECTORS && k < SLOTS && k / ENTRIES < i
    ensures SlotAt(Unlink(fs, d, name, i, found), d, k) == SlotAt(fs, d, k)
    decreases SECTORS - i
  {
    if i < SECTORS {
      SectorIsBlock(fs, d, i);
      if Sector(fs, d, i) == 0 {
        UnlinkKeeps(fs, d, name, i + 1, found, k);
      } else {
        ClearSectorInv(fs, d, name, i);
        assert Live(fs, d);
        var b := BlockOf(fs, d, i);
        var entries := ClearName(fs.disk[b], name);
        var g := WriteBlock(fs, b, entries);
        SlotsAfterWrite(fs, d, i, entries, d, k);
        var now := found || HasName(fs.disk[b], name);
        hide Owned;
        hide Entries;
        if now && AllFree(entries) {
          SlotsAfterSector(g, Release(g, d, i), d, i, 0, d, k);
        } else {
          UnlinkKeeps(g, d, name, i + 1, now, k);
        }
      }
    }
  }

  /** The first entry with the name is gone afterwards. */
  lemma {:induction false} UnlinkRemoves(fs: Fs, d: nat, name: string, i: nat, k: nat)
    requires Inv(fs) && d in fs.dirs && d < |fs.table| && Ordinary(name) && i <= SECTORS && k < SLOTS
    requires i <= k / ENTRIES
    requires NameAt(fs, d, k, name) && forall j :: 0 <= j < k ==> !NameAt(fs, d, j, name)
    ensures var s := SlotAt(Unlink(fs, d, name, i, false), d, k); s == None || s.value.name == ""
    decreases SECTORS - i
  {
    SectorIsBlock(fs, d, i);
    if Sector(fs, d, i) == 0 {
      UnlinkRemoves(fs, d, name, i + 1, k);
    } else {
      ClearSectorInv(fs, d, name, i);
      var b := BlockOf(fs, d, i);
      var g := WriteBlock(fs, b, ClearName(fs.disk[b], name));
      if i < k / ENTRIES {
        NoMatchInSector(fs, d, name, i, k);
        UnlinkRemoves(fs, d, name, i + 1, k);
      } else {
        hide Owned;
        hide Entries;
        assert fs.disk[b][k % ENTRIES].name == name;
        assert HasName(fs.disk[b], name);
        if AllFree(ClearName(fs.disk[b], name)) {
          ReleaseInv(g, d, i);
        } else {
          UnlinkKeeps(g, d, name, i + 1, true, k);
        }
      }
    }
  }

  lemma NoMatchInSector(fs: Fs, d: nat, name: string, i: nat, k: nat)
    requires WellFormed(fs) && i < k / ENTRIES && k < SLOTS && Sector(fs, d, i) != 0 && IsBlock(fs, Sector(fs, d, i))
    requires forall j :: 0 <= j < k ==> !NameAt(fs, d, j, name)
    ensures !HasName(fs.disk[BlockOf(fs, d, i)], name)
    ensures WriteBlock(fs, BlockOf(fs, d, i), ClearName(fs.disk[BlockOf(fs, d, i)], name)) == fs
  {
    var b := BlockOf(fs, d, i);
    forall j | 0 <= j < ENTRIES ensures fs.disk[b][j].name != name {
      var s := ENTRIES * i + j;
      assert s / ENTRIES == i && s % ENTRIES == j && s < k;
      assert !NameAt(fs, d, s, name);
    }
    assert ClearName(fs.disk[b], name) == fs.disk[b];
  }

  lemma {:induction false} UnlinkTable(fs: Fs, d: nat, name: string, i: nat, found: bool)
    requires WellFormed(fs) && d < |fs.table| && i <= SECTORS
    ensures var g := Unlink(fs, d, name, i, found);
      |g.table| == |fs.table| && forall n :: 0 <= n < |fs.table| && n != d ==> g.table[n] == fs.table[n]
    decreases SECTORS - i
  {
    if i < SECTORS {
      if Sector(fs, d, i) == 0 || !IsBlock(fs, Sector(fs, d, i)) {
        UnlinkTable(fs, d, name, i + 1, found);
      } else {
        var b := BlockOf(fs, d, i);
        var entries := ClearName(fs.disk[b], name);
        var now := found || HasName(fs.disk[b], name);
        if !(now && AllFree(entries)) {
          UnlinkTable(WriteBlock(fs, b, entries), d, name, i + 1, now);
        }
      }
    }
  }

  /** An ordinary name that resolves names a live inode other than the root. */
  lemma LookupNames(fs: Fs, d: nat, name: string)
    requires Inv(fs) && d in fs.dirs && Ordinary(name) && Lookup(fs, d, name).Some?
    ensures var k := FindName(fs, d, name, 0);
      k < SLOTS && Names(fs, d, k, Lookup(fs, d, name).value) && Live(fs, Lookup(fs, d, name).value)
    ensures Lookup(fs, d, name).value != ROOT
  {
    hide Owned;
    assert Names(fs, d, FindName(fs, d, name, 0), Lookup(fs, d, name).value);
  }

  /** After removing the entry found, nothing names its inode. */
  lemma UnlinkUnnames(fs: Fs, d: nat, name: string)
    requires Inv(fs) && d in fs.dirs && d < |fs.table| && Ordinary(name) && Lookup(fs, d, name).Some?
    ensures forall e, k :: !Names(Unlink(fs, d, name, 0, false), e, k, Lookup(fs, d, name).value)
  {
    var c, k := Lookup(fs, d, name).value, FindName(fs, d, name, 0);
    LookupNames(fs, d, name);
    UnlinkInv(fs, d, name, 0, false);
    UnlinkRemoves(fs, d, name, 0, k);
    OnlyThatOne(fs, Unlink(fs, d, name, 0, false), d, k, c);
  }

  /** If the one slot that names `c` is emptied and none is added, nothing names `c`. */
  lemma OnlyThatOne(fs: Fs, g: Fs, d: nat, k: nat, c: nat)
    requires Entries(fs) && Names(fs, d, k, c) && (forall e, l, n :: Names(g, e, l, n) ==> Names(fs, e, l, n))
    requires SlotAt(g, d, k) == None || SlotAt(g, d, k).value.name == ""
    ensures forall e, l :: !Names(g, e, l, c)
  {}

  // ----- The system calls

  function MkFile(fs: Fs, d: nat, name: string): Fs
    requires WellFormed(fs) && d < |fs.table| && FirstClear(fs.inodeBits, 0) < |fs.table|
  {
    var n := FirstClear(fs.inodeBits, 0);
    LinkEntry(NewInode(fs, n), d, Entry(name, n, File))
  }

  /** The block of a new directory: its own two entries and five free slots. */
  function FreshDirectory(self: nat, parent: nat): seq<Entry> {
    [Entry(".", self, Dir), Entry("..", parent, Dir), FREE_SLOT, FREE_SLOT, FREE_SLOT, FREE_SLOT, FREE_SLOT]
  }

  /** init_child_dir. */
  function InitChild(fs: Fs, d: nat, n: nat, b: nat): Fs
    requires n < |fs.table| && |fs.table[n].sectors| == SECTORS && b < |fs.blockBits| && b < |fs.disk|
  {
    Assign(WriteBlock(fs, b, FreshDirectory(n, d)), n, 0, b).(dirs := fs.dirs + {n})
  }

  function MkDir(fs: Fs, d: nat, name: string): Fs
    requires WellFormed(fs) && d < |fs.table| && FirstClear(fs.inodeBits, 0) < |fs.table|
  {
    var n := FirstClear(fs.inodeBits, 0);
    var g := LinkEntry(NewInode(fs, n), d, Entry(name, n, Dir));
    var b := FirstClear(g.blockBits, 0);
    if b < |g.blockBits| && b < |g.disk| && n < |g.table| && |g.table[n].sectors| == SECTORS
      then InitChild(g, d, n, b) else g
  }

  /** Room for the new inode, for its entry and, for a directory, for its block. */
  ghost predicate MakeSpace(fs: Fs, d: nat, name: string, kind: EntryKind) {
    && WellFormed(fs) && d < |fs.table| && FirstClear(fs.inodeBits, 0) < |fs.table|
    && var n := FirstClear(fs.inodeBits, 0);
    && LinkSpace(NewInode(fs, n), d, name)
    && (kind == Dir ==>
          var g := LinkEntry(NewInode(fs, n), d, Entry(name, n, kind));
          FirstClear(g.blockBits, 0) < |g.blockBits| && FirstClear(g.blockBits, 0) < |g.disk|)
  }

  lemma MakeLinked(fs: Fs, d: nat, name: string, kind: EntryKind)
    requires Inv(fs) && d in fs.dirs && Ordinary(name) && MakeSpace(fs, d, name, kind)
    ensures var n := FirstClear(fs.inodeBits, 0);
      var g := LinkEntry(NewInode(fs, n), d, Entry(name, n, kind));
      Inv(g) && g.dirs == fs.dirs && Live(g, n) && n !in g.dirs && g.table[n] == Inode(0, NO_SECTORS)
  {
    hide Owned;
    hide Directories;
    hide Entries;
    var n := FirstClear(fs.inodeBits, 0);
    NewInodeInv(fs, n);
    LinkInv(NewInode(fs, n), d, Entry(name, n, kind));
    LinkTable(NewInode(fs, n), d, Entry(name, n, kind));
  }

  lemma LinkTable(fs: Fs, d: nat, e: Entry)
    requires WellFormed(fs) && d < |fs.table|
    ensures var g := LinkEntry(fs, d, e);
      |g.table| == |fs.table| && forall n :: 0 <= n < |fs.table| && n != d ==> g.table[n] == fs.table[n]
  {}

  lemma MkFileInv(fs: Fs, d: nat, name: string)
    requires Inv(fs) && d in fs.dirs && Ordinary(name) && MakeSpace(fs, d, name, File)
    ensures Inv(MkFile(fs, d, name)) && MkFile(fs, d, name).dirs == fs.dirs
  {
    MakeLinked(fs, d, name, File);
  }

  lemma InitChildInv(fs: Fs, d: nat, n: nat, b: nat)
    requires Inv(fs) && Live(fs, n) && n !in fs.dirs && b < |fs.blockBits| && b < |fs.disk| && !fs.blockBits[b]
    requires forall i :: 1 <= i < SECTORS ==> Sector(fs, n, i) == 0
    ensures Inv(InitChild(fs, d, n, b))
  {
    var entries := FreshDirectory(n, d);
    var h := WriteBlock(fs, b, entries);
    var g := InitChild(fs, d, n, b);
    WriteOwned(fs, b, entries);
    AssignOwned(h, n, 0, b);
    assert Owned(g) by { SameOwners(Assign(h, n, 0, b), g); }
    forall m: nat, l: nat | m in g.dirs && l < SLOTS
      ensures m != n ==> SlotAt(g, m, l) == SlotAt(fs, m, l)
      ensures m == n && l / ENTRIES == 0 ==> SlotAt(g, m, l) == Some(entries[l])
      ensures m == n && l / ENTRIES != 0 ==> SlotAt(g, m, l) == None
    {
      SectorsAfter(h, g, n, 0, h.dataStart + b);
      if m != n {
        assert Live(fs, m);
        SlotsAfterSector(h, g, n, 0, h.dataStart + b, m, l);
        UnmarkedUnread(fs, b, entries, m, l);
      } else if l / ENTRIES != 0 {
        assert Sector(g, n, l / ENTRIES) == Sector(fs, n, l / ENTRIES);
      }
    }
    NewDirectory(fs, g, n);
  }

  lemma SameOwners(fs: Fs, g: Fs)
    requires Owned(fs) && g == fs.(dirs := g.dirs)
    ensures Owned(g)
  {
    assert forall n, i :: Sector(g, n, i) == Sector(fs, n, i);
    assert forall n :: Live(g, n) <==> Live(fs, n);
    assert forall x :: IsBlock(g, x) <==> IsBlock(fs, x);
  }

  /** A directory whose only names are its own two adds no ordinary entry. */
  lemma NewDirectory(fs: Fs, g: Fs, n: nat)
    requires Directories(fs) && Entries(fs) && Live(g, n) && g.dirs == fs.dirs + {n} && n !in fs.dirs
    requires forall m :: Live(fs, m) ==> Live(g, m)
    requires forall m: nat, l: nat :: m in fs.dirs && l < SLOTS ==> SlotAt(g, m, l) == SlotAt(fs, m, l)
    requires NameAt(g, n, 0, ".") && NameAt(g, n, 1, "..")
    requires forall l: nat :: l < SLOTS && SlotAt(g, n, l).Some? ==> !Ordinary(SlotAt(g, n, l).value.name)
    ensures Directories(g) && Entries(g)
  {
    forall d, k, m ensures Names(g, d, k, m) <==> Names(fs, d, k, m) {}
    forall d: nat, k: nat | d in g.dirs && k < SLOTS && Ordinary(NameOf(g, d, k))
      ensures d in fs.dirs && NameOf(g, d, k) == NameOf(fs, d, k) {}
    StillUnique(fs, g);
    hide UniqueNames;
  }

  lemma MkDirInv(fs: Fs, d: nat, name: string)
    requires Inv(fs) && d in fs.dirs && Ordinary(name) && MakeSpace(fs, d, name, Dir)
    ensures Inv(MkDir(fs, d, name))
  {
    MakeLinked(fs, d, name, Dir);
    hide Owned;
    hide Directories;
    hide Entries;
    hide LinkEntry;
    var n := FirstClear(fs.inodeBits, 0);
    var g := LinkEntry(NewInode(fs, n), d, Entry(name, n, Dir));
    InitChildInv(g, d, n, FirstClear(g.blockBits, 0));
  }

  /** dir_is_empty: no name after the first two in the first sector, and no other sector. */
  predicate DirIsEmpty(fs: Fs, d: nat) {
    && (forall k :: 2 <= k < ENTRIES ==> SlotAt(fs, d, k).Some? ==> SlotAt(fs, d, k).value.name == "")
    && (forall i :: 1 <= i < SECTORS ==> Sector(fs, d, i) == 0)
  }

  function ForgetInode(fs: Fs, n: nat): Fs
    requires n < |fs.inodeBits|
  {
    fs.(inodeBits := fs.inodeBits[n := false], dirs := fs.dirs - {n})
  }

  lemma ForgetInv(fs: Fs, n: nat)
    requires Inv(fs) && n < |fs.inodeBits| && n != ROOT && forall d, k :: !Names(fs, d, k, n)
    ensures Inv(ForgetInode(fs, n))
  {
    var g := ForgetInode(fs, n);
    assert Owned(g) by {
      assert forall m, i :: Sector(g, m, i) == Sector(fs, m, i);
      assert forall m :: Live(g, m) <==> Live(fs, m) && m != n;
      assert forall x :: IsBlock(g, x) <==> IsBlock(fs, x);
    }
    hide Owned;
    forall d: nat, k: nat ensures SlotAt(g, d, k) == SlotAt(fs, d, k) {}
    LessNames(fs, g, n);
  }

  /** Freeing an inode that nothing names, and dropping it from the directories if it was one. */
  lemma LessNames(fs: Fs, g: Fs, n: nat)
    requires Directories(fs) && Entries(fs) && g.dirs == fs.dirs - {n} && n != ROOT
    requires forall d, k :: !Names(fs, d, k, n)
    requires forall m :: Live(g, m) <==> Live(fs, m) && m != n
    requires forall d: nat, k: nat :: d in fs.dirs ==> SlotAt(g, d, k) == SlotAt(fs, d, k)
    ensures Directories(g) && Entries(g)
  {
    forall d, k, m | Names(g, d, k, m) ensures Names(fs, d, k, m) && m != n {
      assert SlotAt(g, d, k) == SlotAt(fs, d, k);
      assert !Names(fs, d, k, n);
    }
    forall d | d in g.dirs ensures Live(g, d) && NameAt(g, d, 0, ".") && NameAt(g, d, 1, "..") {
      assert SlotAt(g, d, 0) == SlotAt(fs, d, 0) && SlotAt(g, d, 1) == SlotAt(fs, d, 1);
    }
    StillUnique(fs, g);
    hide UniqueNames;
  }

  /** sys_rmdir on an existing directory; the removed directory's own block stays marked. */
  function RmDir(fs: Fs, d: nat, name: string): Fs
    requires WellFormed(fs) && d < |fs.table| && Lookup(fs, d, name).Some?
  {
    var c := Lookup(fs, d, name).value;
    if !DirIsEmpty(fs, c) then fs
    else
      var g := Unlink(fs, d, name, 0, false);
      if c < |g.inodeBits| then ForgetInode(g, c) else g
  }

  lemma RmDirInv(fs: Fs, d: nat, name: string)
    requires Inv(fs) && d in fs.dirs && d < |fs.table| && Ordinary(name) && Lookup(fs, d, name).Some?
    ensures Inv(RmDir(fs, d, name))
  {
    LookupNames(fs, d, name);
    UnlinkInv(fs, d, name, 0, false);
    UnlinkUnnames(fs, d, name);
    hide Owned;
    hide Directories;
    hide Entries;
    hide Unlink;
    ForgetInv(Unlink(fs, d, name, 0, false), Lookup(fs, d, name).value);
  }

  /** free_inode_sectors on the sectors read before the entry was removed. */
  function FreeSectors(fs: Fs, sectors: seq<nat>, i: nat): Fs
    requires i <= |sectors|
    decreases |sectors| - i
  {
    if i == |sectors| then fs
    else if sectors[i] == 0 || !IsBlock(fs, sectors[i]) then FreeSectors(fs, sectors, i + 1)
    else FreeSectors(fs.(blockBits := fs.blockBits[sectors[i] - fs.dataStart := false]), sectors, i + 1)
  }

  lemma {:induction false} FreeSectorsEffect(fs: Fs, sectors: seq<nat>, i: nat)
    requires i <= |sectors|
    ensures var g := FreeSectors(fs, sectors, i);
      && g == fs.(blockBits := g.blockBits) && |g.blockBits| == |fs.blockBits|
      && forall b ::
           (&& 0 <= b < |fs.blockBits| && fs.blockBits[b]
            && (forall j :: i <= j < |sectors| ==> sectors[j] != fs.dataStart + b))
           ==> g.blockBits[b]
    decreases |sectors| - i
  {
    if i < |sectors| {
      if sectors[i] == 0 || !IsBlock(fs, sectors[i]) {
        FreeSectorsEffect(fs, sectors, i + 1);
      } else {
        FreeSectorsEffect(fs.(blockBits := fs.blockBits[sectors[i] - fs.dataStart := false]), sectors, i + 1);
      }
    }
  }

  /** A dead inode's blocks can be cleared: no live inode refers to them. */
  lemma FreeSectorsInv(fs: Fs, n: nat)
    requires Inv(fs) && n < |fs.table| && n < |fs.inodeBits| && Live(fs, n) && n !in fs.dirs && n != ROOT
    requires forall d, k :: !Names(fs, d, k, n)
    ensures Inv(ForgetInodeOf(FreeSectors(fs, fs.table[n].sectors, 0), n))
  {
    var sectors := fs.table[n].sectors;
    FreeSectorsEffect(fs, sectors, 0);
    var h := FreeSectors(fs, sectors, 0);
    hide FreeSectors;
    var g := ForgetInode(h, n);
    var f := ForgetInode(fs, n);
    ForgetInv(fs, n);
    assert forall j :: 0 <= j < SECTORS ==> sectors[j] == Sector(fs, n, j);
    FewerMarks(fs, f, g, n);
  }

  lemma FewerMarks(fs: Fs, f: Fs, g: Fs, n: nat)
    requires Owned(fs) && WellFormed(fs) && Inv(f) && f == ForgetInodeOf(fs, n) && g == f.(blockBits := g.blockBits)
    requires Live(fs, n) && |g.blockBits| == |f.blockBits|
    requires forall b ::
      (&& 0 <= b < |fs.blockBits| && fs.blockBits[b]
       && (forall j :: 0 <= j < SECTORS ==> Sector(fs, n, j) != fs.dataStart + b))
      ==> g.blockBits[b]
    ensures Inv(g)
  {
    assert forall m, i :: Sector(g, m, i) == Sector(fs, m, i) && Sector(f, m, i) == Sector(fs, m, i);
    assert forall m :: (Live(g, m) <==> Live(f, m)) && (Live(f, m) <==> Live(fs, m) && m != n);
    assert forall x :: (IsBlock(g, x) <==> IsBlock(f, x)) && (IsBlock(f, x) <==> IsBlock(fs, x));
    FewerOwned(fs, f, g, n);
    hide Owned;
    hide Entries;
    hide Directories;
    forall d: nat, k: nat ensures SlotAt(g, d, k) == SlotAt(f, d, k) {}
    SameNames(f, g);
  }

  lemma FewerOwned(fs: Fs, f: Fs, g: Fs, n: nat)
    requires Owned(fs) && Owned(f) && Live(fs, n) && |g.blockBits| == |fs.blockBits| && g.dataStart == fs.dataStart
    requires forall m, i :: Sector(g, m, i) == Sector(fs, m, i) && Sector(f, m, i) == Sector(fs, m, i)
    requires forall m :: (Live(g, m) <==> Live(f, m)) && (Live(f, m) <==> Live(fs, m) && m != n)
    requires forall x :: (IsBlock(g, x) <==> IsBlock(f, x)) && (IsBlock(f, x) <==> IsBlock(fs, x))
    requires forall b ::
      (&& 0 <= b < |fs.blockBits| && fs.blockBits[b]
       && (forall j :: 0 <= j < SECTORS ==> Sector(fs, n, j) != fs.dataStart + b))
      ==> g.blockBits[b]
    ensures Owned(g)
  {
    forall m, i | Live(g, m) && 0 <= i < SECTORS && Sector(g, m, i) != 0
      ensures IsBlock(g, Sector(g, m, i)) && g.blockBits[Sector(g, m, i) - g.dataStart]
    {
      var b := Sector(fs, m, i) - fs.dataStart;
      assert forall j :: 0 <= j < SECTORS ==> Sector(fs, n, j) != fs.dataStart + b;
    }
  }

  function ForgetInodeOf(fs: Fs, n: nat): Fs {
    if n < |fs.inodeBits| then ForgetInode(fs, n) else fs
  }

  /** sys_rmfile. */
  function RmFile(fs: Fs, d: nat, name: string): Fs
    requires WellFormed(fs) && d < |fs.table|
  {
    match Lookup(fs, d, name)
    case None => fs
    case Some(c) =>
      if c >= |fs.table| then fs
      else
        var g := Unlink(fs, d, name, 0, false);
        ForgetInodeOf(FreeSectors(g, fs.table[c].sectors, 0), c)
  }

  lemma RmFileInv(fs: Fs, d: nat, name: string)
    requires Inv(fs) && d in fs.dirs && d < |fs.table| && Ordinary(name)
    requires Lookup(fs, d, name).Some? ==> Lookup(fs, d, name).value !in fs.dirs
    ensures Inv(RmFile(fs, d, name))
  {
    if Lookup(fs, d, name).Some? {
      var c := Lookup(fs, d, name).value;
      LookupNames(fs, d, name);
      UnlinkInv(fs, d, name, 0, false);
      UnlinkUnnames(fs, d, name);
      UnlinkTable(fs, d, name, 0, false);
      hide Owned;
      hide Directories;
      hide Entries;
      var g := Unlink(fs, d, name, 0, false);
      hide Unlink;
      assert g.table[c] == fs.table[c];
      FreeSectorsInv(g, c);
      FreeSectorsEffect(g, fs.table[c].sectors, 0);
      hide FreeSectors;
    }
  }

  // ----- Copying, moving and writing files

  /** Changes to sectors and size of an inode that is not a directory, with ownership still right. */
  lemma FileChanged(fs: Fs, g: Fs)
    requires Inv(fs) && WellFormed(g) && Owned(g) && g.dirs == fs.dirs && g.dataStart == fs.dataStart
    requires |g.table| == |fs.table| && (forall n :: Live(fs, n) ==> Live(g, n))
    requires forall d: nat, k: nat :: d in fs.dirs && k < SLOTS ==> SlotAt(g, d, k) == SlotAt(fs, d, k)
    ensures Inv(g)
  {
    hide Owned;
    SameNames(fs, g);
  }

  /** A fresh block for sector `i` of file `n`, filled with `entries`. */
  lemma FileGrows(fs: Fs, n: nat, i: nat, b: nat, entries: seq<Entry>)
    requires Inv(fs) && Live(fs, n) && n !in fs.dirs && i < SECTORS && |entries| == ENTRIES
    requires b < |fs.blockBits| && b < |fs.disk| && !fs.blockBits[b]
    ensures Inv(Assign(WriteBlock(fs, b, entries), n, i, b))
  {
    var h := WriteBlock(fs, b, entries);
    var g := Assign(h, n, i, b);
    WriteOwned(fs, b, entries);
    AssignOwned(h, n, i, b);
    forall d: nat, k: nat | d in fs.dirs && k < SLOTS ensures SlotAt(g, d, k) == SlotAt(fs, d, k) {
      assert Live(fs, d);
      SlotsAfterSector(h, g, n, i, h.dataStart + b, d, k);
      UnmarkedUnread(fs, b, entries, d, k);
    }
    FileChanged(fs, g);
  }

  lemma FileShrinks(fs: Fs, n: nat, i: nat)
    requires Inv(fs) && Live(fs, n) && n !in fs.dirs && i < SECTORS && Sector(fs, n, i) != 0
    ensures IsBlock(fs, Sector(fs, n, i)) && Inv(Release(fs, n, i))
  {
    ReleaseOwned(fs, n, i);
    var g := Release(fs, n, i);
    forall d: nat, k: nat | d in fs.dirs && k < SLOTS ensures SlotAt(g, d, k) == SlotAt(fs, d, k) {
      SlotsAfterSector(fs, g, n, i, 0, d, k);
    }
    FileChanged(fs, g);
  }

  function WithSize(fs: Fs, n: nat, size: nat): Fs
    requires n < |fs.table|
  {
    fs.(table := fs.table[n := fs.table[n].(size := size)])
  }

  lemma WithSizeInv(fs: Fs, n: nat, size: nat)
    requires Inv(fs) && n < |fs.table|
    ensures Inv(WithSize(fs, n, size))
  {
    var g := WithSize(fs, n, size);
    assert forall m, i :: Sector(g, m, i) == Sector(fs, m, i);
    assert forall m :: Live(g, m) <==> Live(fs, m);
    assert forall x :: IsBlock(g, x) <==> IsBlock(fs, x);
    FileChanged(fs, g);
  }

  /** The sectors in use from `i` on. */
  function Needed(sectors: seq<nat>, i: nat): nat
    decreases |sectors| - i
  {
    if i >= |sectors| then 0 else (if sectors[i] != 0 then 1 else 0) + Needed(sectors, i + 1)
  }

  /** `k` blocks below `limit` can be taken one after the other. */
  predicate Room(bits: seq<bool>, limit: nat, k: nat)
    decreases k
  {
    var b := FirstClear(bits, 0);
    k == 0 || (b < |bits| && b < limit && Room(bits[b := true], limit, k - 1))
  }

  /** The source's sectors are blocks, and there are blocks for the copies from `i` on. */
  ghost predicate Copyable(fs: Fs, src: seq<nat>, i: nat) {
    && |src| == SECTORS && i <= SECTORS && (forall j :: 0 <= j < SECTORS && src[j] != 0 ==> IsBlock(fs, src[j]))
    && Room(fs.blockBits, |fs.disk|, Needed(src, i))
  }

  /** The loop of copy_file: a fresh block with the same contents for every sector of the source. The inode is
      written once at the end; no step before that reads it. */
  ghost function CopySectors(fs: Fs, src: seq<nat>, n: nat, i: nat): Fs
    requires WellFormed(fs) && n < |fs.table| && Copyable(fs, src, i)
    decreases SECTORS - i
  {
    if i == SECTORS then fs
    else if src[i] == 0 then CopySectors(fs, src, n, i + 1)
    else
      var b := FirstClear(fs.blockBits, 0);
      CopySectors(Assign(WriteBlock(fs, b, fs.disk[src[i] - fs.dataStart]), n, i, b), src, n, i + 1)
  }

  lemma {:induction false} CopySectorsInv(fs: Fs, src: seq<nat>, n: nat, i: nat)
    requires Inv(fs) && Live(fs, n) && n !in fs.dirs && Copyable(fs, src, i)
    ensures var g := CopySectors(fs, src, n, i); Inv(g) && g.dirs == fs.dirs && |g.table| == |fs.table|
    decreases SECTORS - i
  {
    hide Owned;
    hide Directories;
    hide Entries;
    if i < SECTORS {
      if src[i] == 0 {
        CopySectorsInv(fs, src, n, i + 1);
      } else {
        var b := FirstClear(fs.blockBits, 0);
        FileGrows(fs, n, i, b, fs.disk[src[i] - fs.dataStart]);
        CopySectorsInv(Assign(WriteBlock(fs, b, fs.disk[src[i] - fs.dataStart]), n, i, b), src, n, i + 1);
      }
    }
  }

  /** Both names resolve to files once the destination has been made. */
  ghost predicate TwoFiles(g: Fs, d: nat, name: string, e: nat, dst: string) {
    && Lookup(g, d, name).Some? && Lookup(g, d, name).value !in g.dirs && Lookup(g, d, name).value < |g.table|
    && Lookup(g, e, dst).Some? && Lookup(g, e, dst).value !in g.dirs && Lookup(g, e, dst).value < |g.table|
  }

  /** The two files exist, and there are blocks for a copy of the first. */
  ghost predicate CopyRoom(g: Fs, d: nat, name: string, e: nat, dst: string) {
    TwoFiles(g, d, name, e, dst) && Copyable(g, g.table[Lookup(g, d, name).value].sectors, 0)
  }

  /** copy_file from `name` in `d` to `dst` in `e`. */
  ghost function CopyFile(fs: Fs, d: nat, name: string, e: nat, dst: string): Fs
    requires WellFormed(fs) && e < |fs.table| && FirstClear(fs.inodeBits, 0) < |fs.table|
    requires WellFormed(MkFile(fs, e, dst)) && CopyRoom(MkFile(fs, e, dst), d, name, e, dst)
  {
    var g := MkFile(fs, e, dst);
    var s, t := Lookup(g, d, name).value, Lookup(g, e, dst).value;
    var h := CopySectors(g, g.table[s].sectors, t, 0);
    if t < |h.table| then WithSize(h, t, g.table[s].size) else h
  }

  lemma CopyFileInv(fs: Fs, d: nat, name: string, e: nat, dst: string)
    requires Inv(fs) && d in fs.dirs && e in fs.dirs && e < |fs.table| && Ordinary(name) && Ordinary(dst)
    requires MakeSpace(fs, e, dst, File)
    requires WellFormed(MkFile(fs, e, dst)) && CopyRoom(MkFile(fs, e, dst), d, name, e, dst)
    ensures Inv(CopyFile(fs, d, name, e, dst))
  {
    MkFileInv(fs, e, dst);
    hide Owned;
    hide Directories;
    hide Entries;
    var g := MkFile(fs, e, dst);
    hide MkFile;
    var s, t := Lookup(g, d, name).value, Lookup(g, e, dst).value;
    LookupNames(g, e, dst);
    CopySectorsInv(g, g.table[s].sectors, t, 0);
    var h := CopySectors(g, g.table[s].sectors, t, 0);
    hide CopySectors;
    WithSizeInv(h, t, g.table[s].size);
  }

  /** The source's sector numbers, not contents, go to the destination; then the source's entry and inode go. */
  function MoveInode(fs: Fs, s: nat, t: nat, inode: Inode): Fs
    requires s < |fs.inodeBits| && t < |fs.table|
  {
    fs.(inodeBits := fs.inodeBits[s := false], table := fs.table[t := inode])
  }

  lemma MoveInodeInv(fs: Fs, s: nat, t: nat)
    requires Inv(fs) && Live(fs, s) && Live(fs, t) && s !in fs.dirs && t !in fs.dirs && s != ROOT
    requires forall d, k :: !Names(fs, d, k, s)
    ensures Inv(MoveInode(fs, s, t, fs.table[s]))
  {
    var g := MoveInode(fs, s, t, fs.table[s]);
    assert forall m, i :: Sector(g, m, i) == if m == t then Sector(fs, s, i) else Sector(fs, m, i);
    assert forall m :: Live(g, m) <==> Live(fs, m) && m != s;
    assert forall x :: IsBlock(g, x) <==> IsBlock(fs, x);
    assert Owned(g) by {
      forall n, i, m, j | (&& Live(g, n) && Live(g, m) && 0 <= i < SECTORS && 0 <= j < SECTORS
                           && Sector(g, n, i) != 0 && Sector(g, n, i) == Sector(g, m, j))
        ensures n == m && i == j
      {
        var n', m' := if n == t then s else n, if m == t then s else m;
        assert Live(fs, n') && Live(fs, m') && Sector(fs, n', i) == Sector(fs, m', j);
      }
      forall n, i | Live(g, n) && 0 <= i < SECTORS && Sector(g, n, i) != 0
        ensures IsBlock(g, Sector(g, n, i)) && g.blockBits[Sector(g, n, i) - g.dataStart]
      {
        var n' := if n == t then s else n;
        assert Live(fs, n') && Sector(fs, n', i) == Sector(g, n, i);
      }
    }
    hide Owned;
    forall d: nat, k: nat | d in fs.dirs ensures SlotAt(g, d, k) == SlotAt(fs, d, k) {}
    assert g.dirs == fs.dirs - {s};
    LessNames(fs, g, s);
  }

  /** move_file from `name` in `d` to `dst` in `e`. */
  ghost function MoveFile(fs: Fs, d: nat, name: string, e: nat, dst: string): Fs
    requires WellFormed(fs) && e < |fs.table| && d < |fs.table| && FirstClear(fs.inodeBits, 0) < |fs.table|
    requires WellFormed(MkFile(fs, e, dst)) && TwoFiles(MkFile(fs, e, dst), d, name, e, dst)
  {
    var g := MkFile(fs, e, dst);
    var s, t := Lookup(g, d, name).value, Lookup(g, e, dst).value;
    if d >= |g.table| then g
    else
      var h := Unlink(g, d, name, 0, false);
      if s < |h.inodeBits| && t < |h.table| then MoveInode(h, s, t, g.table[s]) else h
  }

  lemma MoveFileInv(fs: Fs, d: nat, name: string, e: nat, dst: string)
    requires Inv(fs) && d in fs.dirs && e in fs.dirs && e < |fs.table| && d < |fs.table|
    requires Ordinary(name) && Ordinary(dst) && MakeSpace(fs, e, dst, File)
    requires WellFormed(MkFile(fs, e, dst)) && TwoFiles(MkFile(fs, e, dst), d, name, e, dst)
    ensures Inv(MoveFile(fs, d, name, e, dst))
  {
    MkFileInv(fs, e, dst);
    hide Owned;
    hide Directories;
    hide Entries;
    var g := MkFile(fs, e, dst);
    hide MkFile;
    var s, t := Lookup(g, d, name).value, Lookup(g, e, dst).value;
    LookupNames(g, d, name);
    LookupNames(g, e, dst);
    DirInTable(g, d);
    UnlinkInv(g, d, name, 0, false);
    UnlinkUnnames(g, d, name);
    UnlinkTable(g, d, name, 0, false);
    var h := Unlink(g, d, name, 0, false);
    hide Unlink;
    assert h.table[s] == g.table[s];
    MoveInodeInv(h, s, t);
  }

  lemma DirInTable(fs: Fs, d: nat)
    requires Inv(fs) && d in fs.dirs
    ensures d < |fs.table| && Live(fs, d)
  {}

  /** The sectors from `i` on that write_file has to allocate. */
  function Lacking(sectors: seq<nat>, start: nat, last: nat, i: nat): nat
    decreases |sectors| - i
  {
    if i >= |sectors| then 0
    else (if start <= i <= last && sectors[i] == 0 then 1 else 0) + Lacking(sectors, start, last, i + 1)
  }

  lemma NothingLacking(sectors: seq<nat>, start: nat, last: nat, i: nat)
    requires i > last
    ensures Lacking(sectors, start, last, i) == 0
    decreases |sectors| - i
  {}

  /** `sectors` are those of inode `n` before the call, untouched from `i` on, and there are blocks for the rest. */
  ghost predicate Resizable(fs: Fs, n: nat, sectors: seq<nat>, start: nat, last: nat, i: nat) {
    && n < |fs.table| && |fs.table[n].sectors| == |sectors| == SECTORS && i <= SECTORS && last < SECTORS
    && (forall j :: i <= j < SECTORS ==> fs.table[n].sectors[j] == sectors[j])
    && (forall j :: 0 <= j < SECTORS && sectors[j] != 0 ==> IsBlock(fs, sectors[j]))
    && Room(fs.blockBits, |fs.disk|, Lacking(sectors, start, last, i))
  }

  /** The two sector loops of write_file: blocks for the sectors `start .. last` that have none, and every sector after
      `last` given back. COVER starts at 0 with `last` the sectors of the text; APPEND starts at the last sector of the
      file, and counts `last` from there. */
  ghost function Resize(fs: Fs, n: nat, sectors: seq<nat>, start: nat, last: nat, i: nat): Fs
    requires WellFormed(fs) && Resizable(fs, n, sectors, start, last, i)
    decreases SECTORS - i
  {
    if i == SECTORS then fs
    else if start <= i <= last && sectors[i] == 0 then
      Resize(Assign(fs, n, i, FirstClear(fs.blockBits, 0)), n, sectors, start, last, i + 1)
    else if i > last && sectors[i] != 0 then
      NothingLacking(sectors, start, last, i + 1);
      Resize(Release(fs, n, i), n, sectors, start, last, i + 1)
    else Resize(fs, n, sectors, start, last, i + 1)
  }

  lemma {:induction false} ResizeInv(fs: Fs, n: nat, sectors: seq<nat>, start: nat, last: nat, i: nat)
    requires Inv(fs) && Live(fs, n) && n !in fs.dirs && Resizable(fs, n, sectors, start, last, i)
    ensures var g := Resize(fs, n, sectors, start, last, i); Inv(g) && g.dirs == fs.dirs && |g.table| == |fs.table|
    decreases SECTORS - i
  {
    hide Owned;
    hide Directories;
    hide Entries;
    if i < SECTORS {
      if start <= i <= last && sectors[i] == 0 {
        var b := FirstClear(fs.blockBits, 0);
        FileGrows(fs, n, i, b, fs.disk[b]);
        assert WriteBlock(fs, b, fs.disk[b]) == fs;
        ResizeInv(Assign(fs, n, i, b), n, sectors, start, last, i + 1);
      } else if i > last && sectors[i] != 0 {
        NothingLacking(sectors, start, last, i + 1);
        FileShrinks(fs, n, i);
        ResizeInv(Release(fs, n, i), n, sectors, start, last, i + 1);
      } else {
        ResizeInv(fs, n, sectors, start, last, i + 1);
      }
    }
  }

  /** Afterwards the file has a block for each of those sectors and none after them; the ones it had stay. */
  lemma {:induction false} ResizeSectors(fs: Fs, n: nat, sectors: seq<nat>, start: nat, last: nat, i: nat, k: nat)
    requires WellFormed(fs) && Resizable(fs, n, sectors, start, last, i) && i <= k < SECTORS
    ensures var lba := Sector(Resize(fs, n, sectors, start, last, i), n, k);
      && (k > last ==> lba == 0) && (start <= k <= last ==> lba != 0) &&
        (k <= last && sectors[k] != 0 ==> lba == sectors[k])
    decreases SECTORS - i
  {
    if start <= i <= last && sectors[i] == 0 {
      var g := Assign(fs, n, i, FirstClear(fs.blockBits, 0));
      if i < k {
        ResizeSectors(g, n, sectors, start, last, i + 1, k);
      } else {
        ResizePassed(g, n, sectors, start, last, i + 1, k);
      }
    } else if i > last && sectors[i] != 0 {
      NothingLacking(sectors, start, last, i + 1);
      var g := Release(fs, n, i);
      if i < k {
        ResizeSectors(g, n, sectors, start, last, i + 1, k);
      } else {
        ResizePassed(g, n, sectors, start, last, i + 1, k);
      }
    } else {
      if i < k {
        ResizeSectors(fs, n, sectors, start, last, i + 1, k);
      } else {
        ResizePassed(fs, n, sectors, start, last, i + 1, k);
      }
    }
  }

  const SECTOR_SIZE := 512

  /** The arguments of the loops for APPEND of `count` bytes to a file of `size`: the sectors are counted from the last
      sector of the file, but the loops count from its first. */
  ghost predicate Appends(fs: Fs, n: nat, size: nat, count: nat) {
    && WellFormed(fs) && n < |fs.table|
    && Resizable(fs, n, fs.table[n].sectors, size / SECTOR_SIZE, (size + count) / SECTOR_SIZE - size / SECTOR_SIZE, 0)
  }

  ghost function Append(fs: Fs, n: nat, size: nat, count: nat): Fs
    requires Appends(fs, n, size, count)
  {
    Resize(fs, n, fs.table[n].sectors, size / SECTOR_SIZE, (size + count) / SECTOR_SIZE - size / SECTOR_SIZE, 0)
  }

  /** After an append the file has a block for each of its sectors if and only if it was shorter than one sector;
      otherwise the sector with its last byte, at least, has been given back. */
  lemma AppendKeepsIff(fs: Fs, n: nat, size: nat, count: nat)
    requires Appends(fs, n, size, count)
    ensures (forall k: nat :: k <= (size + count) / SECTOR_SIZE ==> Sector(Append(fs, n, size, count), n, k) != 0) <==>
      size < SECTOR_SIZE
    ensures size < SECTOR_SIZE ==> forall k: nat :: k <= (size + count) / SECTOR_SIZE && Sector(fs, n, k) != 0 ==>
      Sector(Append(fs, n, size, count), n, k) == Sector(fs, n, k)
    ensures size >= SECTOR_SIZE ==> Sector(Append(fs, n, size, count), n, (size + count) / SECTOR_SIZE) == 0
  {
    hide Resize;
    hide Resizable;
    hide Sector;
    hide WellFormed;
    var start, end := size / SECTOR_SIZE, (size + count) / SECTOR_SIZE;
    assert start <= end && (start == 0 <==> size < SECTOR_SIZE);
    AppendFrom(fs, n, start, end);
    var g := Append(fs, n, size, count);
    assert g == Resize(fs, n, fs.table[n].sectors, start, end - start, 0);
    assert start > 0 ==> end <= (size + count) / SECTOR_SIZE && Sector(g, n, end) == 0;
  }

  /** Counting `end - start` sectors from the first one covers them all only if `start` is the first. */
  lemma AppendFrom(fs: Fs, n: nat, start: nat, end: nat)
    requires WellFormed(fs) && n < |fs.table| && start <= end
    requires Resizable(fs, n, fs.table[n].sectors, start, end - start, 0)
    ensures var g := Resize(fs, n, fs.table[n].sectors, start, end - start, 0);
      && (start == 0 ==> forall k: nat :: k <= end ==> Sector(g, n, k) != 0)
      && (start == 0 ==> forall k: nat :: k <= end && Sector(fs, n, k) != 0 ==> Sector(g, n, k) == Sector(fs, n, k))
      && (start > 0 ==> Sector(g, n, end) == 0)
  {
    hide Resize;
    var sectors := fs.table[n].sectors;
    ResizeLength(fs, n, sectors, start, end - start, 0);
    var g := Resize(fs, n, sectors, start, end - start, 0);
    if start > 0 {
      if end < SECTORS {
        ResizeSectors(fs, n, sectors, start, end - start, 0, end);
      }
    } else {
      forall k: nat | k <= end
        ensures Sector(g, n, k) != 0 && (Sector(fs, n, k) != 0 ==> Sector(g, n, k) == Sector(fs, n, k))
      {
        ResizeSectors(fs, n, sectors, start, end - start, 0, k);
      }
    }
  }

  lemma {:induction false} ResizeLength(fs: Fs, n: nat, sectors: seq<nat>, start: nat, last: nat, i: nat)
    requires WellFormed(fs) && Resizable(fs, n, sectors, start, last, i)
    ensures var g := Resize(fs, n, sectors, start, last, i); n < |g.table| && |g.table[n].sectors| == SECTORS
    decreases SECTORS - i
  {
    if i < SECTORS {
      if start <= i <= last && sectors[i] == 0 {
        ResizeLength(Assign(fs, n, i, FirstClear(fs.blockBits, 0)), n, sectors, start, last, i + 1);
      } else if i > last && sectors[i] != 0 {
        NothingLacking(sectors, start, last, i + 1);
        ResizeLength(Release(fs, n, i), n, sectors, start, last, i + 1);
      } else {
        ResizeLength(fs, n, sectors, start, last, i + 1);
      }
    }
  }

  /** Sectors already passed are not touched again. */
  lemma {:induction false} ResizePassed(fs: Fs, n: nat, sectors: seq<nat>, start: nat, last: nat, i: nat, k: nat)
    requires WellFormed(fs) && Resizable(fs, n, sectors, start, last, i) && k < i
    ensures Sector(Resize(fs, n, sectors, start, last, i), n, k) == Sector(fs, n, k)
    decreases SECTORS - i
  {
    if i < SECTORS {
      if start <= i <= last && sectors[i] == 0 {
        ResizePassed(Assign(fs, n, i, FirstClear(fs.blockBits, 0)), n, sectors, start, last, i + 1, k);
      } else if i > last && sectors[i] != 0 {
        NothingLacking(sectors, start, last, i + 1);
        ResizePassed(Release(fs, n, i), n, sectors, start, last, i + 1, k);
      } else {
        ResizePassed(fs, n, sectors, start, last, i + 1, k);
      }
    }
  }

  /** Writing the data of a file changes no directory. */
  lemma WriteDataInv(fs: Fs, n: nat, i: nat, entries: seq<Entry>)
    requires Inv(fs) && Live(fs, n) && n !in fs.dirs && i < SECTORS && Sector(fs, n, i) != 0 && |entries| == ENTRIES
    ensures IsBlock(fs, Sector(fs, n, i)) && Inv(WriteBlock(fs, BlockOf(fs, n, i), entries))
  {
    var g := WriteBlock(fs, BlockOf(fs, n, i), entries);
    WriteOwned(fs, BlockOf(fs, n, i), entries);
    forall d: nat, k: nat | d in fs.dirs && k < SLOTS ensures SlotAt(g, d, k) == SlotAt(fs, d, k) {
      assert Live(fs, d);
      SlotsAfterWrite(fs, n, i, entries, d, k);
    }
    FileChanged(fs, g);
  }

  // ----- Whole runs

  /** The state partition_install_fs leaves: the root directory and its block, nothing else in use. */
  ghost predicate Installed(fs: Fs) {
    && WellFormed(fs) && |fs.table| > 0 && |fs.disk| > 0 && |fs.blockBits| > 0
    && (forall n :: 0 <= n < |fs.inodeBits| ==> (fs.inodeBits[n] <==> n == ROOT))
    && (forall b :: 0 <= b < |fs.blockBits| ==> (fs.blockBits[b] <==> b == 0))
    && fs.table[ROOT].sectors == NO_SECTORS[0 := fs.dataStart]
    && fs.disk[0] == FreshDirectory(ROOT, ROOT) && fs.dirs == {ROOT}
  }

  lemma InstalledInv(fs: Fs)
    requires Installed(fs)
    ensures Inv(fs)
  {
    assert forall n: nat :: Live(fs, n) <==> n == ROOT;
    assert Sector(fs, ROOT, 0) == fs.dataStart && forall i :: 0 < i < SECTORS ==> Sector(fs, ROOT, i) == 0;
    forall d: nat, k: nat, n: nat ensures !Names(fs, d, k, n) {
      if k < ENTRIES {
        SmallSlot(k);
      }
    }
  }

  lemma SmallSlot(k: nat)
    requires k < ENTRIES
    ensures k / ENTRIES == 0 && k % ENTRIES == k
  {}

  datatype Call =
    | CallMkDir(dir: nat, name: string)
    | CallRmDir(dir: nat, name: string)
    | CallMkFile(dir: nat, name: string)
    | CallRmFile(dir: nat, name: string)
    | CallCopy(dir: nat, name: string, toDir: nat, toName: string)
    | CallMove(dir: nat, name: string, toDir: nat, toName: string)
    | CallResize(file: nat, start: nat, last: nat)
    | CallWrite(file: nat, sector: nat, entries: seq<Entry>)

  /** Existing directories as parents, ordinary names, room for what is made; rmdir on directories, the rest on
      files. */
  ghost predicate Enabled(fs: Fs, c: Call) {
    WellFormed(fs) &&
    match c
    case CallMkDir(d, name) => d in fs.dirs && Ordinary(name) && MakeSpace(fs, d, name, Dir)
    case CallMkFile(d, name) => d in fs.dirs && Ordinary(name) && MakeSpace(fs, d, name, File)
    case CallRmDir(d, name) =>
      d in fs.dirs && d < |fs.table| && Ordinary(name) && Lookup(fs, d, name).Some? &&
        Lookup(fs, d, name).value in fs.dirs
    case CallRmFile(d, name) =>
      d in fs.dirs && d < |fs.table| && Ordinary(name) && (Lookup(fs, d, name).Some? ==>
        Lookup(fs, d, name).value !in fs.dirs)
    case CallCopy(d, name, e, dst) =>
      Transferable(fs, d, name, e, dst) && CopyRoom(MkFile(fs, e, dst), d, name, e, dst)
    case CallMove(d, name, e, dst) => Transferable(fs, d, name, e, dst)
    case CallResize(n, start, last) =>
      Live(fs, n) && n !in fs.dirs && Resizable(fs, n, fs.table[n].sectors, start, last, 0)
    case CallWrite(n, i, entries) =>
      && Live(fs, n) && n !in fs.dirs && i < SECTORS && |entries| == ENTRIES
      && Sector(fs, n, i) >= fs.dataStart && BlockOf(fs, n, i) < |fs.disk|
  }

  ghost predicate Transferable(fs: Fs, d: nat, name: string, e: nat, dst: string) {
    && d in fs.dirs && d < |fs.table| && e in fs.dirs && Ordinary(name) && Ordinary(dst) && MakeSpace(fs, e, dst, File)
    && WellFormed(MkFile(fs, e, dst)) && TwoFiles(MkFile(fs, e, dst), d, name, e, dst)
  }

  ghost function After(fs: Fs, c: Call): Fs
    requires Enabled(fs, c)
  {
    match c
    case CallMkDir(d, name) => MkDir(fs, d, name)
    case CallMkFile(d, name) => MkFile(fs, d, name)
    case CallRmDir(d, name) => RmDir(fs, d, name)
    case CallRmFile(d, name) => RmFile(fs, d, name)
    case CallCopy(d, name, e, dst) => CopyFile(fs, d, name, e, dst)
    case CallMove(d, name, e, dst) => MoveFile(fs, d, name, e, dst)
    case CallResize(n, start, last) => Resize(fs, n, fs.table[n].sectors, start, last, 0)
    case CallWrite(n, i, entries) => WriteBlock(fs, BlockOf(fs, n, i), entries)
  }

  lemma AfterInv(fs: Fs, c: Call)
    requires Inv(fs) && Enabled(fs, c)
    ensures Inv(After(fs, c))
  {
    hide Inv;
    match c
    case CallMkDir(d, name) => MkDirInv(fs, d, name);
    case CallMkFile(d, name) => MkFileInv(fs, d, name);
    case CallRmDir(d, name) => RmDirInv(fs, d, name);
    case CallRmFile(d, name) => RmFileInv(fs, d, name);
    case CallCopy(d, name, e, dst) => CopyFileInv(fs, d, name, e, dst);
    case CallMove(d, name, e, dst) => MoveFileInv(fs, d, name, e, dst);
    case CallResize(n, start, last) => ResizeInv(fs, n, fs.table[n].sectors, start, last, 0);
    case CallWrite(n, i, entries) => WriteDataInv(fs, n, i, entries);
  }

  ghost predicate IsRun(states: seq<Fs>, calls: seq<Call>) {
    && |states| == |calls| + 1 && Installed(states[0])
    && forall k :: 0 <= k < |calls| ==> Enabled(states[k], calls[k]) && states[k + 1] == After(states[k], calls[k])
  }

  lemma {:induction false} EveryState(states: seq<Fs>, calls: seq<Call>, n: nat)
    requires IsRun(states, calls) && n < |states|
    ensures Inv(states[n])
  {
    if n == 0 {
      InstalledInv(states[0]);
    } else {
      EveryState(states, calls, n - 1);
      AfterInv(states[n - 1], calls[n - 1]);
    }
  }

  /** From a freshly installed partition, after any calls: no block belongs to two live inodes or to two sectors of
      one, every block in use is marked, and every ordinary entry names a live inode. */
  lemma OwnershipSafety(states: seq<Fs>, calls: seq<Call>, s: nat)
    requires IsRun(states, calls) && s < |states|
    ensures forall n, i, m, j ::
      (&& Live(states[s], n) && Live(states[s], m) && 0 <= i < SECTORS && 0 <= j < SECTORS && (n != m || i != j)
       && Sector(states[s], n, i) != 0)
      ==> Sector(states[s], n, i) != Sector(states[s], m, j)
    ensures forall n, i :: Live(states[s], n) && 0 <= i < SECTORS && Sector(states[s], n, i) != 0 ==>
      IsBlock(states[s], Sector(states[s], n, i)) && states[s].blockBits[Sector(states[s], n, i) - states[s].dataStart]
    ensures forall d, k, n :: Names(states[s], d, k, n) ==> Live(states[s], n)
  {
    EveryState(states, calls, s);
  }

  // ----- What the calls do, seen through names and contents

  lemma FindIs(fs: Fs, d: nat, name: string, k: nat)
    requires k < SLOTS && NameAt(fs, d, k, name) && forall j: nat :: j < k ==> !NameAt(fs, d, j, name)
    ensures FindName(fs, d, name, 0) == k
  {}

  /** If the same slots carry a name, and for the same inodes, it resolves to the same inode. */
  lemma SameLookup(fs: Fs, g: Fs, d: nat, name: string)
    requires forall k: nat :: k < SLOTS ==> (NameAt(g, d, k, name) <==> NameAt(fs, d, k, name))
    requires forall k: nat :: k < SLOTS && NameAt(fs, d, k, name) ==> SlotAt(g, d, k) == SlotAt(fs, d, k)
    ensures Lookup(g, d, name) == Lookup(fs, d, name)
  {
    if FindName(fs, d, name, 0) < SLOTS {
      FindIs(g, d, name, FindName(fs, d, name, 0));
    }
  }

  /** The directory has a slot for one more entry, or can grow by a block that reads as empty. */
  ghost predicate CanLink(fs: Fs, d: nat)
    requires d < |fs.table|
  {
    FindName(fs, d, "", 0) < SLOTS
    || (FirstZero(fs.table[d].sectors, 0) < SECTORS && FirstClear(fs.blockBits, 0) < |fs.blockBits|
        && ReadsEmpty(fs, FirstClear(fs.blockBits, 0)))
  }

  /** create_dir_entry adds one slot for a name that was not there; other slots of live inodes read as before or are
      free. */
  lemma LinkSlots(fs: Fs, d: nat, e: Entry) returns (at: nat)
    requires Inv(fs) && d in fs.dirs && d < |fs.table| && Ordinary(e.name) && FindName(fs, d, e.name, 0) == SLOTS
    requires CanLink(fs, d)
    ensures at < SLOTS && SlotAt(LinkEntry(fs, d, e), d, at) == Some(e)
    ensures forall j: nat :: j < at && SlotAt(fs, d, j).Some? ==> NameOf(fs, d, j) != ""
    ensures forall k: nat :: k < SLOTS && k != at ==>
      SlotAt(LinkEntry(fs, d, e), d, k) == SlotAt(fs, d, k) || NameAt(LinkEntry(fs, d, e), d, k, "")
    ensures forall k: nat :: k < SLOTS && NameOf(fs, d, k) != "" ==>
      k != at && SlotAt(LinkEntry(fs, d, e), d, k) == SlotAt(fs, d, k)
    ensures forall m: nat, k: nat :: Live(fs, m) && m != d && k < SLOTS ==>
      SlotAt(LinkEntry(fs, d, e), m, k) == SlotAt(fs, m, k)
  {
    assert Live(fs, d);
    hide Owned;
    hide Entries;
    var g := LinkEntry(fs, d, e);
    if FindName(fs, d, "", 0) < SLOTS {
      at := FindName(fs, d, "", 0);
      forall m: nat, k: nat | Live(fs, m) && k < SLOTS
        ensures SlotAt(g, m, k) == if m == d && k == at then Some(e) else SlotAt(fs, m, k)
      {
        PutSlots(fs, d, at, e, m, k);
      }
    } else {
      var i, b := FirstZero(fs.table[d].sectors, 0), FirstClear(fs.blockBits, 0);
      at := ENTRIES * i;
      var entries := fs.disk[b][0 := e];
      forall m: nat, k: nat | Live(fs, m) && k < SLOTS
        ensures SlotAt(g, m, k) == if m == d && k / ENTRIES == i then Some(entries[k % ENTRIES]) else SlotAt(fs, m, k)
      {
        GrowSlots(fs, d, i, b, entries, m, k);
      }
      assert at / ENTRIES == i && at % ENTRIES == 0;
    }
    forall j: nat | j < at && SlotAt(fs, d, j).Some? ensures NameOf(fs, d, j) != "" {
      assert !NameAt(fs, d, j, "");
    }
  }

  /** Afterwards the new name resolves to the new inode, and every other name in any directory as before. */
  lemma LinkLookup(fs: Fs, d: nat, e: Entry, m: nat, name: string)
    requires Inv(fs) && d in fs.dirs && d < |fs.table| && Ordinary(e.name) && FindName(fs, d, e.name, 0) == SLOTS
    requires CanLink(fs, d)
    requires m in fs.dirs && name != ""
    ensures Lookup(LinkEntry(fs, d, e), m, name) ==
      if m == d && name == e.name then Some(e.ino) else Lookup(fs, m, name)
  {
    var g := LinkEntry(fs, d, e);
    var at := LinkSlots(fs, d, e);
    assert Live(fs, m);
    hide LinkEntry;
    hide Inv;
    if m == d && name == e.name {
      forall j: nat | j < at ensures !NameAt(g, d, j, name) {
        assert !NameAt(fs, d, j, name);
      }
      FindIs(g, d, name, at);
    } else {
      SameLookup(fs, g, m, name);
    }
  }

  /** mkfile: the new name is a new empty file and no other name changes; an existing name is left alone. */
  lemma MkFileLookup(fs: Fs, d: nat, name: string, m: nat, other: string)
    requires Inv(fs) && d in fs.dirs && Ordinary(name) && MakeSpace(fs, d, name, File) && m in fs.dirs && other != ""
    requires FindName(fs, d, name, 0) == SLOTS ==> CanLink(fs, d)
    ensures Lookup(MkFile(fs, d, name), m, other) ==
      if m == d && other == name && Lookup(fs, d, name) == None then Some(FirstClear(fs.inodeBits, 0))
        else Lookup(fs, m, other)
    ensures var n := FirstClear(fs.inodeBits, 0); Live(MkFile(fs, d, name), n) && !Live(fs, n)
    ensures var n := FirstClear(fs.inodeBits, 0);
      n < |MkFile(fs, d, name).table| && MkFile(fs, d, name).table[n] == Inode(0, NO_SECTORS)
  {
    var n := FirstClear(fs.inodeBits, 0);
    var h := NewInode(fs, n);
    NewInodeInv(fs, n);
    MakeLinked(fs, d, name, File);
    assert Live(fs, d) && Live(fs, m);
    hide Inv;
    hide LinkEntry;
    NewInodeSlots(fs, n, d);
    NewInodeSlots(fs, n, m);
    SameFind(fs, h, d, name);
    SameFind(fs, h, d, "");
    SameFind(fs, h, m, other);
    if FindName(fs, d, name, 0) == SLOTS {
      LinkLookup(h, d, Entry(name, n, File), m, other);
    } else {
      LinkExisting(h, d, Entry(name, n, File));
    }
  }

  lemma LinkExisting(fs: Fs, d: nat, e: Entry)
    requires WellFormed(fs) && d < |fs.table| && FindName(fs, d, e.name, 0) < SLOTS
    ensures LinkEntry(fs, d, e) == fs
  {}

  lemma NewInodeSlots(fs: Fs, n: nat, m: nat)
    requires n < |fs.table| && n < |fs.inodeBits| && !fs.inodeBits[n] && Live(fs, m)
    ensures forall k :: SlotAt(NewInode(fs, n), m, k) == SlotAt(fs, m, k)
    ensures NewInode(fs, n).table[m] == fs.table[m] && NewInode(fs, n).blockBits == fs.blockBits
    ensures NewInode(fs, n).disk == fs.disk
  {}

  lemma {:induction false} SameFind(fs: Fs, g: Fs, d: nat, name: string)
    requires forall k :: SlotAt(g, d, k) == SlotAt(fs, d, k)
    ensures FindName(g, d, name, 0) == FindName(fs, d, name, 0) && Lookup(g, d, name) == Lookup(fs, d, name)
  {
    var r := FindName(fs, d, name, 0);
    forall k: nat ensures NameAt(g, d, k, name) <==> NameAt(fs, d, k, name) {}
    if r < SLOTS {
      FindIs(g, d, name, r);
    }
  }

  /** remove_dir_entry empties the slots with that name and leaves every other name of every live inode in place. */
  lemma {:induction false} UnlinkSlots(fs: Fs, d: nat, name: string, i: nat, found: bool, m: nat, k: nat)
    requires Inv(fs) && d in fs.dirs && d < |fs.table| && Ordinary(name) && i <= SECTORS && Live(fs, m) && k < SLOTS
    ensures m != d ==> SlotAt(Unlink(fs, d, name, i, found), m, k) == SlotAt(fs, m, k)
    ensures NameOf(fs, d, k) != name && NameOf(fs, d, k) != "" ==>
      SlotAt(Unlink(fs, d, name, i, found), d, k) == SlotAt(fs, d, k)
    ensures NameOf(Unlink(fs, d, name, i, found), d, k) in {"", NameOf(fs, d, k)}
    decreases SECTORS - i
  {
    hide Owned;
    hide Entries;
    if i < SECTORS {
      SectorIsBlock(fs, d, i);
      if Sector(fs, d, i) == 0 {
        UnlinkSlots(fs, d, name, i + 1, found, m, k);
      } else {
        var b := BlockOf(fs, d, i);
        var entries := ClearName(fs.disk[b], name);
        var g := WriteBlock(fs, b, entries);
        var now := found || HasName(fs.disk[b], name);
        ClearSectorInv(fs, d, name, i);
        ClearedSlots(fs, d, name, i, m, k);
        if now && AllFree(entries) {
          FreedSlots(g, d, i, m, k);
        } else {
          UnlinkSlots(g, d, name, i + 1, now, m, k);
        }
      }
    }
  }

  lemma ClearedSlots(fs: Fs, d: nat, name: string, i: nat, m: nat, k: nat)
    requires Inv(fs) && d in fs.dirs && i < SECTORS && Sector(fs, d, i) != 0 && IsBlock(fs, Sector(fs, d, i))
    requires Live(fs, m) && k < SLOTS
    ensures var b := BlockOf(fs, d, i);
      var g := WriteBlock(fs, b, ClearName(fs.disk[b], name));
      && Live(g, m) && (m != d ==> SlotAt(g, m, k) == SlotAt(fs, m, k))
      && (NameOf(fs, d, k) != name ==> SlotAt(g, d, k) == SlotAt(fs, d, k))
      && NameOf(g, d, k) in {"", NameOf(fs, d, k)}
  {
    var b := BlockOf(fs, d, i);
    assert Live(fs, d);
    SlotsAfterWrite(fs, d, i, ClearName(fs.disk[b], name), m, k);
    SlotsAfterWrite(fs, d, i, ClearName(fs.disk[b], name), d, k);
  }

  lemma FreedSlots(fs: Fs, d: nat, i: nat, m: nat, k: nat)
    requires Inv(fs) && d in fs.dirs && d < |fs.table| && i < SECTORS && Sector(fs, d, i) != 0
    requires IsBlock(fs, Sector(fs, d, i))
    requires AllFree(fs.disk[BlockOf(fs, d, i)])
    ensures m != d ==> SlotAt(Release(fs, d, i), m, k) == SlotAt(fs, m, k)
    ensures NameOf(fs, d, k) != "" ==> SlotAt(Release(fs, d, i), d, k) == SlotAt(fs, d, k)
    ensures NameOf(Release(fs, d, i), d, k) in {"", NameOf(fs, d, k)}
  {
    var g := Release(fs, d, i);
    if m != d {
      SlotsAfterSector(fs, g, d, i, 0, m, k);
    }
    if k / ENTRIES != i {
      SlotsAfterSector(fs, g, d, i, 0, d, k);
    } else {
      SectorsAfter(fs, g, d, i, 0);
    }
  }

  /** Afterwards the name is gone from its directory, and every other name in any directory resolves as before. */
  lemma UnlinkLookup(fs: Fs, d: nat, name: string, m: nat, other: string)
    requires Inv(fs) && d in fs.dirs && d < |fs.table| && Ordinary(name) && m in fs.dirs && other != ""
    ensures Lookup(Unlink(fs, d, name, 0, false), m, other) ==
      if m == d && other == name then None else Lookup(fs, m, other)
  {
    var g := Unlink(fs, d, name, 0, false);
    assert Live(fs, m);
    forall k: nat | k < SLOTS
      ensures NameOf(g, d, k) in {"", NameOf(fs, d, k)}
      ensures m != d ==> SlotAt(g, m, k) == SlotAt(fs, m, k)
      ensures NameOf(fs, d, k) != name && NameOf(fs, d, k) != "" ==> SlotAt(g, d, k) == SlotAt(fs, d, k)
    {
      UnlinkSlots(fs, d, name, 0, false, m, k);
    }
    if m == d && other == name {
      NoSlotLeft(fs, d, name);
    } else {
      hide Unlink;
      hide Inv;
      SameLookup(fs, g, m, other);
    }
  }

  lemma NoSlotLeft(fs: Fs, d: nat, name: string)
    requires Inv(fs) && d in fs.dirs && d < |fs.table| && Ordinary(name)
    ensures Lookup(Unlink(fs, d, name, 0, false), d, name) == None
  {
    var g := Unlink(fs, d, name, 0, false);
    assert Live(fs, d);
    var r := FindName(g, d, name, 0);
    if r < SLOTS {
      UnlinkSlots(fs, d, name, 0, false, d, r);
      assert NameAt(fs, d, r, name);
      var k := FindName(fs, d, name, 0);
      assert NameOf(fs, d, k) == NameOf(fs, d, r);
      UnlinkRemoves(fs, d, name, 0, k);
    }
  }

  /** The sectors in `src` are marked. */
  ghost predicate Marked(fs: Fs, src: seq<nat>) {
    forall j :: 0 <= j < |src| && src[j] != 0 ==> IsBlock(fs, src[j]) && fs.blockBits[src[j] - fs.dataStart]
  }

  /** What slot `k` of a file with these sectors reads. */
  function Content(fs: Fs, src: seq<nat>, k: nat): Option<Entry> {
    if k / ENTRIES < |src| && src[k / ENTRIES] != 0 && IsBlock(fs, src[k / ENTRIES])
       && k % ENTRIES < |fs.disk[src[k / ENTRIES] - fs.dataStart]|
    then Some(fs.disk[src[k / ENTRIES] - fs.dataStart][k % ENTRIES]) else None
  }

  /** cp: every sector of the source has its contents in a block of the copy's own, and no other live inode's contents
      change. The copy may be the source itself: `src` are the sectors read before. */
  lemma {:induction false} CopyContents(fs: Fs, src: seq<nat>, n: nat, i: nat, m: nat, k: nat)
    requires Inv(fs) && Live(fs, n) && n !in fs.dirs && Live(fs, m) && k < SLOTS
    requires Copyable(fs, src, i) && Marked(fs, src)
    ensures SlotAt(CopySectors(fs, src, n, i), m, k) ==
      if m == n && i <= k / ENTRIES && Content(fs, src, k).Some? then Content(fs, src, k) else SlotAt(fs, m, k)
    decreases SECTORS - i
  {
    hide Inv;
    hide Copyable;
    hide Marked;
    hide SlotAt;
    hide Content;
    hide CopySectors;
    CopyBounds(fs, src, n, i, k);
    if i < SECTORS {
      if src[i] == 0 {
        CopyContents(fs, src, n, i + 1, m, k);
      } else {
        var g := CopyOne(fs, src, n, i, m, k);
        CopyContents(g, src, n, i + 1, m, k);
      }
    }
  }

  /** The easy rounds: none left, or nothing to copy. */
  lemma CopyBounds(fs: Fs, src: seq<nat>, n: nat, i: nat, k: nat)
    requires Inv(fs) && n < |fs.table| && k < SLOTS && Copyable(fs, src, i)
    ensures |src| == SECTORS && i <= SECTORS && k / ENTRIES < SECTORS
    ensures i == SECTORS ==> CopySectors(fs, src, n, i) == fs
    ensures i < SECTORS && src[i] == 0 ==>
      Copyable(fs, src, i + 1) && CopySectors(fs, src, n, i) == CopySectors(fs, src, n, i + 1)
    ensures Content(fs, src, k).Some? ==> src[k / ENTRIES] != 0
  {}

  /** One round: the copy gets the contents, and none of the source's blocks changes. */
  lemma CopyOne(fs: Fs, src: seq<nat>, n: nat, i: nat, m: nat, k: nat) returns (g: Fs)
    requires Inv(fs) && Live(fs, n) && n !in fs.dirs && Live(fs, m) && k < SLOTS
    requires Copyable(fs, src, i) && Marked(fs, src)
    requires i < SECTORS && src[i] != 0
    ensures Inv(g) && Live(g, n) && n !in g.dirs && Live(g, m) && Copyable(g, src, i + 1) && Marked(g, src)
    ensures CopySectors(fs, src, n, i) == CopySectors(g, src, n, i + 1)
    ensures SlotAt(g, m, k) == if m == n && k / ENTRIES == i then Content(fs, src, k) else SlotAt(fs, m, k)
    ensures Content(g, src, k) == Content(fs, src, k) && (k / ENTRIES == i ==> Content(fs, src, k).Some?)
  {
    hide Owned;
    hide Directories;
    hide Entries;
    hide SlotAt;
    hide Room;
    hide Content;
    hide Marked;
    var b := FirstClear(fs.blockBits, 0);
    CopyStepKeeps(fs, src, n, i);
    var entries := fs.disk[src[i] - fs.dataStart];
    FileGrows(fs, n, i, b, entries);
    GrowSlots(fs, n, i, b, entries, m, k);
    g := Assign(WriteBlock(fs, b, entries), n, i, b);
    ContentKept(fs, g, src, i, k);
  }

  lemma ContentKept(fs: Fs, g: Fs, src: seq<nat>, i: nat, k: nat)
    requires WellFormed(fs) && WellFormed(g) && |src| == SECTORS && i < SECTORS && src[i] != 0 && k < SLOTS
    requires g.dataStart == fs.dataStart && |g.disk| == |fs.disk| && |g.blockBits| == |fs.blockBits|
    requires forall j :: 0 <= j < SECTORS && src[j] != 0 ==>
      IsBlock(fs, src[j]) && g.disk[src[j] - fs.dataStart] == fs.disk[src[j] - fs.dataStart]
    ensures Content(g, src, k) == Content(fs, src, k)
    ensures k / ENTRIES == i ==> Content(fs, src, k) == Some(fs.disk[src[i] - fs.dataStart][k % ENTRIES])
  {}

  /** A fresh block is none of the source's: those stay marked and keep their contents. */
  lemma CopyStepKeeps(fs: Fs, src: seq<nat>, n: nat, i: nat)
    requires WellFormed(fs) && n < |fs.table| && Copyable(fs, src, i) && i < SECTORS && src[i] != 0 && Marked(fs, src)
    ensures var b := FirstClear(fs.blockBits, 0);
      && b < |fs.blockBits| && b < |fs.disk|
      && var g := Assign(WriteBlock(fs, b, fs.disk[src[i] - fs.dataStart]), n, i, b);
      && Copyable(g, src, i + 1) && Marked(g, src) && (forall m :: Live(g, m) <==> Live(fs, m))
      && forall j :: 0 <= j < SECTORS && src[j] != 0 ==>
           IsBlock(fs, src[j]) && g.disk[src[j] - fs.dataStart] == fs.disk[src[j] - fs.dataStart]
  {}

  /** The sectors of a live inode are marked blocks, and what they hold are its slots. */
  lemma SourceBlocks(fs: Fs, s: nat, k: nat)
    requires Inv(fs) && Live(fs, s) && k < SLOTS
    ensures Marked(fs, fs.table[s].sectors) && SlotAt(fs, s, k) == Content(fs, fs.table[s].sectors, k)
    ensures Sector(fs, s, k / ENTRIES) != 0 ==> SlotAt(fs, s, k).Some?
  {
    var src := fs.table[s].sectors;
    forall j | 0 <= j < SECTORS && src[j] != 0 ensures IsBlock(fs, src[j]) && fs.blockBits[src[j] - fs.dataStart] {
      assert Sector(fs, s, j) == src[j];
    }
  }

  /** The whole of cp, onto itself included. The destination holds what the source holds, in blocks of its own, and has
      its size; the source keeps its contents. */
  lemma CopyFileCopies(fs: Fs, d: nat, name: string, e: nat, dst: string, k: nat)
    requires Inv(fs) && Transferable(fs, d, name, e, dst) && CopyRoom(MkFile(fs, e, dst), d, name, e, dst) && k < SLOTS
    ensures var g, h := MkFile(fs, e, dst), CopyFile(fs, d, name, e, dst);
      var s, t := Lookup(g, d, name).value, Lookup(g, e, dst).value;
      && t < |h.table| && h.table[t].size == g.table[s].size && SlotAt(h, s, k) == SlotAt(g, s, k)
      && (Sector(g, s, k / ENTRIES) != 0 ==> SlotAt(h, t, k) == SlotAt(g, s, k))
  {
    MkFileInv(fs, e, dst);
    var g := MkFile(fs, e, dst);
    hide MkFile;
    LookupNames(g, d, name);
    LookupNames(g, e, dst);
    hide Inv;
    CopiedInto(g, Lookup(g, d, name).value, Lookup(g, e, dst).value, k);
  }

  lemma CopiedInto(g: Fs, s: nat, t: nat, k: nat)
    requires Inv(g) && Live(g, s) && Live(g, t) && t !in g.dirs && Copyable(g, g.table[s].sectors, 0) && k < SLOTS
    ensures var c := CopySectors(g, g.table[s].sectors, t, 0);
      && t < |c.table|
      && var h := WithSize(c, t, g.table[s].size);
      && h.table[t].size == g.table[s].size && SlotAt(h, s, k) == SlotAt(g, s, k)
      && (Sector(g, s, k / ENTRIES) != 0 ==> SlotAt(h, t, k) == SlotAt(g, s, k))
  {
    hide CopySectors;
    hide Copyable;
    hide Owned;
    hide Directories;
    hide Entries;
    SourceBlocks(g, s, k);
    var src := g.table[s].sectors;
    CopyContents(g, src, t, 0, s, k);
    CopyContents(g, src, t, 0, t, k);
    CopySectorsInv(g, src, t, 0);
    var c := CopySectors(g, src, t, 0);
    SizeOnly(c, t, g.table[s].size, s, k);
    SizeOnly(c, t, g.table[s].size, t, k);
  }

  lemma SizeOnly(fs: Fs, n: nat, size: nat, m: nat, k: nat)
    requires n < |fs.table|
    ensures SlotAt(WithSize(fs, n, size), m, k) == SlotAt(fs, m, k)
  {}

  /** Once the destination has been made, the two names stand for one file exactly when they are one name. */
  lemma SameFileIff(g: Fs, d: nat, name: string, e: nat, dst: string)
    requires Inv(g) && d in g.dirs && e in g.dirs && Ordinary(name) && Ordinary(dst) && TwoFiles(g, d, name, e, dst)
    ensures Lookup(g, d, name).value == Lookup(g, e, dst).value <==> d == e && name == dst
  {
    LookupNames(g, d, name);
    LookupNames(g, e, dst);
    hide Owned;
  }

  /** mv to another name: the destination holds what the source held, the source's inode is free again and its name
      gone, and the destination's name resolves to the destination. */
  lemma MoveFileMoves(fs: Fs, d: nat, name: string, e: nat, dst: string, k: nat)
    requires Inv(fs) && Transferable(fs, d, name, e, dst) && k < SLOTS && !(d == e && name == dst)
    ensures var g, h := MkFile(fs, e, dst), MoveFile(fs, d, name, e, dst);
      var s, t := Lookup(g, d, name).value, Lookup(g, e, dst).value;
      && t < |h.table| && h.table[t] == g.table[s] && SlotAt(h, t, k) == SlotAt(g, s, k) && !Live(h, s)
      && Lookup(h, d, name) == None && Lookup(h, e, dst) == Some(t) && Live(h, t)
  {
    MkFileInv(fs, e, dst);
    var g := MkFile(fs, e, dst);
    var s, t := Lookup(g, d, name).value, Lookup(g, e, dst).value;
    SameFileIff(g, d, name, e, dst);
    LookupNames(g, d, name);
    LookupNames(g, e, dst);
    DirInTable(g, d);
    DirInTable(g, e);
    hide MkFile;
    UnlinkInv(g, d, name, 0, false);
    UnlinkTable(g, d, name, 0, false);
    UnlinkSlots(g, d, name, 0, false, s, k);
    UnlinkLookup(g, d, name, d, name);
    UnlinkLookup(g, d, name, e, dst);
    var h := Unlink(g, d, name, 0, false);
    hide Unlink;
    hide Inv;
    MovedSlots(h, s, t, k);
    MovedFind(h, s, t, d, name);
    MovedFind(h, s, t, e, dst);
  }

  /** mv of a file onto itself destroys it: the name is gone and the inode free. */
  lemma SelfMoveDestroys(fs: Fs, d: nat, name: string)
    requires Inv(fs) && Transferable(fs, d, name, d, name)
    ensures var g, h := MkFile(fs, d, name), MoveFile(fs, d, name, d, name);
      Lookup(h, d, name) == None && !Live(h, Lookup(g, d, name).value)
  {
    MkFileInv(fs, d, name);
    var g := MkFile(fs, d, name);
    var s := Lookup(g, d, name).value;
    LookupNames(g, d, name);
    DirInTable(g, d);
    hide MkFile;
    UnlinkInv(g, d, name, 0, false);
    UnlinkTable(g, d, name, 0, false);
    UnlinkLookup(g, d, name, d, name);
    var h := Unlink(g, d, name, 0, false);
    hide Unlink;
    hide Inv;
    MovedFind(h, s, s, d, name);
  }

  /** The exact condition: after mv the destination's name stands for a live file if and only if it is not the source's
      own name. */
  lemma MoveKeepsFileIff(fs: Fs, d: nat, name: string, e: nat, dst: string)
    requires Inv(fs) && Transferable(fs, d, name, e, dst)
    ensures var h := MoveFile(fs, d, name, e, dst);
      Lookup(h, e, dst).Some? && Live(h, Lookup(h, e, dst).value) <==> !(d == e && name == dst)
  {
    hide MoveFile;
    hide Inv;
    hide Lookup;
    if d == e && name == dst {
      SelfMoveDestroys(fs, d, name);
    } else {
      MoveFileMoves(fs, d, name, e, dst, 0);
    }
  }

  lemma MovedSlots(fs: Fs, s: nat, t: nat, k: nat)
    requires s < |fs.inodeBits| && s < |fs.table| && t < |fs.table|
    ensures SlotAt(MoveInode(fs, s, t, fs.table[s]), t, k) == SlotAt(fs, s, k)
  {}

  lemma MovedFind(fs: Fs, s: nat, t: nat, m: nat, name: string)
    requires s < |fs.inodeBits| && s < |fs.table| && t < |fs.table| && m != t
    ensures Lookup(MoveInode(fs, s, t, fs.table[s]), m, name) == Lookup(fs, m, name)
  {
    SameFind(fs, MoveInode(fs, s, t, fs.table[s]), m, name);
  }

  /** Making the destination leaves the contents of every file alone. */
  lemma MkFileContents(fs: Fs, d: nat, name: string, m: nat, k: nat)
    requires Inv(fs) && d in fs.dirs && Ordinary(name) && MakeSpace(fs, d, name, File)
    requires Live(fs, m) && m != d && k < SLOTS
    ensures SlotAt(MkFile(fs, d, name), m, k) == SlotAt(fs, m, k)
  {
    var n := FirstClear(fs.inodeBits, 0);
    var h := NewInode(fs, n);
    NewInodeInv(fs, n);
    NewInodeSlots(fs, n, m);
    assert Live(h, m);
    if FindName(h, d, name, 0) == SLOTS && CanLink(h, d) {
      var at := LinkSlots(h, d, Entry(name, n, File));
    } else {
      LinkNothing(h, d, Entry(name, n, File));
    }
  }

  lemma LinkNothing(fs: Fs, d: nat, e: Entry)
    requires WellFormed(fs) && d < |fs.table| && LinkSpace(fs, d, e.name)
    requires !(FindName(fs, d, e.name, 0) == SLOTS && CanLink(fs, d))
    ensures LinkEntry(fs, d, e) == fs
  {}

  // ----- Growing a directory by a block that does not read as empty

  /** Two ordinary entries that can stand in one directory. */
  predicate Compatible(x: Entry, y: Entry) { x.name != y.name && x.ino != y.ino }

  /** What the block holds after its first entry could itself have been linked into `d`, beside `e`: names not yet in
      the directory, of live inodes nothing names yet, each once. */
  ghost predicate Harmless(fs: Fs, d: nat, b: nat, e: Entry) {
    b < |fs.disk| && forall j :: 1 <= j < |fs.disk[b]| && Ordinary(fs.disk[b][j].name) ==>
      var x := fs.disk[b][j];
      && Linkable(fs, x) && FindName(fs, d, x.name, 0) == SLOTS && Compatible(x, e)
      && forall l :: 1 <= l < |fs.disk[b]| && l != j && Ordinary(fs.disk[b][l].name) ==> Compatible(x, fs.disk[b][l])
  }

  /** `g` is `fs` with `entries` as sector `i` of directory `d`. */
  ghost predicate Grown(fs: Fs, g: Fs, d: nat, i: nat, entries: seq<Entry>) {
    && |entries| == ENTRIES && 1 <= i < SECTORS && d in fs.dirs && g.dirs == fs.dirs
    && (forall n :: Live(g, n) <==> Live(fs, n))
    && (forall l: nat :: l < SLOTS && l / ENTRIES == i ==> SlotAt(fs, d, l) == None)
    && (forall m: nat, l: nat :: m in fs.dirs && l < SLOTS ==>
          SlotAt(g, m, l) == if m == d && l / ENTRIES == i then Some(entries[l % ENTRIES]) else SlotAt(fs, m, l))
  }

  /** When a directory grows, the file system stays consistent if and only if the leftovers in the new block are
      harmless; a block that reads as empty always is. */
  lemma GrowthIff(fs: Fs, d: nat, e: Entry)
    requires Inv(fs) && d in fs.dirs && d < |fs.table| && Linkable(fs, e)
    requires FindName(fs, d, e.name, 0) == SLOTS && FindName(fs, d, "", 0) == SLOTS
    requires FirstZero(fs.table[d].sectors, 0) < SECTORS
    requires FirstClear(fs.blockBits, 0) < |fs.blockBits| && FirstClear(fs.blockBits, 0) < |fs.disk|
    ensures Inv(LinkEntry(fs, d, e)) <==> Harmless(fs, d, FirstClear(fs.blockBits, 0), e)
    ensures ReadsEmpty(fs, FirstClear(fs.blockBits, 0)) ==> Harmless(fs, d, FirstClear(fs.blockBits, 0), e)
  {
    hide Owned;
    hide Directories;
    hide Entries;
    hide Harmless;
    hide Grown;
    var i, b := FirstZero(fs.table[d].sectors, 0), FirstClear(fs.blockBits, 0);
    var g := LinkEntry(fs, d, e);
    FirstSectorUsed(fs, d, i);
    GrowShape(fs, d, i, b, e);
    EmptyHarmless(fs, d, b, e);
    if Harmless(fs, d, b, e) {
      HarmlessKept(fs, g, d, i, b, e);
    }
    if Entries(g) {
      KeptHarmless(fs, g, d, i, b, e);
    }
  }

  lemma FirstSectorUsed(fs: Fs, d: nat, i: nat)
    requires Inv(fs) && d in fs.dirs && i < SECTORS && Sector(fs, d, i) == 0
    ensures i != 0
  {
    assert NameAt(fs, d, 0, ".");
  }

  lemma GrowShape(fs: Fs, d: nat, i: nat, b: nat, e: Entry)
    requires Inv(fs) && d in fs.dirs && d < |fs.table| && 1 <= i < SECTORS && Sector(fs, d, i) == 0
    requires b < |fs.blockBits| && b < |fs.disk| && !fs.blockBits[b]
    ensures WellFormed(Grow(fs, d, i, b, e)) && Owned(Grow(fs, d, i, b, e))
    ensures Grown(fs, Grow(fs, d, i, b, e), d, i, fs.disk[b][0 := e])
  {
    hide Owned;
    hide Entries;
    var entries := fs.disk[b][0 := e];
    var g := Grow(fs, d, i, b, e);
    WriteOwned(fs, b, entries);
    AssignOwned(WriteBlock(fs, b, entries), d, i, b);
    forall m: nat, l: nat | m in fs.dirs && l < SLOTS
      ensures SlotAt(g, m, l) == if m == d && l / ENTRIES == i then Some(entries[l % ENTRIES]) else SlotAt(fs, m, l)
    {
      assert Live(fs, m) && Live(fs, d);
      GrowSlots(fs, d, i, b, entries, m, l);
    }
  }

  lemma EmptyHarmless(fs: Fs, d: nat, b: nat, e: Entry)
    ensures ReadsEmpty(fs, b) ==> Harmless(fs, d, b, e)
  {}

  /** The names of `g`: those of `fs` and the ordinary ones in the new sector. */
  lemma GrownNames(fs: Fs, g: Fs, d: nat, i: nat, entries: seq<Entry>, m: nat, k: nat, n: nat)
    requires Grown(fs, g, d, i, entries)
    ensures Names(g, m, k, n) <==>
      || Names(fs, m, k, n)
      || (m == d && k < SLOTS && k / ENTRIES == i && Ordinary(entries[k % ENTRIES].name) &&
        entries[k % ENTRIES].ino == n)
    ensures k < SLOTS && m == d && k / ENTRIES == i ==> !Names(fs, m, k, n)
  {}

  lemma GrownNameOf(fs: Fs, g: Fs, d: nat, i: nat, entries: seq<Entry>, k: nat)
    requires Grown(fs, g, d, i, entries) && k < SLOTS
    ensures NameOf(fs, d, k) != "" ==> NameOf(g, d, k) == NameOf(fs, d, k) && k / ENTRIES != i
  {}

  lemma KeptHarmless(fs: Fs, g: Fs, d: nat, i: nat, b: nat, e: Entry)
    requires Entries(fs) && b < |fs.disk| && |fs.disk[b]| == ENTRIES && Grown(fs, g, d, i, fs.disk[b][0 := e])
    requires Linkable(fs, e) && Entries(g)
    ensures Harmless(fs, d, b, e)
  {
    var entries := fs.disk[b][0 := e];
    forall j | 1 <= j < ENTRIES && Ordinary(entries[j].name)
      ensures Linkable(fs, entries[j]) && FindName(fs, d, entries[j].name, 0) == SLOTS
      ensures forall l :: 0 <= l < ENTRIES && l != j && Ordinary(entries[l].name) ==> Compatible(entries[j], entries[l])
    {
      var x, at := entries[j], ENTRIES * i + j;
      assert at / ENTRIES == i && at % ENTRIES == j;
      GrownNames(fs, g, d, i, entries, d, at, x.ino);
      assert Names(g, d, at, x.ino) && NameOf(g, d, at) == x.name;
      forall m, k ensures !Names(fs, m, k, x.ino) {
        GrownNames(fs, g, d, i, entries, m, k, x.ino);
      }
      forall k: nat | k < SLOTS ensures !NameAt(fs, d, k, x.name) {
        GrownNameOf(fs, g, d, i, entries, k);
      }
      forall l | 0 <= l < ENTRIES && l != j && Ordinary(entries[l].name) ensures Compatible(x, entries[l]) {
        var at' := ENTRIES * i + l;
        assert at' / ENTRIES == i && at' % ENTRIES == l;
        GrownNames(fs, g, d, i, entries, d, at', entries[l].ino);
        assert Names(g, d, at', entries[l].ino) && NameOf(g, d, at') == entries[l].name;
      }
    }
    assert forall j :: 1 <= j < ENTRIES ==> fs.disk[b][j] == entries[j];
    assert entries[0] == e;
  }

  lemma HarmlessKept(fs: Fs, g: Fs, d: nat, i: nat, b: nat, e: Entry)
    requires Directories(fs) && Entries(fs) && b < |fs.disk| && |fs.disk[b]| == ENTRIES
    requires Grown(fs, g, d, i, fs.disk[b][0 := e]) && Linkable(fs, e) && FindName(fs, d, e.name, 0) == SLOTS
    requires Harmless(fs, d, b, e)
    ensures Directories(g) && Entries(g)
  {
    var entries := fs.disk[b][0 := e];
    HarmlessEntries(fs, d, b, e);
    hide Harmless;
    forall m, k, n | Names(g, m, k, n) ensures Live(g, n) && n != ROOT {
      GrownNames(fs, g, d, i, entries, m, k, n);
    }
    forall m, k, m', k', n | Names(g, m, k, n) && Names(g, m', k', n) ensures m == m' && k == k' {
      GrownNames(fs, g, d, i, entries, m, k, n);
      GrownNames(fs, g, d, i, entries, m', k', n);
    }
    GrownUnique(fs, g, d, i, entries);
    hide UniqueNames;
  }

  lemma HarmlessEntries(fs: Fs, d: nat, b: nat, e: Entry)
    requires b < |fs.disk| && |fs.disk[b]| == ENTRIES && Harmless(fs, d, b, e)
    requires Linkable(fs, e) && FindName(fs, d, e.name, 0) == SLOTS
    ensures var entries := fs.disk[b][0 := e];
      forall j :: 0 <= j < ENTRIES && Ordinary(entries[j].name) ==>
        && Linkable(fs, entries[j]) && FindName(fs, d, entries[j].name, 0) == SLOTS
        && forall l :: 0 <= l < ENTRIES && l != j && Ordinary(entries[l].name) ==> Compatible(entries[j], entries[l])
  {
    var entries := fs.disk[b][0 := e];
    assert forall j :: 1 <= j < ENTRIES ==> fs.disk[b][j] == entries[j];
  }

  lemma GrownUnique(fs: Fs, g: Fs, d: nat, i: nat, entries: seq<Entry>)
    requires UniqueNames(fs) && Grown(fs, g, d, i, entries)
    requires forall j :: 0 <= j < ENTRIES && Ordinary(entries[j].name) ==>
      && FindName(fs, d, entries[j].name, 0) == SLOTS
      && forall l :: 0 <= l < ENTRIES && l != j && Ordinary(entries[l].name) ==> Compatible(entries[j], entries[l])
    ensures UniqueNames(g)
  {
    forall m: nat, k: nat, l: nat | m in g.dirs && k < SLOTS && l < SLOTS && Ordinary(NameOf(g, m, k)) &&
      NameOf(g, m, k) == NameOf(g, m, l)
      ensures k == l
    {
      if m == d && k / ENTRIES == i && l / ENTRIES == i {
        assert k % ENTRIES == l % ENTRIES;
      } else if m == d && k / ENTRIES == i {
        assert NameAt(fs, d, l, entries[k % ENTRIES].name);
      } else if m == d && l / ENTRIES == i {
        assert NameAt(fs, d, k, entries[l % ENTRIES].name);
      } else {
        assert NameOf(fs, m, k) == NameOf(fs, m, l);
      }
    }
  }

  /** A leftover entry of a dead inode is such a case: the entry dangles. */
  lemma StaleBlockDangles(fs: Fs, d: nat, e: Entry, j: nat)
    requires Inv(fs) && d in fs.dirs && d < |fs.table| && Linkable(fs, e)
    requires FindName(fs, d, e.name, 0) == SLOTS && FindName(fs, d, "", 0) == SLOTS
    requires FirstZero(fs.table[d].sectors, 0) < SECTORS
    requires var b := FirstClear(fs.blockBits, 0);
      && b < |fs.blockBits| && b < |fs.disk| && 1 <= j < ENTRIES
      && Ordinary(fs.disk[b][j].name) && !Live(fs, fs.disk[b][j].ino)
    ensures !Inv(LinkEntry(fs, d, e))
  {
    hide LinkEntry;
    GrowthIff(fs, d, e);
    hide Inv;
  }
}
