/** The on-disk layout of fs/fs.cc and the inode table access of fs/inode.cc. */
module Layouts {

  const SECTOR_SIZE := 512
  const MAX_FILE_NR := 1024
  const MIN_FILE_NR := 64
  /** sizeof(struct inode), packed. */
  const INODE_SIZE := 64
  const INODES_PER_SECTOR := SECTOR_SIZE / INODE_SIZE
  const BITS_PER_SECTOR := 8 * SECTOR_SIZE
  const LBA_LIMIT := 0x1_0000_0000

  function DivRoundUp(x: nat, y: nat): nat
    requires y > 0
  {
    (x + y - 1) / y
  }

  datatype SuperBlock = SuperBlock(
    startLba: nat, sectorsNr: nat,
    blockBitmapLba: nat, blockBitmapSectors: nat,
    inodeBitmapLba: nat, inodeBitmapSectors: nat,
    inodeTableLba: nat, inodeTableSectors: nat,
    dataStart: nat)

  function InodeBitmapSectors(sectorCnt: nat): nat {
    if sectorCnt > 10000 then DivRoundUp(MAX_FILE_NR, 8 * SECTOR_SIZE) else DivRoundUp(MIN_FILE_NR, SECTOR_SIZE)
  }

  function InodeTableSectors(sectorCnt: nat): nat {
    if sectorCnt > 10000 then DivRoundUp(INODE_SIZE * MAX_FILE_NR, SECTOR_SIZE)
    else DivRoundUp(INODE_SIZE * MIN_FILE_NR, SECTOR_SIZE)
  }

  function FileNr(sectorCnt: nat): nat {
    if sectorCnt > 10000 then MAX_FILE_NR else MIN_FILE_NR
  }

  /** What is left after the boot sector, the superblock, the inode bitmap and the inode table. */
  function FreeSectors(sectorCnt: nat): int {
    sectorCnt - InodeBitmapSectors(sectorCnt) - InodeTableSectors(sectorCnt) - 2
  }

  /** The partition is large enough for its metadata and a first data sector. */
  predicate Installable(startLba: nat, sectorCnt: nat) {
    FreeSectors(sectorCnt) >= 2 && startLba + sectorCnt < LBA_LIMIT
  }

  function Install(startLba: nat, sectorCnt: nat): SuperBlock
    requires Installable(startLba, sectorCnt)
  {
    var free := FreeSectors(sectorCnt);
    var estimate := DivRoundUp(free, BITS_PER_SECTOR);
    var blockBitmapSectors := DivRoundUp(free - estimate, BITS_PER_SECTOR);
    var blockBitmapLba := startLba + 2;
    var inodeBitmapLba := blockBitmapLba + blockBitmapSectors;
    var inodeTableLba := inodeBitmapLba + InodeBitmapSectors(sectorCnt);
    SuperBlock(startLba, sectorCnt, blockBitmapLba, blockBitmapSectors,
               inodeBitmapLba, InodeBitmapSectors(sectorCnt),
               inodeTableLba, InodeTableSectors(sectorCnt),
               inodeTableLba + InodeTableSectors(sectorCnt))
  }

  datatype Region = Boot | Super | BlockBitmap | InodeBitmap | InodeTable | Data

  /** The sectors [start, end) of a region. */
  function Extent(sb: SuperBlock, r: Region): (int, int) {
    match r
    case Boot => (sb.startLba, sb.startLba + 1)
    case Super => (sb.startLba + 1, sb.startLba + 2)
    case BlockBitmap => (sb.blockBitmapLba, sb.blockBitmapLba + sb.blockBitmapSectors)
    case InodeBitmap => (sb.inodeBitmapLba, sb.inodeBitmapLba + sb.inodeBitmapSectors)
    case InodeTable => (sb.inodeTableLba, sb.inodeTableLba + sb.inodeTableSectors)
    case Data => (sb.dataStart, sb.startLba + sb.sectorsNr)
  }

  predicate In(sb: SuperBlock, r: Region, lba: int) {
    Extent(sb, r).0 <= lba < Extent(sb, r).1
  }

  function DataSectors(sb: SuperBlock): int {
    sb.startLba + sb.sectorsNr - sb.dataStart
  }

  function RegionOf(sb: SuperBlock, lba: int): Region {
    if lba < sb.startLba + 1 then Boot else if lba < sb.startLba + 2 then Super
    else if lba < sb.inodeBitmapLba then BlockBitmap else if lba < sb.inodeTableLba then InodeBitmap
    else if lba < sb.dataStart then InodeTable else Data
  }

  /** The regions are ordered and non-empty, lie inside the partition, and every sector of the partition is in
      exactly one of them. */
  lemma LayoutPartitions(startLba: nat, sectorCnt: nat)
    requires Installable(startLba, sectorCnt)
    ensures var sb := Install(startLba, sectorCnt);
      && (forall r :: startLba <= Extent(sb, r).0 < Extent(sb, r).1 <= startLba + sectorCnt)
      && (forall r, lba :: startLba <= lba < startLba + sectorCnt ==> (In(sb, r, lba) <==> r == RegionOf(sb, lba)))
      && FileNr(sectorCnt) == sb.inodeTableSectors * INODES_PER_SECTOR
  {
    BitmapArithmetic(FreeSectors(sectorCnt));
  }

  /** The sizes that do not depend on the data area. */
  lemma MetadataSizes(startLba: nat, sectorCnt: nat)
    requires Installable(startLba, sectorCnt)
    ensures var sb := Install(startLba, sectorCnt);
      && sb.blockBitmapLba == startLba + 2 && sb.inodeBitmapSectors == 1
      && sb.inodeTableSectors == if sectorCnt > 10000 then 128 else 8
  {}

  // ----- How much of the data area the block bitmap covers

  function Estimate(free: nat): nat {
    DivRoundUp(free, BITS_PER_SECTOR)
  }

  function BlockBitmapSectors(free: nat): nat
    requires free >= 2
  {
    var rest: int := free - Estimate(free);
    if rest >= 0 then DivRoundUp(rest, BITS_PER_SECTOR) else 0
  }

  /** Data sectors without a bit in the block bitmap, negative when there are bits to spare. */
  function Uncovered(free: nat): int
    requires free >= 2
  {
    free - BlockBitmapSectors(free) - BlockBitmapSectors(free) * BITS_PER_SECTOR
  }

  lemma BitmapArithmetic(free: nat)
    requires free >= 2
    ensures 1 <= Estimate(free) < free
    ensures 1 <= BlockBitmapSectors(free) <= Estimate(free)
    ensures Uncovered(free) <= DivRoundUp(Estimate(free), BITS_PER_SECTOR)
    ensures BlockBitmapSectors(free) < free
  {
    var e, s := Estimate(free), BlockBitmapSectors(free);
    assert BITS_PER_SECTOR * e <= free + BITS_PER_SECTOR - 1 < BITS_PER_SECTOR * e + BITS_PER_SECTOR;
    var n := free - e;
    assert BITS_PER_SECTOR * s <= n + BITS_PER_SECTOR - 1 < BITS_PER_SECTOR * s + BITS_PER_SECTOR;
    assert Uncovered(free) <= e - s;
  }

  lemma InstallUncovered(startLba: nat, sectorCnt: nat)
    requires Installable(startLba, sectorCnt)
    ensures var sb := Install(startLba, sectorCnt);
      DataSectors(sb) - sb.blockBitmapSectors * BITS_PER_SECTOR == Uncovered(FreeSectors(sectorCnt))
  {
    BitmapArithmetic(FreeSectors(sectorCnt));
  }

  /** What the first estimate has to spare: it is made for all free sectors, the bitmap's own included. */
  function Spare(free: nat): int {
    (BITS_PER_SECTOR + 1) * Estimate(free) - free
  }

  /** Every whole bitmap sector in what is to spare is given up and becomes one more data sector; the rest are bits
      left over. */
  lemma UncoveredExactly(free: nat)
    requires free >= 2
    ensures Spare(free) >= 0
    ensures Uncovered(free) == Spare(free) / BITS_PER_SECTOR - Spare(free) % BITS_PER_SECTOR
  {
    BitmapArithmetic(free);
    var e, x := Estimate(free), Spare(free);
    var q, r := x / BITS_PER_SECTOR, x % BITS_PER_SECTOR;
    assert free - e == BITS_PER_SECTOR * e - x == BITS_PER_SECTOR * (e - q) - r;
    assert BlockBitmapSectors(free) == e - q;
  }

  /** For one partition: at most one data sector is missed if and only if the bitmap sectors given up exceed the bits
      left over by at most one. */
  lemma CoversAllButOneIff(startLba: nat, sectorCnt: nat)
    requires Installable(startLba, sectorCnt)
    ensures var sb := Install(startLba, sectorCnt);
      var x := Spare(FreeSectors(sectorCnt));
      DataSectors(sb) - sb.blockBitmapSectors * BITS_PER_SECTOR <= 1 <==> x / BITS_PER_SECTOR <= 1 + x % BITS_PER_SECTOR
  {
    InstallUncovered(startLba, sectorCnt);
    UncoveredExactly(FreeSectors(sectorCnt));
  }

  /** The bitmap misses at most one data sector on every partition with up to 2^24 free sectors, and 2^24 is the
      last size for which that can be promised. */
  lemma AtMostOneUncovered(limit: nat)
    ensures (forall free :: 2 <= free <= limit ==> Uncovered(free) <= 1) <==> limit <= 0x100_0000
  {
    if limit <= 0x100_0000 {
      forall free | 2 <= free <= limit ensures Uncovered(free) <= 1 {
        UncoveredExactly(free);
        BitmapArithmetic(free);
      }
    } else {
      assert Uncovered(0x100_0001) == 2;
    }
  }

  /** One sector really is missed on some partitions. */
  lemma OneUncovered()
    ensures Installable(0, 4109) && Uncovered(FreeSectors(4109)) == 1
  {
    assert FreeSectors(4109) == 4098;
    assert Estimate(4098) == 2;
  }

  // ----- The inode table as an array

  type Sector = s: seq<bv8> | |s| == SECTOR_SIZE witness seq(SECTOR_SIZE, _ => 0)
  type InodeBytes = s: seq<bv8> | |s| == INODE_SIZE witness seq(INODE_SIZE, _ => 0)
  /** A disk is total: every sector can be read. */
  type Disk = map<nat, Sector>

  ghost predicate Covers(d: Disk, sb: SuperBlock) {
    forall lba :: sb.startLba <= lba < sb.startLba + sb.sectorsNr ==> lba in d
  }

  /** Slot `k` of a sector of inodes. */
  function Slot(s: Sector, k: nat): InodeBytes
    requires k < INODES_PER_SECTOR
  {
    s[k * INODE_SIZE..(k + 1) * INODE_SIZE]
  }

  function WithSlot(s: Sector, k: nat, v: InodeBytes): Sector
    requires k < INODES_PER_SECTOR
  {
    s[..k * INODE_SIZE] + v + s[(k + 1) * INODE_SIZE..]
  }

  lemma SlotOfWithSlot(s: Sector, k: nat, v: InodeBytes, j: nat)
    requires k < INODES_PER_SECTOR && j < INODES_PER_SECTOR
    ensures Slot(WithSlot(s, k, v), j) == if j == k then v else Slot(s, j)
  {
    var w := WithSlot(s, k, v);
    if j < k {
      assert (j + 1) * INODE_SIZE <= k * INODE_SIZE;
    } else if j > k {
      assert (k + 1) * INODE_SIZE <= j * INODE_SIZE;
    }
  }

  function InodeLba(sb: SuperBlock, ino: nat): nat {
    sb.inodeTableLba + ino / INODES_PER_SECTOR
  }

  /** The inode table seen as an array. */
  function InodeAt(d: Disk, sb: SuperBlock, ino: nat): InodeBytes
    requires InodeLba(sb, ino) in d
  {
    Slot(d[InodeLba(sb, ino)], ino % INODES_PER_SECTOR)
  }

  class InodeTable {
    var disk: Disk
    const sb: SuperBlock

    constructor (disk: Disk, sb: SuperBlock)
      ensures this.disk == disk && this.sb == sb
    {
      this.disk, this.sb := disk, sb;
    }

    /** Read-modify-write of one sector. Within the table, it refines the assignment of one array element. */
    method SyncInode(ino: nat, v: InodeBytes)
      requires Covers(disk, sb) && InodeLba(sb, ino) in disk
      modifies this`disk
      ensures disk.Keys == old(disk.Keys) && InodeAt(disk, sb, ino) == v
      ensures forall other: nat :: other != ino && InodeLba(sb, other) in disk ==>
        InodeAt(disk, sb, other) == InodeAt(old(disk), sb, other)
      ensures forall lba :: lba in disk && lba != InodeLba(sb, ino) ==> disk[lba] == old(disk)[lba]
    {
      var sectorOffset, inSectorOffset := ino / INODES_PER_SECTOR, ino % INODES_PER_SECTOR;
      var buf := disk[sb.inodeTableLba + sectorOffset];
      ghost var was := buf;
      buf := WithSlot(buf, inSectorOffset, v);
      disk := disk[sb.inodeTableLba + sectorOffset := buf];
      SlotOfWithSlot(was, inSectorOffset, v, inSectorOffset);
      forall other: nat | other != ino && InodeLba(sb, other) in disk
        ensures InodeAt(disk, sb, other) == InodeAt(old(disk), sb, other)
      {
        if other / INODES_PER_SECTOR == sectorOffset {
          SlotOfWithSlot(was, inSectorOffset, v, other % INODES_PER_SECTOR);
        }
      }
    }

    method Ino2Inode(ino: nat) returns (v: InodeBytes)
      requires InodeLba(sb, ino) in disk
      ensures v == InodeAt(disk, sb, ino)
    {
      var buf := disk[sb.inodeTableLba + ino / INODES_PER_SECTOR];
      v := Slot(buf, ino % INODES_PER_SECTOR);
    }
  }

  /** The table access stays inside the table exactly for the inode numbers the table was sized for; the inode
      bitmap, a whole sector, offers more numbers than that. */
  lemma InodeInTableIff(startLba: nat, sectorCnt: nat, ino: nat)
    requires Installable(startLba, sectorCnt)
    ensures var sb := Install(startLba, sectorCnt); In(sb, InodeTable, InodeLba(sb, ino)) <==> ino < FileNr(sectorCnt)
    ensures var sb := Install(startLba, sectorCnt); FileNr(sectorCnt) < sb.inodeBitmapSectors * BITS_PER_SECTOR
  {
    var sb := Install(startLba, sectorCnt);
    assert sb.inodeTableSectors * INODES_PER_SECTOR == FileNr(sectorCnt);
  }
}
