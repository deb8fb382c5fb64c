/**
  The on-disk layer of the FAT32 volume: a disk of 512-byte sectors, the geometry that
  mounting derives from the boot sector, and the file allocation table as little-endian
  32-bit entries kept in every FAT copy.

  The two abstract views, the array of 28-bit entries and the data sectors of a cluster,
  are `Entry` and `Data`; the lemmas say what each write does to both of them.
*/
module FatDisk {
  import opened Arithmetic

  type byte = x: int | 0 <= x < 256
  const SECTOR_SIZE := 512
  type Sector = s: seq<byte> | |s| == SECTOR_SIZE witness seq(SECTOR_SIZE, _ => 0)

  const U32: int := 0x1_0000_0000
  const ENTRY_MASK: int := 0x1000_0000
  const BAD: int := 0x0FFF_FFF7
  const EOC: int := 0x0FFF_FFF8

  /** The boot sector fields the driver uses. */
  datatype BootSector = BootSector(
    bytesPerSector: nat, sectorsPerCluster: nat, reservedSectors: nat, tableCount: nat, rootEntries: nat,
    totalSectors16: nat, totalSectors32: nat, tableSize16: nat, tableSize32: nat, signature: nat)
  {
    function FatSize(): nat { if tableSize16 != 0 then tableSize16 else tableSize32 }

    function TotalSectors(): nat { if totalSectors16 != 0 then totalSectors16 else totalSectors32 }

    function RootDirSectors(): nat
      requires bytesPerSector > 0
    {
      (rootEntries * 32 + (bytesPerSector - 1)) / bytesPerSector
    }

    function TableSectors(): nat { tableCount * FatSize() }

    predicate Accepted() {
      && bytesPerSector > 0 && sectorsPerCluster > 0
      && PowerOfTwo(bytesPerSector) && PowerOfTwo(sectorsPerCluster)
      && reservedSectors != 0 && tableCount != 0 && FatSize() != 0
      && (signature == 0x28 || signature == 0x29)
    }
  }

  predicate PowerOfTwo(n: nat) { n == 1 || (n > 1 && n % 2 == 0 && PowerOfTwo(n / 2)) }

  datatype Mounted = Rejected | Mounted(g: Geometry)

  /** What mounting computes from the boot sector, in 32-bit arithmetic. */
  function Initialize(b: BootSector): Mounted {
    if !b.Accepted() then Rejected
    else
      var firstData := Wrap32(b.reservedSectors + b.TableSectors() + b.RootDirSectors());
      var dataSectors := Wrap32(b.TotalSectors() - firstData);
      Mounted(Geometry(b.reservedSectors, b.tableCount, b.tableSize32, firstData, b.sectorsPerCluster,
                       WholeClusters(dataSectors, b.sectorsPerCluster), b.TotalSectors()))
  }

  function WholeClusters(sectors: nat, per: nat): nat
    requires per > 0
  {
    sectors / per
  }

  function Wrap32(x: int): (r: nat)
    ensures r < U32 && (0 <= x < U32 ==> r == x)
  {
    x % U32
  }

  /** Where everything lies: the FAT copies, then the data area. */
  datatype Geometry = Geometry(
    firstFat: nat, tableCount: nat, tableSize: nat, firstData: nat, per: nat, clusters: nat, totalSectors: nat)
  {
    /** Sector `s` of FAT copy `t`. */
    function FatSector(t: nat, s: nat): nat { firstFat + s + t * tableSize }

    /** Sector `i` of cluster `c`. */
    function DataSector(c: nat, i: nat): nat
      requires c >= 2
    {
      (c - 2) * per + firstData + i
    }

    /** The table has an entry for every cluster, and lies before the data area, which is on the disk. */
    ghost predicate Sound() {
      && per > 0 && tableCount > 0 && firstFat <= firstData <= totalSectors
      && 2 < clusters <= BAD && clusters * 4 <= tableSize * SECTOR_SIZE
      && (forall t: nat, s: nat {:trigger FatSector(t, s)} | t < tableCount && s < tableSize ::
            firstFat <= FatSector(t, s) < firstData)
      && (forall c: nat, i: nat {:trigger DataSector(c, i)} | 2 <= c < clusters && i < per ::
            firstData <= DataSector(c, i) < totalSectors)
    }
  }

  /** The sector size is the drive's, the copies are spaced by the size that places the data area, the areas
      fit, and the table covers the clusters. */
  ghost predicate Mountable(b: BootSector) {
    && b.Accepted() && b.bytesPerSector == SECTOR_SIZE && b.FatSize() == b.tableSize32
    && b.reservedSectors + b.TableSectors() + b.RootDirSectors() <= b.TotalSectors() < U32
    && 2 < Initialize(b).g.clusters <= BAD && Initialize(b).g.clusters * 4 <= b.FatSize() * SECTOR_SIZE
  }

  /** Mounting then yields a sound geometry. */
  lemma InitializeIsSound(b: BootSector)
    requires Mountable(b)
    ensures Initialize(b).Mounted? && Initialize(b).g.Sound()
  {
    var g := Initialize(b).g;
    assert g.firstData == b.reservedSectors + b.TableSectors() + b.RootDirSectors();
    AreasFit(g, b.TableSectors());
  }

  lemma AreasFit(g: Geometry, tables: nat)
    requires tables == g.tableCount * g.tableSize && g.firstFat + tables <= g.firstData <= g.totalSectors
    requires g.per > 0 && g.clusters == (g.totalSectors - g.firstData) / g.per
    ensures forall t: nat, s: nat | t < g.tableCount && s < g.tableSize ::
              g.firstFat <= g.FatSector(t, s) < g.firstData
    ensures forall c: nat, i: nat | 2 <= c < g.clusters && i < g.per ::
              g.firstData <= g.DataSector(c, i) < g.totalSectors
  {
    forall t: nat, s: nat | t < g.tableCount && s < g.tableSize
      ensures g.firstFat <= g.FatSector(t, s) < g.firstData
    {
      MulGap(t, g.tableCount, g.tableSize);
    }
    forall c: nat, i: nat | 2 <= c < g.clusters && i < g.per
      ensures g.firstData <= g.DataSector(c, i) < g.totalSectors
    {
      WholeClustersFit(g.totalSectors - g.firstData, g.per, c);
    }
  }

  /**
    Where a mounted volume keeps its parts: the tables follow the reserved sectors, each as long as the boot sector
    says; cluster 2 starts after the last of them and the root directory's sectors; and clusters follow one another.
  */
  lemma MountedLayout(b: BootSector)
    requires Mountable(b)
    ensures var g := Initialize(b).g;
      && (forall s: nat :: g.FatSector(0, s) == b.reservedSectors + s)
      && (forall t: nat, s: nat :: g.FatSector(t + 1, s) == g.FatSector(t, s) + b.tableSize32)
      && (forall i: nat :: g.DataSector(2, i) ==
            b.reservedSectors + b.tableCount * (if b.tableSize16 != 0 then b.tableSize16 else b.tableSize32) +
            (b.rootEntries * 32 + 511) / 512 + i)
      && (forall c: nat, i: nat | c >= 2 :: g.DataSector(c + 1, i) == g.DataSector(c, i) + b.sectorsPerCluster)
  {
    var g := Initialize(b).g;
    forall t: nat, s: nat ensures g.FatSector(t + 1, s) == g.FatSector(t, s) + b.tableSize32 {
      assert (t + 1) * g.tableSize == t * g.tableSize + g.tableSize;
    }
    forall c: nat, i: nat | c >= 2 ensures g.DataSector(c + 1, i) == g.DataSector(c, i) + b.sectorsPerCluster {
      assert (c - 1) * g.per == (c - 2) * g.per + g.per;
    }
  }

  /** A boot sector is refused exactly for these; sizes of one byte that are powers of two are the eight listed. */
  lemma RejectedExactly(b: BootSector)
    requires b.bytesPerSector == SECTOR_SIZE && b.sectorsPerCluster < 256
    ensures Initialize(b).Rejected? <==>
      || b.sectorsPerCluster !in {1, 2, 4, 8, 16, 32, 64, 128} || b.reservedSectors == 0 || b.tableCount == 0
      || (b.tableSize16 == 0 && b.tableSize32 == 0) || b.signature !in {0x28, 0x29}
  {
    assert PowerOfTwo(512) by {
      assert PowerOfTwo(2) && PowerOfTwo(4) && PowerOfTwo(8) && PowerOfTwo(16);
      assert PowerOfTwo(32) && PowerOfTwo(64) && PowerOfTwo(128) && PowerOfTwo(256);
    }
    SmallPowers(b.sectorsPerCluster);
  }

  lemma SmallPowers(n: nat)
    requires n < 256
    ensures PowerOfTwo(n) <==> n in {1, 2, 4, 8, 16, 32, 64, 128}
  {
    if n > 1 && n % 2 == 0 { SmallPowers(n / 2); }
  }

  lemma WholeClustersFit(area: nat, k: nat, c: nat)
    requires k > 0 && 2 <= c < area / k
    ensures 0 <= (c - 2) * k <= area - k
  {
    assert (c - 2) * k + k == (c - 1) * k <= area / k * k;
    assert area / k * k + area % k == area;
  }

  function EntrySector(c: nat): nat { c * 4 / SECTOR_SIZE }

  function EntryOffset(c: nat): (o: nat)
    ensures o + 4 <= SECTOR_SIZE
  {
    c * 4 % SECTOR_SIZE
  }

  function Le32(s: Sector, o: nat): (v: nat)
    requires o + 4 <= SECTOR_SIZE
    ensures v < U32
  {
    s[o] as int + 0x100 * s[o + 1] as int + 0x1_0000 * s[o + 2] as int + 0x100_0000 * s[o + 3] as int
  }

  function PutLe32(s: Sector, o: nat, v: nat): (r: Sector)
    requires o + 4 <= SECTOR_SIZE && v < U32
  {
    s[o := v % 0x100][o + 1 := v / 0x100 % 0x100][o + 2 := v / 0x1_0000 % 0x100][o + 3 := v / 0x100_0000]
  }

  lemma Le32OfPut(s: Sector, o: nat, v: nat)
    requires o + 4 <= SECTOR_SIZE && v < U32
    ensures Le32(PutLe32(s, o, v), o) == v
    ensures forall k | 0 <= k < SECTOR_SIZE && !(o <= k < o + 4) :: PutLe32(s, o, v)[k] == s[k]
  {
    var b1, b2 := v / 0x100, v / 0x1_0000;
    assert b2 == b1 / 0x100 && v / 0x100_0000 == b2 / 0x100;
    assert v == v % 0x100 + 0x100 * (b1 % 0x100 + 0x100 * (b2 % 0x100 + 0x100 * (b2 / 0x100)));
  }

  /** The four bytes are the digits of the number to the base 256, the lowest first. */
  ghost predicate LittleEndian(s: Sector, o: nat, v: nat)
    requires o + 4 <= SECTOR_SIZE
  {
    && s[o] == v % 0x100 && s[o + 1] == v / 0x100 % 0x100
    && s[o + 2] == v / 0x1_0000 % 0x100 && s[o + 3] == v / 0x100_0000
  }

  lemma ReadsLittleEndian(s: Sector, o: nat)
    requires o + 4 <= SECTOR_SIZE
    ensures LittleEndian(s, o, Le32(s, o))
  {
    var v: int, b0: int, b1: int, b2: int, b3: int := Le32(s, o), s[o], s[o + 1], s[o + 2], s[o + 3];
    Quotient(v, 0x100, b1 + 0x100 * b2 + 0x1_0000 * b3, b0);
    Quotient(v, 0x1_0000, b2 + 0x100 * b3, b0 + 0x100 * b1);
    Quotient(v, 0x100_0000, b3, b0 + 0x100 * b1 + 0x1_0000 * b2);
    Quotient(v / 0x100, 0x100, b2 + 0x100 * b3, b1);
    Quotient(v / 0x1_0000, 0x100, b3, b2);
  }

  // ---------------------------------------------------------------- geometry

  /** Every entry lies whole in one sector of its FAT copy. */
  lemma EntrySectorInFat(g: Geometry, c: nat)
    requires g.Sound() && c < g.clusters
    ensures EntrySector(c) < g.tableSize && EntryOffset(c) + 4 <= SECTOR_SIZE
    ensures EntrySector(c) * SECTOR_SIZE + EntryOffset(c) == 4 * c
  {}

  /** Distinct (copy, sector) pairs are distinct sectors. */
  lemma FatSectorInjective(g: Geometry, t: nat, s: nat, t': nat, s': nat)
    requires s < g.tableSize && s' < g.tableSize && g.FatSector(t, s) == g.FatSector(t', s')
    ensures t == t' && s == s'
  {
    UniqueDivision(t, s, t', s', g.tableSize);
  }

  /** Distinct (cluster, index) pairs are distinct sectors. */
  lemma DataSectorInjective(g: Geometry, c: nat, i: nat, c': nat, i': nat)
    requires 2 <= c && 2 <= c' && i < g.per && i' < g.per && g.DataSector(c, i) == g.DataSector(c', i')
    ensures c == c' && i == i'
  {
    UniqueDivision(c - 2, i, c' - 2, i', g.per);
  }

  // ---------------------------------------------------------------- the two views of a disk

  type Disk = seq<Sector>

  /** Entry `c` as the driver reads it: from the first copy, masked to 28 bits. */
  function Entry(g: Geometry, d: Disk, c: nat): (v: nat)
    requires g.Sound() && |d| == g.totalSectors && c < g.clusters
  {
    EntrySectorInFat(g, c);
    Le32(d[g.FatSector(0, EntrySector(c))], EntryOffset(c)) % ENTRY_MASK
  }

  function Data(g: Geometry, d: Disk, c: nat, i: nat): Sector
    requires g.Sound() && |d| == g.totalSectors && 2 <= c < g.clusters && i < g.per
  {
    d[g.DataSector(c, i)]
  }

  /** The number that the four bytes at an offset stand for, without its top four bits. */
  ghost predicate HoldsEntry(s: Sector, o: nat, v: nat)
    requires o + 4 <= SECTOR_SIZE
  {
    && v % 0x100 == s[o] && v / 0x100 % 0x100 == s[o + 1]
    && v / 0x1_0000 % 0x100 == s[o + 2] && v / 0x100_0000 == s[o + 3] % 16
  }

  lemma WithoutTop(v: nat, r: nat)
    requires r == v % 0x1000_0000
    ensures r % 0x100 == v % 0x100 && r / 0x100 % 0x100 == v / 0x100 % 0x100
    ensures r / 0x1_0000 % 0x100 == v / 0x1_0000 % 0x100 && r / 0x100_0000 == v / 0x100_0000 % 16
  {
    var top := v / 0x1000_0000;
    var m := top * 16 + r / 0x100_0000;
    Quotient(v, 0x100_0000, m, r % 0x100_0000);
    Quotient(m, 16, top, r / 0x100_0000);
    Quotient(v, 0x1_0000, top * 0x1000 + r / 0x1_0000, r % 0x1_0000);
    Quotient(v / 0x1_0000, 0x100, top * 16 + r / 0x1_0000 / 0x100, r / 0x1_0000 % 0x100);
    Quotient(v, 0x100, top * 0x10_0000 + r / 0x100, r % 0x100);
    Quotient(v / 0x100, 0x100, top * 0x1000 + r / 0x100 / 0x100, r / 0x100 % 0x100);
  }

  /** Where an entry is read: byte `4 * c` of the table, which starts after the reserved sectors. */
  lemma EntryOnDisk(g: Geometry, d: Disk, c: nat)
    requires g.Sound() && |d| == g.totalSectors && c < g.clusters
    ensures 4 * c % 512 + 4 <= SECTOR_SIZE && g.firstFat + 4 * c / 512 < |d|
    ensures HoldsEntry(d[g.firstFat + 4 * c / 512], 4 * c % 512, Entry(g, d, c))
  {
    EntrySectorInFat(g, c);
    var x := d[g.FatSector(0, EntrySector(c))];
    ReadsLittleEndian(x, EntryOffset(c));
    WithoutTop(Le32(x, EntryOffset(c)), Entry(g, d, c));
  }

  ghost predicate CopiesAgree(g: Geometry, d: Disk)
    requires g.Sound() && |d| == g.totalSectors
  {
    forall t: nat, s: nat {:trigger g.FatSector(t, s)} | t < g.tableCount && s < g.tableSize ::
      g.FatSector(t, s) < |d| && g.FatSector(0, s) < |d| && d[g.FatSector(t, s)] == d[g.FatSector(0, s)]
  }

  // ---------------------------------------------------------------- writing an entry

  /** The disk after writing `x` as sector `s` of copies 0 to n - 1. */
  function WriteCopies(g: Geometry, d: Disk, s: nat, x: Sector, n: nat): (r: Disk)
    requires g.Sound() && |d| == g.totalSectors && n <= g.tableCount && s < g.tableSize
    ensures |r| == |d|
  {
    if n == 0 then d
    else
      WriteCopies(g, d, s, x, n - 1)[g.FatSector(n - 1, s) := x]
  }

  /** The disk after storing `v`, masked to 28 bits, as entry `c` of every copy. */
  function PutEntry(g: Geometry, d: Disk, c: nat, v: nat): (r: Disk)
    requires g.Sound() && |d| == g.totalSectors && c < g.clusters
    ensures |r| == |d|
  {
    EntrySectorInFat(g, c);
    var x := PutLe32(d[g.FatSector(0, EntrySector(c))], EntryOffset(c), v % ENTRY_MASK);
    WriteCopies(g, d, EntrySector(c), x, g.tableCount)
  }

  lemma {:induction false} WriteCopiesHit(g: Geometry, d: Disk, s: nat, x: Sector, n: nat, t: nat)
    requires g.Sound() && |d| == g.totalSectors && n <= g.tableCount && s < g.tableSize && t < n
    ensures g.FatSector(t, s) < |d| && WriteCopies(g, d, s, x, n)[g.FatSector(t, s)] == x
  {
    if t < n - 1 { WriteCopiesHit(g, d, s, x, n - 1, t); }
  }

  lemma {:induction false} WriteCopiesMiss(g: Geometry, d: Disk, s: nat, x: Sector, n: nat, k: nat)
    requires g.Sound() && |d| == g.totalSectors && n <= g.tableCount && s < g.tableSize && k < |d|
    requires forall t: nat | t < n :: g.FatSector(t, s) != k
    ensures WriteCopies(g, d, s, x, n)[k] == d[k]
  {
    if n > 0 {
      WriteCopiesMiss(g, d, s, x, n - 1, k);
    }
  }

  /** Sector `s'` of copy `t` after writing sector `s` of all copies. */
  lemma WriteCopiesAt(g: Geometry, d: Disk, s: nat, x: Sector, t: nat, s': nat)
    requires g.Sound() && |d| == g.totalSectors && s < g.tableSize && s' < g.tableSize && t < g.tableCount
    ensures g.FatSector(t, s') < |d|
    ensures WriteCopies(g, d, s, x, g.tableCount)[g.FatSector(t, s')] ==
            if s' == s then x else d[g.FatSector(t, s')]
  {
    if s' == s {
      WriteCopiesHit(g, d, s, x, g.tableCount, t);
    } else {
      forall t': nat | t' < g.tableCount ensures g.FatSector(t', s) != g.FatSector(t, s') {
        if g.FatSector(t', s) == g.FatSector(t, s') { FatSectorInjective(g, t', s, t, s'); }
      }
      WriteCopiesMiss(g, d, s, x, g.tableCount, g.FatSector(t, s'));
    }
  }

  /** Entries of one sector do not overlap. */
  lemma EntriesApart(c: nat, c': nat)
    requires c != c' && EntrySector(c) == EntrySector(c')
    ensures EntryOffset(c) + 4 <= EntryOffset(c') || EntryOffset(c') + 4 <= EntryOffset(c)
  {
    assert c * 4 == EntrySector(c) * 512 + EntryOffset(c);
    assert c' * 4 == EntrySector(c') * 512 + EntryOffset(c');
  }

  lemma Le32Elsewhere(s: Sector, o: nat, v: nat, o': nat)
    requires o + 4 <= SECTOR_SIZE && o' + 4 <= SECTOR_SIZE && v < U32 && (o + 4 <= o' || o' + 4 <= o)
    ensures Le32(PutLe32(s, o, v), o') == Le32(s, o')
  {
    Le32OfPut(s, o, v);
  }

  /** An entry as read from a sector that had `v` stored in it as entry `c`. */
  lemma EntryOfPut(x: Sector, c: nat, v: nat, c': nat)
    requires v < ENTRY_MASK && EntrySector(c') == EntrySector(c)
    ensures Le32(PutLe32(x, EntryOffset(c), v), EntryOffset(c')) % ENTRY_MASK ==
            if c' == c then v else Le32(x, EntryOffset(c')) % ENTRY_MASK
  {
    if c' == c {
      Le32OfPut(x, EntryOffset(c), v);
    } else {
      EntriesApart(c, c');
      Le32Elsewhere(x, EntryOffset(c), v, EntryOffset(c'));
    }
  }

  /** Storing an entry changes that entry alone, to the masked value. */
  lemma PutEntryReads(g: Geometry, d: Disk, c: nat, v: nat, c': nat)
    requires g.Sound() && |d| == g.totalSectors && c < g.clusters && c' < g.clusters
    ensures Entry(g, PutEntry(g, d, c, v), c') == if c' == c then v % ENTRY_MASK else Entry(g, d, c')
  {
    EntrySectorInFat(g, c);
    EntrySectorInFat(g, c');
    var old0 := d[g.FatSector(0, EntrySector(c))];
    var x := PutLe32(old0, EntryOffset(c), v % ENTRY_MASK);
    WriteCopiesAt(g, d, EntrySector(c), x, 0, EntrySector(c'));
    if EntrySector(c') == EntrySector(c) { EntryOfPut(old0, c, v % ENTRY_MASK, c'); }
  }

  /** Storing an entry keeps the copies identical and leaves every data sector alone. */
  lemma PutEntryFrame(g: Geometry, d: Disk, c: nat, v: nat)
    requires g.Sound() && |d| == g.totalSectors && c < g.clusters && CopiesAgree(g, d)
    ensures CopiesAgree(g, PutEntry(g, d, c, v))
    ensures forall k | 0 <= k < |d| && !(g.firstFat <= k < g.firstData) :: PutEntry(g, d, c, v)[k] == d[k]
    ensures forall e: nat, i: nat | 2 <= e < g.clusters && i < g.per ::
              Data(g, PutEntry(g, d, c, v), e, i) == Data(g, d, e, i)
  {
    EntrySectorInFat(g, c);
    var s := EntrySector(c);
    var x := PutLe32(d[g.FatSector(0, s)], EntryOffset(c), v % ENTRY_MASK);
    forall t: nat, s': nat | t < g.tableCount && s' < g.tableSize
      ensures g.FatSector(t, s') < |d| && g.FatSector(0, s') < |d|
      ensures PutEntry(g, d, c, v)[g.FatSector(t, s')] == PutEntry(g, d, c, v)[g.FatSector(0, s')]
    {
      WriteCopiesAt(g, d, s, x, t, s');
      WriteCopiesAt(g, d, s, x, 0, s');
    }
    forall k: nat | k < |d| && !(g.firstFat <= k < g.firstData)
      ensures PutEntry(g, d, c, v)[k] == d[k]
    {
      assert forall t: nat | t < g.tableCount :: g.FatSector(t, s) != k;
      WriteCopiesMiss(g, d, s, x, g.tableCount, k);
    }
    forall e: nat, i: nat | 2 <= e < g.clusters && i < g.per
      ensures Data(g, PutEntry(g, d, c, v), e, i) == Data(g, d, e, i)
    {
    }
  }

  // ---------------------------------------------------------------- writing a data sector

  /** Writing one data sector changes that sector of that cluster, no entry and no FAT copy. */
  lemma PutDataFrame(g: Geometry, d: Disk, c: nat, i: nat, x: Sector)
    requires g.Sound() && |d| == g.totalSectors && 2 <= c < g.clusters && i < g.per
    ensures g.DataSector(c, i) < |d|
    ensures var r := d[g.DataSector(c, i) := x];
      && (forall e: nat | e < g.clusters :: Entry(g, r, e) == Entry(g, d, e))
      && (forall e: nat, j: nat | 2 <= e < g.clusters && j < g.per ::
            Data(g, r, e, j) == if e == c && j == i then x else Data(g, d, e, j))
      && (CopiesAgree(g, d) ==> CopiesAgree(g, r))
  {
    var r := d[g.DataSector(c, i) := x];
    forall e: nat | e < g.clusters ensures Entry(g, r, e) == Entry(g, d, e) {
      EntrySectorInFat(g, e);
    }
    forall e: nat, j: nat | 2 <= e < g.clusters && j < g.per
      ensures Data(g, r, e, j) == if e == c && j == i then x else Data(g, d, e, j)
    {
      if g.DataSector(e, j) == g.DataSector(c, i) { DataSectorInjective(g, e, j, c, i); }
    }
    if CopiesAgree(g, d) {
      forall t: nat, s: nat | t < g.tableCount && s < g.tableSize
        ensures g.FatSector(t, s) < |r| && g.FatSector(0, s) < |r|
        ensures r[g.FatSector(t, s)] == r[g.FatSector(0, s)]
      {
      }
    }
  }
}
