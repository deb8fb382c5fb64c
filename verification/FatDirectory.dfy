/**
  A one-sector directory: sixteen 32-byte slots that together stand for a finite map from names to
  (cluster, size, attributes).

  A slot whose first byte is 0x00 is unused and ends every scan, 0xE5 marks a deleted slot, and
  attributes 0x0F mark long-name fragments, which scans skip.
*/
module FatDirectory {
  import opened FatDisk
  import opened FatChains
  import opened FatVolume
  import opened Options

  const SLOT_SIZE := 32
  const SLOTS := 16
  const DELETED: byte := 0xE5
  const SPACE: byte := 0x20
  const LFN: byte := 0x0F

  /** A C string: no zero byte inside. */
  type Name = seq<byte>
  type Slot = e: seq<byte> | |e| == SLOT_SIZE witness seq(SLOT_SIZE, _ => 0)

  datatype Info = Info(cluster: nat, size: nat, attributes: byte)

  // ---------------------------------------------------------------- slots

  function SlotAt(s: Sector, i: nat): Slot
    requires i < SLOTS
  {
    s[i * SLOT_SIZE..i * SLOT_SIZE + SLOT_SIZE]
  }

  function PutSlot(s: Sector, i: nat, e: Slot): Sector
    requires i < SLOTS
  {
    s[..i * SLOT_SIZE] + e + s[i * SLOT_SIZE + SLOT_SIZE..]
  }

  lemma PutSlotByte(s: Sector, i: nat, e: Slot, p: nat)
    requires i < SLOTS && p < SECTOR_SIZE
    ensures var a := i * SLOT_SIZE; PutSlot(s, i, e)[p] == if a <= p < a + SLOT_SIZE then e[p - a] else s[p]
  {}

  lemma SlotOfPut(s: Sector, i: nat, e: Slot, j: nat)
    requires i < SLOTS && j < SLOTS
    ensures SlotAt(PutSlot(s, i, e), j) == if j == i then e else SlotAt(s, j)
  {
    var r, b := PutSlot(s, i, e), j * SLOT_SIZE;
    var goal: seq<byte> := if j == i then e else SlotAt(s, j);
    assert j < i ==> b + SLOT_SIZE <= i * SLOT_SIZE;
    assert i < j ==> i * SLOT_SIZE + SLOT_SIZE <= b;
    forall k: nat | k < SLOT_SIZE ensures SlotAt(r, j)[k] == goal[k] {
      PutSlotByte(s, i, e, b + k);
      assert SlotAt(r, j)[k] == r[b + k];
    }
    assert SlotAt(r, j) == goal;
  }

  predicate Live(e: Slot) { e[0] != 0 && e[0] != DELETED && e[11] != LFN }

  /** How many of the first `k` bytes are left once trailing spaces are cleared. */
  function Strip(e: seq<byte>, k: nat): (r: nat)
    requires k <= |e|
    ensures r <= k && (forall i | r <= i < k :: e[i] == SPACE) && (r > 0 ==> e[r - 1] != SPACE)
  {
    if k > 0 && e[k - 1] == SPACE then Strip(e, k - 1) else k
  }

  /** The bytes before the first zero. */
  function CString(s: seq<byte>): Name {
    if s == [] || s[0] == 0 then [] else [s[0]] + CString(s[1..])
  }

  function NameOf(e: Slot): Name { CString(e[..Strip(e[..11], 11)]) }

  function Le16(e: Slot): nat { e[26] as int + 0x100 * e[27] as int }

  function SizeOf(e: Slot): nat {
    e[28] as int + 0x100 * e[29] as int + 0x1_0000 * e[30] as int + 0x100_0000 * e[31] as int
  }

  function InfoOf(e: Slot): Info { Info(Le16(e), SizeOf(e), e[11]) }

  function Zeros(n: nat): (r: seq<byte>)
    ensures |r| == n
  {
    seq(n, _ => 0)
  }

  function Padded(name: Name, pad: byte): (r: seq<byte>)
    requires |name| <= 11
    ensures |r| == 11
  {
    name + seq(11 - |name|, _ => pad)
  }

  function SizeBytes(size: nat): (r: seq<byte>)
    requires size < U32
    ensures |r| == 4
  {
    [size % 0x100, size / 0x100 % 0x100, size / 0x1_0000 % 0x100, size / 0x100_0000]
  }

  /** The slot the driver writes: a zero-padded name, and only the low 16 bits of the cluster. */
  function MakeSlot(name: Name, attributes: byte, cluster: nat, size: nat): Slot
    requires |name| <= 11 && size < U32
  {
    Padded(name, 0) + [attributes] + Zeros(14) + [cluster % 0x100, cluster / 0x100 % 0x100] + SizeBytes(size)
  }

  /** Renaming in place pads with spaces and keeps the rest of the slot. */
  function Renamed(e: Slot, name: Name): Slot
    requires |name| <= 11
  {
    Padded(name, SPACE) + e[11..]
  }

  function Resized(e: Slot, size: nat): Slot
    requires size < U32
  {
    e[..28] + SizeBytes(size)
  }

  function Erased(e: Slot): Slot { e[0 := DELETED] }

  /** Names the slot format can hold: at most 11 characters, no trailing space, no first byte 0xE5. */
  ghost predicate Storable(name: Name) {
    0 < |name| <= 11 && 0 !in name && name[0] != DELETED && name[|name| - 1] != SPACE
  }

  lemma {:induction false} CStringOfPadded(name: Name, tail: seq<byte>)
    requires 0 !in name && (tail == [] || tail[0] == 0)
    ensures CString(name + tail) == name
  {
    if name == [] {
      assert name + tail == tail;
    } else {
      assert (name + tail)[1..] == name[1..] + tail;
      CStringOfPadded(name[1..], tail);
    }
  }

  lemma {:induction false} StripPadded(name: Name, k: nat)
    requires |name| <= k <= 11 && |name| > 0 && name[|name| - 1] != SPACE
    ensures Strip(Padded(name, SPACE), k) == |name|
    decreases k
  {
    if k > |name| { StripPadded(name, k - 1); }
  }

  /** Both paddings read back as the name. */
  lemma NameRoundTrip(name: Name, pad: byte, e: Slot)
    requires Storable(name) && (pad == 0 || pad == SPACE) && e[..11] == Padded(name, pad)
    ensures NameOf(e) == name && e[0] == name[0]
  {
    var p := Padded(name, pad);
    assert e[0] == e[..11][0];
    if pad == SPACE {
      StripPadded(name, 11);
      assert e[..|name|] == name + [] by { assert e[..|name|] == e[..11][..|name|]; }
      CStringOfPadded(name, []);
    } else {
      var k := Strip(p, 11);
      assert p[10] == 0 || |name| == 11;
      assert k == 11;
      assert p[..11] == name + seq(11 - |name|, _ => 0);
      CStringOfPadded(name, seq(11 - |name|, _ => 0));
    }
  }

  lemma SizeRoundTrip(size: nat)
    requires size < U32
    ensures var b := SizeBytes(size);
            b[0] as int + 0x100 * b[1] as int + 0x1_0000 * b[2] as int + 0x100_0000 * b[3] as int == size
  {
    var b1, b2 := size / 0x100, size / 0x1_0000;
    assert b2 == b1 / 0x100 && size / 0x100_0000 == b2 / 0x100;
  }

  /** What of a cluster's number a slot keeps: the low half. */
  function LowHalf(cluster: nat): (low: nat)
    ensures low == cluster <==> cluster < 0x1_0000
  {
    cluster % 0x1_0000
  }

  lemma MadeBytes(name: Name, attributes: byte, cluster: nat, size: nat)
    requires |name| <= 11 && size < U32
    ensures var e, b := MakeSlot(name, attributes, cluster, size), SizeBytes(size);
      && e[..11] == Padded(name, 0) && e[11] == attributes
      && e[26] == cluster % 0x100 && e[27] == cluster / 0x100 % 0x100
      && e[28] == b[0] && e[29] == b[1] && e[30] == b[2] && e[31] == b[3]
  {}

  /** A written slot reads back as its name, size and attributes, and the low half of its cluster. */
  lemma MadeSlot(name: Name, attributes: byte, cluster: nat, size: nat)
    requires Storable(name) && attributes != LFN && size < U32
    ensures var e := MakeSlot(name, attributes, cluster, size);
      Live(e) && NameOf(e) == name && InfoOf(e) == Info(LowHalf(cluster), size, attributes)
  {
    var e := MakeSlot(name, attributes, cluster, size);
    MadeBytes(name, attributes, cluster, size);
    NameRoundTrip(name, 0, e);
    SizeRoundTrip(size);
  }

  /** Cluster 65538 is stored as cluster 2. */
  lemma ClusterLosesHighHalf()
    ensures InfoOf(MakeSlot(['A' as int], 0, 0x1_0002, 0)).cluster == 2
  {
    MadeSlot(['A' as int], 0, 0x1_0002, 0);
  }

  lemma RenamedSlot(e: Slot, name: Name)
    requires Live(e) && Storable(name)
    ensures Live(Renamed(e, name)) && NameOf(Renamed(e, name)) == name && InfoOf(Renamed(e, name)) == InfoOf(e)
  {
    var r := Renamed(e, name);
    assert r[..11] == Padded(name, SPACE);
    NameRoundTrip(name, SPACE, r);
    assert r[11..] == e[11..];
    assert forall k | 11 <= k < SLOT_SIZE :: r[k] == r[11..][k - 11] && e[k] == e[11..][k - 11];
  }

  lemma ResizedSlot(e: Slot, size: nat)
    requires Live(e) && size < U32
    ensures Live(Resized(e, size)) && NameOf(Resized(e, size)) == NameOf(e)
    ensures InfoOf(Resized(e, size)) == InfoOf(e).(size := size)
  {
    var r := Resized(e, size);
    SizeRoundTrip(size);
    assert forall k | 0 <= k <= 11 :: r[..k] == e[..k];
    assert r[28..] == SizeBytes(size);
    assert r[28] == r[28..][0] && r[29] == r[28..][1] && r[30] == r[28..][2] && r[31] == r[28..][3];
  }

  // ---------------------------------------------------------------- the directory as a map

  /** Live names are unique, and unused slots come last. */
  ghost predicate WellFormed(s: Sector) {
    && (forall i: nat, j: nat {:trigger SlotAt(s, i), SlotAt(s, j)}
          | i < j < SLOTS && Live(SlotAt(s, i)) && Live(SlotAt(s, j)) ::
          NameOf(SlotAt(s, i)) != NameOf(SlotAt(s, j)))
    && (forall i: nat, j: nat {:trigger SlotAt(s, i), SlotAt(s, j)} | i < j < SLOTS && SlotAt(s, i)[0] == 0 ::
          SlotAt(s, j)[0] == 0)
  }

  ghost predicate Holds(s: Sector, i: nat, name: Name) {
    i < SLOTS && Live(SlotAt(s, i)) && NameOf(SlotAt(s, i)) == name
  }

  ghost function Names(s: Sector): set<Name> {
    set i: nat | i < SLOTS && Live(SlotAt(s, i)) :: NameOf(SlotAt(s, i))
  }

  ghost function IndexOf(s: Sector, name: Name): (i: nat)
    requires name in Names(s)
    ensures Holds(s, i, name)
  {
    var i: nat :| i < SLOTS && Live(SlotAt(s, i)) && NameOf(SlotAt(s, i)) == name;
    i
  }

  /** What a lookup of each name is meant to yield. */
  ghost function Dir(s: Sector): map<Name, Info> {
    map name | name in Names(s) :: InfoOf(SlotAt(s, IndexOf(s, name)))
  }

  lemma DirAt(s: Sector, i: nat)
    requires WellFormed(s) && i < SLOTS && Live(SlotAt(s, i))
    ensures NameOf(SlotAt(s, i)) in Dir(s) && Dir(s)[NameOf(SlotAt(s, i))] == InfoOf(SlotAt(s, i))
  {
    var name := NameOf(SlotAt(s, i));
    assert name in Names(s);
    var j := IndexOf(s, name);
    assert Holds(s, j, name);
    assert i == j;
  }

  /** The map once a slot that held `was` holds `e`. */
  ghost function ReplacedIn(m: map<Name, Info>, was: Slot, e: Slot): map<Name, Info> {
    var kept := if Live(was) then m - {NameOf(was)} else m;
    if Live(e) then kept[NameOf(e) := InfoOf(e)] else kept
  }

  ghost function Replaced(s: Sector, i: nat, e: Slot): map<Name, Info>
    requires i < SLOTS
  {
    ReplacedIn(Dir(s), SlotAt(s, i), e)
  }

  /** A slot may be overwritten if its new name is not elsewhere and no unused slot comes before it. */
  ghost predicate Replaceable(s: Sector, i: nat, e: Slot)
    requires i < SLOTS
  {
    && (Live(e) ==> NameOf(e) !in Dir(s) || (Live(SlotAt(s, i)) && NameOf(e) == NameOf(SlotAt(s, i))))
    && e[0] != 0 && (SlotAt(s, i)[0] == 0 ==> forall j: nat | j < i :: SlotAt(s, j)[0] != 0)
  }

  /** Replacing one slot removes what it held and adds what it now holds. */
  lemma PutSlotMeans(s: Sector, i: nat, e: Slot)
    requires WellFormed(s) && i < SLOTS && Replaceable(s, i, e)
    ensures WellFormed(PutSlot(s, i, e)) && Dir(PutSlot(s, i, e)) == Replaced(s, i, e)
  {
    var r := PutSlot(s, i, e);
    forall j: nat | j < SLOTS ensures SlotAt(r, j) == if j == i then e else SlotAt(s, j) { SlotOfPut(s, i, e, j); }
    PutKeepsWellFormed(s, i, e, r);
    PutMeans(s, i, e, r);
  }

  lemma PutMeans(s: Sector, i: nat, e: Slot, r: Sector)
    requires WellFormed(s) && WellFormed(r) && i < SLOTS
    requires forall j: nat | j < SLOTS :: SlotAt(r, j) == if j == i then e else SlotAt(s, j)
    ensures Dir(r) == Replaced(s, i, e)
  {
    var m, m', was := Dir(s), Dir(r), SlotAt(s, i);
    forall n ensures SameAt(m', ReplacedIn(m, was, e), n) {
      PutNames(s, i, e, r, n);
      ReplacedAt(m, m', was, e, n);
    }
    SameMap(m', ReplacedIn(m, was, e));
  }

  lemma ReplacedAt(m: map<Name, Info>, m': map<Name, Info>, was: Slot, e: Slot, n: Name)
    requires n in m' <==> (n in m && !(Live(was) && n == NameOf(was))) || (Live(e) && n == NameOf(e))
    requires n in m' ==> m'[n] == if Live(e) && n == NameOf(e) then InfoOf(e) else m[n]
    ensures SameAt(m', ReplacedIn(m, was, e), n)
  {}

  ghost predicate SameAt(m: map<Name, Info>, m': map<Name, Info>, n: Name) {
    (n in m <==> n in m') && (n in m ==> m[n] == m'[n])
  }

  lemma SameMap(m: map<Name, Info>, m': map<Name, Info>)
    requires forall n :: SameAt(m, m', n)
    ensures m == m'
  {
    forall n | n in m ensures n in m' && m[n] == m'[n] { assert SameAt(m, m', n); }
    forall n | n in m' ensures n in m { assert SameAt(m, m', n); }
  }

  lemma PutKeepsWellFormed(s: Sector, i: nat, e: Slot, r: Sector)
    requires WellFormed(s) && i < SLOTS && Replaceable(s, i, e)
    requires forall j: nat | j < SLOTS :: SlotAt(r, j) == if j == i then e else SlotAt(s, j)
    ensures WellFormed(r)
  {
    forall j: nat | j < SLOTS && Live(SlotAt(s, j)) && j != i && Live(e) ensures NameOf(SlotAt(s, j)) != NameOf(e) {
      DirAt(s, j);
    }
  }

  lemma PutNames(s: Sector, i: nat, e: Slot, r: Sector, n: Name)
    requires WellFormed(s) && WellFormed(r) && i < SLOTS
    requires forall j: nat | j < SLOTS :: SlotAt(r, j) == if j == i then e else SlotAt(s, j)
    ensures n in Dir(r) <==>
            (n in Dir(s) && !(Live(SlotAt(s, i)) && n == NameOf(SlotAt(s, i)))) || (Live(e) && n == NameOf(e))
    ensures n in Dir(r) ==> Dir(r)[n] == if Live(e) && n == NameOf(e) then InfoOf(e) else Dir(s)[n]
  {
    if Live(e) && n == NameOf(e) {
      DirAt(r, i);
    } else if n in Dir(r) {
      var j := IndexOf(r, n);
      assert Holds(r, j, n);
      DirAt(s, j);
    } else if n in Dir(s) {
      var j := IndexOf(s, n);
      assert Holds(s, j, n);
      if j != i { DirAt(r, j); }
    }
    if n in Dir(s) && Live(SlotAt(s, i)) && n == NameOf(SlotAt(s, i)) { DirAt(s, i); }
  }

  // ---------------------------------------------------------------- scans

  /** The slot that holds `name`, or SLOTS; the scan stops at the first unused slot. */
  method FindSlot(s: Sector, name: Name) returns (j: nat)
    requires WellFormed(s)
    ensures j <= SLOTS
    ensures j < SLOTS ==> Holds(s, j, name) && name in Dir(s) && Dir(s)[name] == InfoOf(SlotAt(s, j))
    ensures j == SLOTS ==> name !in Dir(s)
  {
    j := 0;
    while j < SLOTS
      invariant j <= SLOTS
      invariant forall i: nat | i < j :: !Holds(s, i, name)
    {
      var e := SlotAt(s, j);
      if e[0] == 0 { break; }
      if Live(e) && NameOf(e) == name {
        DirAt(s, j);
        return;
      }
      j := j + 1;
    }
    assert forall i: nat | j <= i < SLOTS :: SlotAt(s, i)[0] == 0;
    j := SLOTS;
    assert forall i: nat | i < SLOTS :: !Holds(s, i, name);
    NameIsHeld(s, name);
  }

  lemma NameIsHeld(s: Sector, name: Name)
    ensures name in Dir(s) ==> exists i: nat :: Holds(s, i, name)
  {
    if name in Names(s) { assert Holds(s, IndexOf(s, name), name); }
  }

  predicate Unused(e: Slot) { e[0] == 0 || e[0] == DELETED }

  ghost predicate HasRoom(s: Sector) { exists i: nat :: i < SLOTS && Unused(SlotAt(s, i)) }

  method FindUnused(s: Sector) returns (j: nat)
    ensures j <= SLOTS && (j < SLOTS <==> HasRoom(s))
    ensures j < SLOTS ==> Unused(SlotAt(s, j)) && forall i: nat | i < j :: !Unused(SlotAt(s, i))
  {
    j := 0;
    while j < SLOTS
      invariant j <= SLOTS && forall i: nat | i < j :: !Unused(SlotAt(s, i))
    {
      if Unused(SlotAt(s, j)) { return; }
      j := j + 1;
    }
  }

  // ---------------------------------------------------------------- directory operations

  /** Cluster `dir` is a directory of one sector. */
  ghost predicate DirectoryAt(fs: FileSystem, dir: nat)
    reads fs
  {
    && fs.Valid() && fs.g.per == 1
    && 2 <= dir < fs.g.clusters && EOC <= fs.fat[dir]
    && WellFormed(fs.data[dir][0])
  }

  ghost function Listing(fs: FileSystem, dir: nat): map<Name, Info>
    requires DirectoryAt(fs, dir)
    reads fs
  {
    Dir(fs.data[dir][0])
  }

  predicate IsDirectory(attributes: byte) { attributes / 16 % 2 == 1 }

  predicate ValidFileName(name: Name) {
    0 < |name| <= 255 &&
    forall k | 0 <= k < |name| :: name[k] !in {'<' as int, '>' as int, ':' as int, '"' as int, '/' as int,
                                               '\\' as int, '|' as int, '?' as int, '*' as int}
  }

  method FindFileInDirectory(fs: FileSystem, dir: nat, name: Name) returns (r: Option<Info>)
    requires DirectoryAt(fs, dir)
    ensures r == if name in Listing(fs, dir) then Some(Listing(fs, dir)[name]) else None
  {
    var s := fs.ReadSector(dir, 0);
    var j := FindSlot(s, name);
    if j < SLOTS {
      return Some(InfoOf(SlotAt(s, j)));
    }
    return None;
  }

  /** Bit 4 of the attributes. */
  lemma DirectoryBit(a: bv8)
    ensures IsDirectory(a as int) <==> a & 0x10 != 0
  {}

  /** Names are refused exactly if empty, longer than 255, or with a character of code 34, 42, 47, 58, 60, 62, 63, 92
      or 124; one bad character spoils a name wherever it stands. */
  lemma NamesRefused(a: Name, c: byte, b: Name)
    ensures c in {34, 42, 47, 58, 60, 62, 63, 92, 124} ==> !ValidFileName(a + [c] + b)
    ensures c !in {34, 42, 47, 58, 60, 62, 63, 92, 124} && |a + [c] + b| <= 255 ==>
      (ValidFileName(a + [c] + b) <==> (a == [] || ValidFileName(a)) && (b == [] || ValidFileName(b)))
    ensures |a + [c] + b| > 255 ==> !ValidFileName(a + [c] + b)
    ensures !ValidFileName([])
  {
    var name := a + [c] + b;
    assert name[|a|] == c;
    assert forall k | 0 <= k < |a| :: name[k] == a[k];
    assert forall k | 0 <= k < |b| :: name[|a| + 1 + k] == b[k];
  }

  /**
    A directory written by any driver: slot `i` takes bytes `32 * i` to `32 * i + 31`. Unless its first byte is 0 or
    0xE5 or its twelfth 0x0F, it lists the name in its first eleven bytes, padded with spaces or zeros, with the
    attributes in byte 11, the cluster in bytes 26 and 27 and the size in bytes 28 to 31, the lowest first.
  */
  lemma ListedOnDisk(s: Sector, i: nat, name: Name, pad: byte)
    requires WellFormed(s) && i < 16 && Storable(name) && (pad == 0 || pad == 0x20)
    requires s[32 * i..32 * i + 11] == Padded(name, pad) && s[32 * i + 11] != 0x0F
    ensures name in Dir(s)
    ensures Dir(s)[name].attributes == s[32 * i + 11]
    ensures Dir(s)[name].cluster == s[32 * i + 26] as int + 0x100 * s[32 * i + 27] as int
    ensures Dir(s)[name].size == s[32 * i + 28] as int + 0x100 * s[32 * i + 29] as int +
      0x1_0000 * s[32 * i + 30] as int + 0x100_0000 * s[32 * i + 31] as int
  {
    var e := SlotAt(s, i);
    assert e[..11] == s[32 * i..32 * i + 11];
    assert forall k | 0 <= k < 32 :: e[k] == s[32 * i + k];
    NameRoundTrip(name, pad, e);
    DirAt(s, i);
  }

  /** Such a slot is passed over, and none after a first byte of 0 is read. */
  lemma PassedOver(s: Sector, i: nat, name: Name)
    requires i < 16
    ensures s[32 * i] == 0xE5 || s[32 * i + 11] == 0x0F || s[32 * i] == 0 ==> !Holds(s, i, name)
    ensures WellFormed(s) && s[32 * i] == 0 ==> forall j: nat | i <= j < 16 :: !Holds(s, j, name)
  {
    assert forall j: nat | j < 16 :: SlotAt(s, j)[0] == s[32 * j] && SlotAt(s, j)[11] == s[32 * j + 11];
  }

  /** Write one slot of the directory's sector back to disk. */
  method StoreSlot(fs: FileSystem, dir: nat, s: Sector, j: nat, e: Slot)
    requires DirectoryAt(fs, dir) && s == fs.data[dir][0] && j < SLOTS && Replaceable(s, j, e)
    modifies fs
    ensures DirectoryAt(fs, dir) && fs.fat == old(fs.fat)
    ensures fs.data == old(fs.data)[dir := fs.data[dir]]
    ensures Listing(fs, dir) == Replaced(s, j, e)
  {
    PutSlotMeans(s, j, e);
    fs.WriteSector(dir, 0, PutSlot(s, j, e));
  }

  method WriteDirectoryEntry(fs: FileSystem, dir: nat, name: Name, attributes: byte, cluster: nat, size: nat)
    returns (ok: bool)
    requires DirectoryAt(fs, dir) && Storable(name) && attributes != LFN && size < U32
    requires name !in Listing(fs, dir)
    modifies fs
    ensures DirectoryAt(fs, dir) && fs.fat == old(fs.fat)
    ensures ok == old(HasRoom(fs.data[dir][0]))
    ensures !ok ==> fs.data == old(fs.data)
    ensures fs.data == old(fs.data)[dir := fs.data[dir]]
    ensures ok ==> Listing(fs, dir) == old(Listing(fs, dir))[name := Info(LowHalf(cluster), size, attributes)]
  {
    var s := fs.ReadSector(dir, 0);
    var j := FindUnused(s);
    if j == SLOTS {
      return false;
    }
    MadeSlot(name, attributes, cluster, size);
    StoreSlot(fs, dir, s, j, MakeSlot(name, attributes, cluster, size));
    return true;
  }

  /** Insert: a new name gets the first free cluster, of whose number only the low half is stored, so that the
      entry names the cluster exactly if it is below 65536. Every failure, also for want of a slot, leaves the
      table and the disk as they were. The cluster taken, or 0. */
  method InsertEntry(fs: FileSystem, dir: nat, name: Name, attributes: byte) returns (cluster: nat)
    requires DirectoryAt(fs, dir) && attributes != LFN && (ValidFileName(name) ==> Storable(name))
    modifies fs
    ensures DirectoryAt(fs, dir)
    ensures cluster != 0 <==> (&& ValidFileName(name) && name !in old(Listing(fs, dir))
                               && FirstFree(old(fs.fat), 2) != 0 && old(HasRoom(fs.data[dir][0])))
    ensures cluster == 0 ==> fs.fat == old(fs.fat) && fs.data == old(fs.data)
    ensures fs.data == old(fs.data)[dir := fs.data[dir]]
    ensures cluster != 0 ==> cluster == FirstFree(old(fs.fat), 2) && fs.fat == old(fs.fat)[cluster := EOC]
    ensures cluster != 0 ==>
      Listing(fs, dir) == old(Listing(fs, dir))[name := Info(LowHalf(cluster), 0, attributes)]
  {
    if !ValidFileName(name) {
      return 0;
    }
    var found := FindFileInDirectory(fs, dir, name);
    if found.Some? {
      return 0;
    }
    cluster := fs.AllocateCluster();
    if cluster == 0 {
      return 0;
    }
    var ok := WriteDirectoryEntry(fs, dir, name, attributes, cluster, 0);
    if !ok {
      fs.FreeCluster(cluster);
      cluster := 0;
    }
  }

  method CreateFile(fs: FileSystem, dir: nat, name: Name, attributes: byte) returns (ok: bool)
    requires DirectoryAt(fs, dir) && attributes != LFN && (ValidFileName(name) ==> Storable(name))
    modifies fs
    ensures DirectoryAt(fs, dir)
    ensures ok == (&& ValidFileName(name) && name !in old(Listing(fs, dir))
                   && FirstFree(old(fs.fat), 2) != 0 && old(HasRoom(fs.data[dir][0])))
    ensures !ok ==> fs.fat == old(fs.fat) && fs.data == old(fs.data)
    ensures fs.data == old(fs.data)[dir := fs.data[dir]]
    ensures ok ==> fs.fat == old(fs.fat)[FirstFree(old(fs.fat), 2) := EOC]
    ensures ok ==>
      var c := FirstFree(old(fs.fat), 2);
      && Listing(fs, dir) == old(Listing(fs, dir))[name := Info(LowHalf(c), 0, attributes)]
      && (Listing(fs, dir)[name].cluster == c <==> c < 0x1_0000)
  {
    var cluster := InsertEntry(fs, dir, name, attributes);
    return cluster != 0;
  }

  lemma UpdateInPlace(m: map<Name, Info>, name: Name, info: Info)
    ensures (m - {name})[name := info] == m[name := info]
  {}

  /** Update: only the size of that name changes. */
  method UpdateFileSize(fs: FileSystem, dir: nat, name: Name, size: nat) returns (ok: bool)
    requires DirectoryAt(fs, dir) && size < U32
    modifies fs
    ensures DirectoryAt(fs, dir) && fs.fat == old(fs.fat)
    ensures fs.data == old(fs.data)[dir := fs.data[dir]]
    ensures ok == (name in old(Listing(fs, dir))) && (!ok ==> fs.data == old(fs.data))
    ensures Listing(fs, dir) ==
            if ok then old(Listing(fs, dir))[name := old(Listing(fs, dir))[name].(size := size)]
            else old(Listing(fs, dir))
  {
    var s := fs.ReadSector(dir, 0);
    var j := FindSlot(s, name);
    if j == SLOTS {
      return false;
    }
    ResizedSlot(SlotAt(s, j), size);
    UpdateInPlace(Dir(s), name, InfoOf(SlotAt(s, j)).(size := size));
    StoreSlot(fs, dir, s, j, Resized(SlotAt(s, j), size));
    return true;
  }

  /** Rekey, within one directory. An existing file is not replaced; a name of the directory itself is taken as
      the place to move to, where the file is already. */
  method RenameFile(fs: FileSystem, dir: nat, source: Name, dest: Name) returns (ok: bool)
    requires DirectoryAt(fs, dir) && (ValidFileName(dest) ==> Storable(dest))
    requires dest in Listing(fs, dir) && IsDirectory(Listing(fs, dir)[dest].attributes) ==>
               Listing(fs, dir)[dest].cluster == dir
    modifies fs
    ensures DirectoryAt(fs, dir) && fs.fat == old(fs.fat)
    ensures fs.data == old(fs.data)[dir := fs.data[dir]]
    ensures ok == (&& ValidFileName(dest) && source in old(Listing(fs, dir))
                   && (dest in old(Listing(fs, dir)) ==> IsDirectory(old(Listing(fs, dir))[dest].attributes)))
    ensures !ok || dest in old(Listing(fs, dir)) ==> fs.data == old(fs.data)
    ensures Listing(fs, dir) ==
            if ok && dest !in old(Listing(fs, dir))
            then (old(Listing(fs, dir)) - {source})[dest := old(Listing(fs, dir))[source]]
            else old(Listing(fs, dir))
  {
    if !ValidFileName(dest) {
      return false;
    }
    var found := FindFileInDirectory(fs, dir, source);
    if found.None? {
      return false;
    }
    var taken := FindFileInDirectory(fs, dir, dest);
    if taken.Some? {
      return IsDirectory(taken.value.attributes);
    }
    var s := fs.ReadSector(dir, 0);
    var j := FindSlot(s, source);
    RenamedSlot(SlotAt(s, j), dest);
    StoreSlot(fs, dir, s, j, Renamed(SlotAt(s, j), dest));
    return true;
  }

  /** Remove: the name disappears and exactly its chain becomes free. */
  method DeleteFile(fs: FileSystem, dir: nat, name: Name, ghost chain: Chain) returns (ok: bool)
    requires DirectoryAt(fs, dir)
    requires name in Listing(fs, dir) && !IsDirectory(Listing(fs, dir)[name].attributes) ==>
               IsChain(fs.fat, chain) && chain[0] == Listing(fs, dir)[name].cluster && dir !in chain
    modifies fs
    ensures DirectoryAt(fs, dir)
    ensures fs.data == old(fs.data)[dir := fs.data[dir]]
    ensures ok == (name in old(Listing(fs, dir)) && !IsDirectory(old(Listing(fs, dir))[name].attributes))
    ensures !ok ==> fs.fat == old(fs.fat) && fs.data == old(fs.data)
    ensures ok ==> fs.fat == FreeChain(old(fs.fat), chain)
    ensures ok ==> Listing(fs, dir) == old(Listing(fs, dir)) - {name}
  {
    var found := FindFileInDirectory(fs, dir, name);
    if found.None? || IsDirectory(found.value.attributes) {
      return false;
    }
    var s := fs.ReadSector(dir, 0);
    var j := FindSlot(s, name);
    StoreSlot(fs, dir, s, j, Erased(SlotAt(s, j)));
    fs.FreeFile(found.value.cluster, chain);
    return true;
  }
}
