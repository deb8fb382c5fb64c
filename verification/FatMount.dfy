/**
  Mounting, and the driver's methods on the current directory: each is an operation of `FatDrive`, from the root
  that a mount formats and from every directory the driver makes.
*/
module FatMount {
  import opened FatDisk
  import opened FatChains
  import opened FatVolume
  import opened FatDirectory
  import opened FatDrive

  const ROOT: nat := 2
  const DIRECTORY: byte := 0x10
  const BLANK: Sector := Zeros(SECTOR_SIZE)

  // ---------------------------------------------------------------- new directories

  /** The slot of "." or "..", padded with spaces by a mount and with zeros by the creation of a directory. */
  function DotSlot(name: Name, pad: byte, cluster: nat): Slot
    requires |name| <= 11
  {
    Padded(name, pad) + [DIRECTORY] + Zeros(14) + [cluster % 0x100, cluster / 0x100 % 0x100] + Zeros(4)
  }

  /** The sector of a new directory. */
  function DotSector(pad: byte, self: nat, up: nat): Sector {
    PutSlot(PutSlot(BLANK, 0, DotSlot(DOT, pad, self)), 1, DotSlot(DOTDOT, pad, up))
  }

  lemma DotSlotBytes(name: Name, pad: byte, cluster: nat, e: Slot)
    requires |name| <= 11 && e == DotSlot(name, pad, cluster)
    ensures e[..11] == Padded(name, pad) && e[11] == DIRECTORY
    ensures e[26] == cluster % 0x100 && e[27] == cluster / 0x100 % 0x100 && e[28] == e[29] == e[30] == e[31] == 0
  {}

  lemma DotSlotReads(name: Name, pad: byte, cluster: nat, e: Slot)
    requires name in DOTS && (pad == 0 || pad == SPACE) && e == DotSlot(name, pad, cluster)
    ensures Live(e) && NameOf(e) == name && InfoOf(e) == Info(LowHalf(cluster), 0, DIRECTORY)
  {
    DotSlotBytes(name, pad, cluster, e);
    NameRoundTrip(name, pad, e);
  }

  /** Byte by byte: the names at 0 and 32, eleven bytes each, the attributes at 11 and 43, the low halves of the
      clusters at 26 and 58, and zeros elsewhere. */
  lemma DotSectorBytes(pad: byte, self: nat, up: nat, s: Sector, k: nat)
    requires s == DotSector(pad, self, up) && k < 512
    ensures s[k] ==
      if k == 0 || k == 32 || k == 33 then '.' as int
      else if 1 <= k < 11 || 34 <= k < 43 then pad
      else if k == 11 || k == 43 then 0x10
      else if k == 26 then self % 256 else if k == 27 then self / 256 % 256
      else if k == 58 then up % 256 else if k == 59 then up / 256 % 256
      else 0
  {
    var dot, dotdot := DotSlot(DOT, pad, self), DotSlot(DOTDOT, pad, up);
    PutSlotByte(BLANK, 0, dot, k);
    PutSlotByte(PutSlot(BLANK, 0, dot), 1, dotdot, k);
  }

  lemma BlankSector()
    ensures WellFormed(BLANK) && Dir(BLANK) == map[]
    ensures forall i: nat | i < SLOTS :: SlotAt(BLANK, i)[0] == 0
  {
    forall i: nat | i < SLOTS ensures SlotAt(BLANK, i)[0] == 0 && !Live(SlotAt(BLANK, i)) {
      assert SlotAt(BLANK, i)[0] == BLANK[i * SLOT_SIZE];
    }
    assert Names(BLANK) == {};
  }

  /** It lists "." and "..", by the low halves of their clusters, and has room. */
  lemma DotSectorMeans(pad: byte, self: nat, up: nat, s: Sector)
    requires (pad == 0 || pad == SPACE) && s == DotSector(pad, self, up)
    ensures WellFormed(s) && HasRoom(s) && Holds(s, 0, DOT)
    ensures Dir(s) == map[DOT := Info(LowHalf(self), 0, DIRECTORY), DOTDOT := Info(LowHalf(up), 0, DIRECTORY)]
  {
    var dot, dotdot := DotSlot(DOT, pad, self), DotSlot(DOTDOT, pad, up);
    DotSlotReads(DOT, pad, self, dot);
    DotSlotReads(DOTDOT, pad, up, dotdot);
    BlankSector();
    PutSlotMeans(BLANK, 0, dot);
    var half := PutSlot(BLANK, 0, dot);
    SlotOfPut(BLANK, 0, dot, 0);
    SlotOfPut(BLANK, 0, dot, 1);
    SlotOfPut(BLANK, 0, dot, 2);
    PutSlotMeans(half, 1, dotdot);
    SlotOfPut(half, 1, dotdot, 0);
    SlotOfPut(half, 1, dotdot, 2);
    assert Unused(SlotAt(s, 2));
  }

  lemma DotsAreTidy(l: map<Name, Info>, dir: nat, parent: nat)
    requires l == map[DOT := Info(LowHalf(dir), 0, DIRECTORY), DOTDOT := Info(LowHalf(parent), 0, DIRECTORY)]
    ensures Tidy(l, {dir, parent}, dir, parent) <==> dir < 0x1_0000 && parent < 0x1_0000
    ensures l - DOTS == map[] && l.Keys == DOTS
  {
    assert {dir, parent} - {dir, parent} == {};
    assert DOT in l && DOTDOT in l;
  }

  /** A new directory meets the invariant if and only if both clusters are stored whole, and holds no file. */
  lemma NewDirectoryIsSane(d: Drive, dir: nat, pad: byte)
    requires Framed(d, dir) && d.live.Keys == {dir, d.parent} && (pad == 0 || pad == SPACE)
    requires d.data[dir][0] == DotSector(pad, dir, d.parent)
    ensures Sane(d, dir) <==> dir < 0x1_0000 && d.parent < 0x1_0000
    ensures Files(d, dir) == map[] && HasRoom(d.data[dir][0])
  {
    DotSectorMeans(pad, dir, d.parent, d.data[dir][0]);
    DotsAreTidy(Listed(d, dir), dir, d.parent);
  }

  // ---------------------------------------------------------------- mounting

  /** What a mount makes of the data: a root whose first byte is 0 is formatted. */
  function Rooted(data: Clusters): (r: Clusters)
    requires ROOT < |data| && |data[ROOT]| == 1
  {
    if data[ROOT][0][0] == 0 then WithSector(data, ROOT, 0, DotSector(SPACE, ROOT, ROOT)) else data
  }

  /** A volume whose root was formatted. */
  ghost function FreshDrive(fat: Fat, data: Clusters): Drive
    requires ROOT < |data| && |data[ROOT]| == 1
  {
    Drive(fat, Rooted(data), map[ROOT := [ROOT]], ROOT)
  }

  ghost predicate Formattable(fat: Fat, data: Clusters) {
    Small(fat) && |data| == |fat| && Shaped(data, 1) && EOC <= fat[ROOT] && data[ROOT][0][0] == 0
  }

  lemma MountIsSane(fat: Fat, data: Clusters)
    requires Formattable(fat, data)
    ensures var d := FreshDrive(fat, data);
      && Sane(d, ROOT) && Files(d, ROOT) == map[] && HasRoom(d.data[ROOT][0])
      && Listed(d, ROOT) == map[DOT := Info(ROOT, 0, DIRECTORY), DOTDOT := Info(ROOT, 0, DIRECTORY)]
  {
    var d := FreshDrive(fat, data);
    DotSectorMeans(SPACE, ROOT, ROOT, d.data[ROOT][0]);
    assert IsChain(fat, [ROOT]);
    NewDirectoryIsSane(d, ROOT, SPACE);
  }

  /** Every run from a freshly mounted volume stays within the invariant if and only if its operations keep it. */
  lemma RunFromMount(fat: Fat, data: Clusters, ds: seq<Drive>, acts: seq<Action>, oks: seq<bool>)
    requires Formattable(fat, data) && IsRun(ds, acts, oks, ROOT) && ds[0] == FreshDrive(fat, data)
    ensures (forall i | 0 <= i < |ds| :: Sane(ds[i], ROOT)) <==>
            (forall i: nat | i < |acts| :: KeepsAt(ds, acts, ROOT, i))
  {
    MountIsSane(fat, data);
    RunStaysSane(ds, acts, oks, ROOT);
  }

  method FormatRoot(fs: FileSystem)
    requires fs.Valid() && fs.g.per == 1 && ROOT < fs.g.clusters
    modifies fs
    ensures fs.Valid() && fs.fat == old(fs.fat) && fs.data == Rooted(old(fs.data))
    ensures old(fs.data)[2][0][0] == 0 ==> forall k | 1 <= k < 11 || 34 <= k < 43 :: fs.data[2][0][k] == 0x20
  {
    var s := fs.ReadSector(ROOT, 0);
    if s[0] == 0 {
      forall k: nat | 1 <= k < 11 || 34 <= k < 43 ensures DotSector(SPACE, ROOT, ROOT)[k] == 0x20 {
        DotSectorBytes(SPACE, ROOT, ROOT, DotSector(SPACE, ROOT, ROOT), k);
      }
      fs.WriteSector(ROOT, 0, DotSector(SPACE, ROOT, ROOT));
    }
  }

  // ---------------------------------------------------------------- drives that lose the invariant

  const LETTER: Name := ['A' as int]
  const TEXT: seq<byte> := seq(SECTOR_SIZE, _ => 'A' as int)

  /** A volume with every cluster below 65538 in use. */
  function FilledFat(): Fat { seq(0x1_0003, i => if i < 0x1_0002 then EOC else 0) }

  function BlankData(n: nat): Clusters { seq(n, _ => [BLANK]) }

  lemma LetterNamesFile()
    ensures LETTER !in DOTS && ValidFileName(LETTER) && Storable(LETTER)
  {
    assert LETTER[0] != DOT[0];
  }

  lemma FilledIsFormattable()
    ensures Formattable(FilledFat(), BlankData(0x1_0003)) && FirstFree(FilledFat(), 2) == 0x1_0002
  {
    assert FilledFat()[0x1_0002] == 0;
    assert BlankData(0x1_0003)[ROOT] == [BLANK];
  }

  lemma CreationTruncates(fat: Fat, data: Clusters, d: Drive, a: Action)
    requires Formattable(fat, data) && FirstFree(fat, 2) == 0x1_0002
    requires d == FreshDrive(fat, data) && a == Make(LETTER, 0)
    ensures Sane(d, ROOT) && Succeeds(d, a, ROOT) && !Keeps(d, a, ROOT)
  {
    MountIsSane(fat, data);
    LetterNamesFile();
    assert LETTER !in Listed(d, ROOT);
    assert Succeeds(d, a, ROOT);
  }

  lemma StoredAsRoot(l: map<Name, Info>, a: Action, free: nat)
    requires a.Make? && free == 0x1_0002
    ensures RelistedIn(l, a, free)[a.name].cluster == ROOT
  {
    assert LowHalf(0x1_0002) == 2;
  }

  /** A creation on it takes cluster 65538, lists it as cluster 2, and with that the root itself as a file. */
  lemma CreationListsRoot(d: Drive, d': Drive)
    requires d == FreshDrive(FilledFat(), BlankData(0x1_0003))
    ensures Sane(d, ROOT) && Succeeds(d, Make(LETTER, 0), ROOT)
    ensures Leads(d, Make(LETTER, 0), true, d', ROOT) ==>
      !Sane(d', ROOT) && Framed(d', ROOT) && Listed(d', ROOT)[LETTER].cluster == ROOT
  {
    FilledIsFormattable();
    CreationTruncates(FilledFat(), BlankData(0x1_0003), d, Make(LETTER, 0));
    if Leads(d, Make(LETTER, 0), true, d', ROOT) {
      LeadsKeepsSane(d, Make(LETTER, 0), true, d', ROOT);
      ListingKeepsFrame(d, Make(LETTER, 0), d', ROOT);
      StoredAsRoot(Listed(d, ROOT), Make(LETTER, 0), FirstFree(d.fat, 2));
    }
  }

  lemma RenamingTurnsDot(fat: Fat, data: Clusters, d: Drive, a: Action)
    requires Formattable(fat, data) && d == FreshDrive(fat, data) && a == Rekey(DOT, LETTER)
    ensures Sane(d, ROOT) && Succeeds(d, a, ROOT) && !Keeps(d, a, ROOT) && Relisted(d, a, ROOT)[LETTER].cluster == ROOT
  {
    MountIsSane(fat, data);
    LetterNamesFile();
  }

  /** To rename "." makes the root a file of its own. */
  lemma RenamedDotListsRoot(fat: Fat, data: Clusters, d: Drive, d': Drive)
    requires Formattable(fat, data) && d == FreshDrive(fat, data)
    ensures Sane(d, ROOT) && Succeeds(d, Rekey(DOT, LETTER), ROOT)
    ensures Leads(d, Rekey(DOT, LETTER), true, d', ROOT) ==>
      !Sane(d', ROOT) && Framed(d', ROOT) && Listed(d', ROOT)[LETTER].cluster == ROOT
  {
    RenamingTurnsDot(fat, data, d, Rekey(DOT, LETTER));
    if Leads(d, Rekey(DOT, LETTER), true, d', ROOT) {
      LeadsKeepsSane(d, Rekey(DOT, LETTER), true, d', ROOT);
      ListingKeepsFrame(d, Rekey(DOT, LETTER), d', ROOT);
    }
  }

  lemma TextIsNoListing()
    ensures |TEXT| == SECTOR_SIZE && !WellFormed(Block(TEXT, 0))
  {
    var s := Block(TEXT, 0);
    assert forall k | 0 <= k < SECTOR_SIZE :: s[k] == 'A' as int;
    assert SlotAt(s, 0)[0] == SlotAt(s, 0)[11] == 'A' as int;
    assert SlotAt(s, 0) == SlotAt(s, 1);
    assert Live(SlotAt(s, 0));
  }

  lemma TextReaches(fat: Fat, dir: nat)
    requires IsChain(fat, [dir])
    ensures WriteChain(fat, [dir], ClustersFor(SECTOR_SIZE, 1)).ok
  {
    assert ClustersFor(SECTOR_SIZE, 1) == 1;
  }

  /** Text written to the root, as the shell's redirection does, is no directory. */
  lemma TextOverRoot(fat: Fat, data: Clusters, d: Drive, d': Drive)
    requires Formattable(fat, data) && d == FreshDrive(fat, data)
    ensures Sane(d, ROOT) && Succeeds(d, Put(DOT, TEXT, SECTOR_SIZE), ROOT)
    ensures Leads(d, Put(DOT, TEXT, SECTOR_SIZE), true, d', ROOT) ==> !Sane(d', ROOT)
  {
    MountIsSane(fat, data);
    TextIsNoListing();
    TextReaches(fat, ROOT);
    if Leads(d, Put(DOT, TEXT, SECTOR_SIZE), true, d', ROOT) {
      LeadsKeepsSane(d, Put(DOT, TEXT, SECTOR_SIZE), true, d', ROOT);
    }
  }

  // ---------------------------------------------------------------- the driver's methods

  /** The bytes that a listed name leads to. */
  ghost function BytesNamed(d: Drive, dir: nat, name: Name): seq<byte>
    requires Sane(d, dir) && name in Listed(d, dir)
  {
    HeadOfChain(d, dir, name);
    Bytes(d, dir, Listed(d, dir)[name].cluster)
  }

  /** A sector written outside the directory. */
  lemma SaneElsewhere(d: Drive, d': Drive, dir: nat, c: nat, x: Sector)
    requires dir < |d.data| && c < |d.data| && c != dir && Shaped(d.data, 1)
    requires d' == d.(data := WithSector(d.data, c, 0, x))
    ensures Sane(d', dir) <==> Sane(d, dir)
  {
    assert d'.data[dir] == d.data[dir];
    assert Shaped(d'.data, 1);
    assert Tables(d') == Tables(d);
  }

  lemma OneSectorWritten(fat: Fat, before: Clusters, data: Clusters, c: nat, x: Sector)
    requires Small(fat) && |before| == |fat| && Shaped(before, 1) && IsChain(fat, [c]) && fat[c] == EOC
    requires data == WithSector(before, c, 0, x)
    ensures WriteChain(fat, [c], ClustersFor(SECTOR_SIZE, 1)) == Written(fat, [c], true)
    ensures SectorsFor(SECTOR_SIZE) == 1 && Wrote(before, data, [c], true, 1, x, SECTOR_SIZE)
  {
    assert Span(1, 1) == 1;
    assert Block(x, 0) == x;
    assert PlaceIn([c], c) == 0;
    var filled := Filling(before, [c], 1, x, 1);
    forall k: nat | k < |before| ensures filled[k] == data[k] {
      assert filled[k] == ClusterAfter(before[k], [c], k, 1, x, 1);
    }
    assert filled == data;
    WroteAll(fat, before, data, [c], c, 1, 1, x, SECTOR_SIZE);
  }

  /** The sector of a directory just created is written to a listed name. */
  lemma DotsArePut(d: Drive, d': Drive, dir: nat, name: Name, c: nat, x: Sector)
    requires Sane(d, dir) && name in Listed(d, dir) && Listed(d, dir)[name].cluster == c
    requires c in d.live && d.live[c] == [c] && d.fat[c] == EOC
    requires d' == d.(data := WithSector(d.data, c, 0, x))
    ensures Leads(d, Put(name, x, SECTOR_SIZE), true, d', dir)
  {
    HeadOfChain(d, dir, name);
    OneSectorWritten(d.fat, d.data, d'.data, c, x);
    assert d.live == d.live[c := [c]];
    PutIs(d, name, x, SECTOR_SIZE, Written(d.fat, [c], true), d', dir);
  }

  /** The drive as seen from a directory just created in another. */
  ghost function Inside(d: Drive, c: nat, dir: nat): Drive { Drive(d.fat, d.data, map[c := [c], dir := [dir]], dir) }

  lemma TwoChains(fat: Fat, c: nat, dir: nat, live: map<nat, Chain>)
    requires Small(fat) && c != dir && IsChain(fat, [c]) && IsChain(fat, [dir]) && live == map[c := [c], dir := [dir]]
    ensures Forest(Volume(fat, live)) && live.Keys == {c, dir}
  {
    assert Disjoint([c], [dir]) && Disjoint([dir], [c]);
  }

  lemma SubdirectoryIsSane(d: Drive, dir: nat, c: nat)
    requires |d.data| == |d.fat| && Shaped(d.data, 1) && Small(d.fat) && c != dir
    requires IsChain(d.fat, [c]) && IsChain(d.fat, [dir]) && d.data[c][0] == DotSector(0, c, dir)
    ensures Sane(Inside(d, c, dir), c) <==> c < 0x1_0000 && dir < 0x1_0000
    ensures Framed(Inside(d, c, dir), c) && Files(Inside(d, c, dir), c) == map[]
  {
    DotSectorMeans(0, c, dir, d.data[c][0]);
    TwoChains(d.fat, c, dir, Inside(d, c, dir).live);
    NewDirectoryIsSane(Inside(d, c, dir), c, 0);
  }

  /** The driver, with its current directory. */
  class Driver {
    const fs: FileSystem
    const dir: nat

    /** The directory's parent, and the chains of the live files with those of both directories. */
    ghost const parent: nat
    ghost var live: map<nat, Chain>

    ghost function View(): Drive
      reads this, fs
    {
      Drive(fs.fat, fs.data, live, parent)
    }

    ghost predicate Valid()
      reads this, fs
    {
      DirectoryAt(fs, dir) && Sane(View(), dir)
    }

    /** Enter a directory. */
    constructor (fs: FileSystem, dir: nat, ghost parent: nat, ghost live: map<nat, Chain>)
      requires fs.Valid() && fs.g.per == 1 && Sane(Drive(fs.fat, fs.data, live, parent), dir)
      ensures Valid() && this.fs == fs && this.dir == dir && View() == Drive(fs.fat, fs.data, live, parent)
    {
      this.fs, this.dir, this.parent, this.live := fs, dir, parent, live;
      DirectoryApart(Drive(fs.fat, fs.data, live, parent), dir);
    }

    /** Mount a volume whose root is blank, or a directory already. */
    constructor Mount(fs: FileSystem, ghost chains: map<nat, Chain>)
      requires fs.Valid() && fs.g.per == 1 && Small(fs.fat) && EOC <= fs.fat[ROOT]
      requires fs.data[ROOT][0][0] != 0 ==> Sane(Drive(fs.fat, fs.data, chains, ROOT), ROOT)
      modifies fs
      ensures Valid() && this.fs == fs && dir == ROOT && fs.fat == old(fs.fat) && fs.data == Rooted(old(fs.data))
      ensures if old(fs.data)[ROOT][0][0] == 0
        then View() == FreshDrive(old(fs.fat), old(fs.data)) && Files(View(), ROOT) == map[]
        else View() == Drive(old(fs.fat), old(fs.data), chains, ROOT)
    {
      ghost var blank := fs.data[ROOT][0][0] == 0;
      ghost var d := if blank then FreshDrive(fs.fat, fs.data) else Drive(fs.fat, fs.data, chains, ROOT);
      if blank { MountIsSane(fs.fat, fs.data); }
      DirectoryApart(d, ROOT);
      FormatRoot(fs);
      this.fs, this.dir, this.parent, this.live := fs, ROOT, ROOT, d.live;
      new;
      assert View() == d;
    }

    method Create(name: Name, attributes: byte) returns (ok: bool)
      requires Valid() && InModel(Listed(View(), dir), Make(name, attributes), dir)
      modifies this, fs
      ensures fs.Valid() && ok == Succeeds(old(View()), Make(name, attributes), dir)
      ensures Leads(old(View()), Make(name, attributes), ok, View(), dir)
      ensures Valid() <==> Keeps(old(View()), Make(name, attributes), dir)
    {
      ghost var d, l, c := View(), Listed(View(), dir), FirstFree(fs.fat, 2);
      ok := CreateFile(fs, dir, name, attributes);
      if ok { live := live[c := [c]]; }
      MakeIs(d, name, attributes, l, ok, View(), dir, c);
    }

    /** A new directory: its entry, and a sector with "." and ".." in its cluster. */
    method CreateDirectory(name: Name) returns (ok: bool, ghost mid: Drive)
      requires Valid() && InModel(Listed(View(), dir), Make(name, DIRECTORY), dir)
      modifies this, fs
      ensures fs.Valid() && ok == Succeeds(old(View()), Make(name, DIRECTORY), dir)
      ensures Leads(old(View()), Make(name, DIRECTORY), ok, mid, dir)
      ensures Valid() <==> Keeps(old(View()), Make(name, DIRECTORY), dir)
      ensures !ok ==> View() == mid
      ensures ok ==>
        var c := FirstFree(old(fs.fat), 2);
        && View() == mid.(data := WithSector(mid.data, c, 0, DotSector(0, c, dir)))
        && (Sane(Inside(View(), c, dir), c) <==> c < 0x1_0000 && dir < 0x1_0000)
        && (Valid() ==> Sane(mid, dir) && Leads(mid, Put(name, DotSector(0, c, dir), SECTOR_SIZE), true, View(), dir))
    {
      ghost var d, l := View(), Listed(View(), dir);
      var c := InsertEntry(fs, dir, name, DIRECTORY);
      ok := c != 0;
      if ok { live := live[c := [c]]; }
      mid := View();
      MakeIs(d, name, DIRECTORY, l, ok, mid, dir, FirstFree(d.fat, 2));
      if ok {
        fs.WriteSector(c, 0, DotSector(0, c, dir));
        Established(d, mid, View(), dir, name, c);
      }
    }

    method Write(name: Name, buf: seq<byte>, size: nat) returns (ok: bool)
      requires Valid() && InModel(Listed(View(), dir), Put(name, buf, size), dir)
      modifies this, fs
      ensures fs.Valid() && ok == Succeeds(old(View()), Put(name, buf, size), dir)
      ensures Leads(old(View()), Put(name, buf, size), ok, View(), dir)
      ensures Valid() <==> Keeps(old(View()), Put(name, buf, size), dir)
    {
      var found := FindFileInDirectory(fs, dir, name);
      if found.None? { return false; }
      ghost var d, chain := View(), ChainNamed(View(), dir, name);
      ChainOfName(d, dir, name, chain);
      ok := WriteHead(found.value.cluster, buf, size, chain);
      PutIs(d, name, buf, size, WriteChain(d.fat, chain, ClustersFor(size, 1)), View(), dir);
      if Sane(View(), dir) { DirectoryApart(View(), dir); }
    }

    method WriteHead(head: nat, buf: seq<byte>, size: nat, ghost chain: Chain) returns (ok: bool)
      requires fs.Valid() && fs.g.per == 1 && SectorsFor(size) * SECTOR_SIZE <= |buf|
      requires IsChain(fs.fat, chain) && chain[0] == head
      modifies this`live, fs
      ensures fs.Valid()
      ensures var w := WriteChain(old(fs.fat), chain, ClustersFor(size, 1));
        && ok == w.ok && fs.fat == w.fat && live == old(live)[head := w.chain]
        && Wrote(old(fs.data), fs.data, w.chain, w.ok, 1, buf, size)
    {
      ok := fs.WriteFile(head, buf, size, chain);
      live := live[head := WriteChain(old(fs.fat), chain, ClustersFor(size, 1)).chain];
    }

    method SetSize(name: Name, size: nat) returns (ok: bool)
      requires Valid() && InModel(Listed(View(), dir), Resize(name, size), dir)
      modifies fs
      ensures Valid() && ok == (name in Listed(old(View()), dir))
      ensures Leads(old(View()), Resize(name, size), ok, View(), dir)
    {
      ghost var d, l := View(), Listed(View(), dir);
      ok := UpdateFileSize(fs, dir, name, size);
      ResizeIs(d, name, size, l, ok, View(), dir);
    }

    method Rename(name: Name, dest: Name) returns (ok: bool)
      requires Valid() && InModel(Listed(View(), dir), Rekey(name, dest), dir)
      modifies fs
      ensures fs.Valid() && ok == Succeeds(old(View()), Rekey(name, dest), dir)
      ensures Leads(old(View()), Rekey(name, dest), ok, View(), dir)
      ensures Valid() <==> Keeps(old(View()), Rekey(name, dest), dir)
    {
      ghost var d, l := View(), Listed(View(), dir);
      ok := RenameFile(fs, dir, name, dest);
      RekeyIs(d, name, dest, l, ok, View(), dir);
    }

    /** The chain to free is the one the invariant gives. */
    method Delete(name: Name) returns (ok: bool)
      requires Valid()
      modifies this, fs
      ensures Valid() && ok == Succeeds(old(View()), Remove(name), dir)
      ensures Leads(old(View()), Remove(name), ok, View(), dir)
    {
      ghost var d, l, chain := View(), Listed(View(), dir), ChainNamed(View(), dir, name);
      ChainOfName(d, dir, name, chain);
      if Succeeds(d, Remove(name), dir) { RemovesFile(d, name, dir); }
      ok := DeleteFile(fs, dir, name, chain);
      if ok { live := live - {chain[0]}; }
      RemoveIs(d, name, l, ok, View(), dir);
    }

    /** Write a file by its name and record its size. */
    method WriteByName(name: Name, buf: seq<byte>, size: nat) returns (ok: bool)
      requires Valid() && InModel(Listed(View(), dir), Put(name, buf, size), dir) && size < U32
      requires Keeps(View(), Put(name, buf, size), dir)
      modifies this, fs
      ensures Valid()
      ensures ok == (&& Succeeds(old(View()), Put(name, buf, size), dir)
                     && (Overwrites(old(View()), Put(name, buf, size), dir) ==> name in Dir(Block(buf, 0))))
      ensures name !in DOTS ==> ok == Succeeds(old(View()), Put(name, buf, size), dir)
      ensures ok && name !in DOTS ==> Stored(old(Files(View(), dir)), Files(View(), dir), name, buf, size)
      ensures !ok && name !in DOTS ==> OnlyContents(old(Files(View(), dir)), Files(View(), dir), name)
      ensures name !in Listed(old(View()), dir) ==> View() == old(View())
    {
      ghost var d, a := View(), Put(name, buf, size);
      ok := Write(name, buf, size);
      ghost var mid := View();
      LeadsKeepsSane(d, a, ok, mid, dir);
      SparesDirectory(d, a, dir);
      if !ok {
        if name !in DOTS { FailedWrite(d, mid, name, buf, size, dir); }
      } else {
        ok := SetSize(name, size);
        if name !in DOTS { WriteThenResize(d, mid, View(), name, buf, size, ok, dir); }
      }
    }

    /** Read a file by its name. */
    method ReadByName(name: Name, buffer: array<byte>) returns (ok: bool)
      requires Valid()
      modifies buffer
      ensures ok <==> name in Listed(View(), dir)
      ensures buffer[..] == if ok then Loaded(old(buffer[..]), BytesNamed(View(), dir, name)) else old(buffer[..])
      ensures name in Files(View(), dir) ==>
        ok && buffer[..] == Loaded(old(buffer[..]), Files(View(), dir)[name].contents)
    {
      ghost var chain := ChainNamed(View(), dir, name);
      ChainOfName(View(), dir, name, chain);
      NamedHasFile(View(), dir, name);
      var found := FindFileInDirectory(fs, dir, name);
      if found.None? { return false; }
      fs.ReadFile(found.value.cluster, buffer, chain);
      return true;
    }
  }

  /** A name of a file leads away from the directory. */
  lemma SparesDirectory(d: Drive, a: Action, dir: nat)
    requires Sane(d, dir) && a.Put?
    ensures a.name !in DOTS ==> !Overwrites(d, a, dir)
  {
    if a.name in Listed(d, dir) { TidyHead(Listed(d, dir), d.live.Keys, dir, d.parent, a.name); }
  }

  /** What the creation of a directory leaves, seen from both directories. */
  lemma Established(d: Drive, mid: Drive, d': Drive, dir: nat, name: Name, c: nat)
    requires Sane(d, dir) && c == FirstFree(d.fat, 2) && Leads(d, Make(name, DIRECTORY), true, mid, dir)
    requires d'.fat == mid.fat && d'.live == mid.live && d'.parent == mid.parent
    requires c < |mid.data| && |mid.data[c]| == 1 && d'.data == WithSector(mid.data, c, 0, DotSector(0, c, dir))
    ensures Sane(d', dir) <==> Keeps(d, Make(name, DIRECTORY), dir)
    ensures Sane(Inside(d', c, dir), c) <==> c < 0x1_0000 && dir < 0x1_0000
    ensures Sane(d', dir) ==> Sane(mid, dir) && Leads(mid, Put(name, DotSector(0, c, dir), SECTOR_SIZE), true, d', dir)
  {
    var a := Make(name, DIRECTORY);
    MakeIsFresh(d, dir);
    LeadsKeepsSane(d, a, true, mid, dir);
    ListingKeepsFrame(d, a, mid, dir);
    ListingLive(d, a, mid, dir, Listed(d, dir));
    SaneElsewhere(mid, d', dir, c, DotSector(0, c, dir));
    DirectoryApart(mid, dir);
    SubdirectoryIsSane(d', dir, c);
    if Sane(mid, dir) { DotsArePut(mid, d', dir, name, c, DotSector(0, c, dir)); }
  }
}
