/**
  The volume and one directory together: a map from names to files. But for "." and "..", the clusters that the
  directory lists are the heads of a forest of chains apart from it, over every run; and each operation changes one
  binding of the map.
*/
module FatDrive {
  import opened FatDisk
  import opened FatChains
  import opened FatVolume
  import opened FatDirectory

  /** The entries by which a directory names itself and its parent. */
  const DOT: Name := ['.' as int]
  const DOTDOT: Name := ['.' as int, '.' as int]
  const DOTS: set<Name> := {DOT, DOTDOT}

  /** The table, the data, the chains of the live files, and the cluster of the parent directory, which in the root
      is the root's own; clusters are of one sector. */
  datatype Drive = Drive(fat: Fat, data: Clusters, live: map<nat, Chain>, parent: nat)

  datatype File = File(contents: seq<byte>, size: nat, attributes: byte)

  ghost function Tables(d: Drive): Volume { Volume(d.fat, d.live) }

  // ---------------------------------------------------------------- the invariant

  /** The clusters of the entries are exactly `files`, each of them once. */
  ghost predicate Heads(entries: map<Name, Info>, files: set<nat>) {
    && (forall n | n in entries :: entries[n].cluster in files)
    && (forall n, m | n in entries && m in entries && n != m :: entries[n].cluster != entries[m].cluster)
    && (forall c | c in files :: exists n :: n in entries && entries[n].cluster == c)
  }

  function Home(n: Name, dir: nat, parent: nat): nat { if n == DOT then dir else parent }

  /** "." and "..", where listed, are directories: this one and its parent. */
  ghost predicate Dotted(l: map<Name, Info>, dir: nat, parent: nat) {
    forall n | n in l && n in DOTS :: l[n].cluster == Home(n, dir, parent) && IsDirectory(l[n].attributes)
  }

  /** Every live chain but those of the directory and its parent is listed once, and nothing else is. */
  ghost predicate Tidy(l: map<Name, Info>, heads: set<nat>, dir: nat, parent: nat) {
    Heads(l - DOTS, heads - {dir, parent}) && Dotted(l, dir, parent)
  }

  ghost predicate Framed(d: Drive, dir: nat) {
    && |d.data| == |d.fat| && Shaped(d.data, 1) && dir < |d.data| && WellFormed(d.data[dir][0])
    && Forest(Tables(d)) && dir in d.live && d.live[dir] == [dir] && d.parent in d.live
  }

  ghost function Listed(d: Drive, dir: nat): map<Name, Info>
    requires Framed(d, dir)
  {
    Dir(d.data[dir][0])
  }

  ghost predicate Sane(d: Drive, dir: nat) { Framed(d, dir) && Tidy(Listed(d, dir), d.live.Keys, dir, d.parent) }

  /** The bytes of the chain with this head. */
  ghost function Bytes(d: Drive, dir: nat, head: nat): seq<byte>
    requires Framed(d, dir) && head in d.live
  {
    Contents(d.data, d.live[head], 1)
  }

  /** The bytes of every live chain but the directory's. */
  ghost function AllBytes(d: Drive, dir: nat): map<nat, seq<byte>>
    requires Framed(d, dir)
  {
    map c | c in d.live && c != dir :: Bytes(d, dir, c)
  }

  /** A listing with the bytes its clusters lead to. */
  ghost function Joined(l: map<Name, Info>, bytes: map<nat, seq<byte>>): map<Name, File> {
    map n | n in l && l[n].cluster in bytes :: File(bytes[l[n].cluster], l[n].size, l[n].attributes)
  }

  /** The map from names to files. */
  ghost function Files(d: Drive, dir: nat): map<Name, File>
    requires Framed(d, dir)
  {
    Joined(Listed(d, dir) - DOTS, AllBytes(d, dir))
  }

  // ---------------------------------------------------------------- one operation

  datatype Action =
    | Make(name: Name, attributes: byte)
    | Put(name: Name, buf: seq<byte>, size: nat)
    | Resize(name: Name, size: nat)
    | Rekey(name: Name, dest: Name)
    | Remove(name: Name)

  /** Only the directory's sector differs. */
  ghost predicate OnlyDirectory(d: Drive, d': Drive, dir: nat)
    requires dir < |d.data|
  {
    && |d'.data| == |d.data| && d'.data == d.data[dir := d'.data[dir]]
    && |d'.data[dir]| == 1 && WellFormed(d'.data[dir][0])
  }

  /** The listing after a successful operation; to rename to a name of the directory itself changes nothing. */
  ghost function RelistedIn(l: map<Name, Info>, a: Action, free: nat): map<Name, Info> {
    match a
    case Make(name, attributes) => l[name := Info(LowHalf(free), 0, attributes)]
    case Put(_, _, _) => l
    case Resize(name, size) => if name in l then l[name := l[name].(size := size)] else l
    case Rekey(name, dest) => if name in l && dest !in l then (l - {name})[dest := l[name]] else l
    case Remove(name) => l - {name}
  }

  ghost function Relisted(d: Drive, a: Action, dir: nat): map<Name, Info>
    requires Framed(d, dir)
  {
    RelistedIn(Listed(d, dir), a, FirstFree(d.fat, 2))
  }

  /** What it does to the table and the live chains. */
  ghost function RetabledIn(v: Volume, a: Action, l: map<Name, Info>): Volume
    requires Forest(v)
  {
    match a
    case Make(_, _) => FatChains.Step(v, Op.Create)
    case Put(name, _, size) =>
      if name in l then FatChains.Step(v, Op.Write(l[name].cluster, ClustersFor(size, 1))) else v
    case Resize(_, _) => v
    case Rekey(_, _) => v
    case Remove(name) => if name in l then FatChains.Step(v, Op.Delete(l[name].cluster)) else v
  }

  ghost function Retabled(d: Drive, a: Action, dir: nat): Volume
    requires Framed(d, dir)
  {
    RetabledIn(Tables(d), a, Listed(d, dir))
  }

  lemma HeadOfChain(d: Drive, dir: nat, name: Name)
    requires Sane(d, dir) && name in Listed(d, dir)
    ensures var h := Listed(d, dir)[name].cluster;
      h in d.live && IsChain(d.fat, d.live[h]) && d.live[h][0] == h && Small(d.fat)
  {
    TidyHead(Listed(d, dir), d.live.Keys, dir, d.parent, name);
  }

  /** A listed cluster is live, and that of the directory or its parent only under their own names. */
  lemma TidyHead(l: map<Name, Info>, heads: set<nat>, dir: nat, parent: nat, name: Name)
    requires Tidy(l, heads, dir, parent) && name in l && dir in heads && parent in heads
    ensures l[name].cluster in heads
    ensures l[name].cluster in {dir, parent} <==> name in DOTS
  {
    if name !in DOTS { assert (l - DOTS)[name] == l[name]; }
  }

  /** The chain of a name, if it is listed. */
  ghost function ChainNamed(d: Drive, dir: nat, name: Name): Chain
    requires Sane(d, dir)
  {
    HeadsAreLive(d, dir);
    if name in Listed(d, dir) then d.live[Listed(d, dir)[name].cluster] else []
  }

  lemma HeadsAreLive(d: Drive, dir: nat)
    requires Sane(d, dir)
    ensures forall n | n in Listed(d, dir) :: Listed(d, dir)[n].cluster in d.live
  {
    forall n | n in Listed(d, dir) ensures Listed(d, dir)[n].cluster in d.live { HeadOfChain(d, dir, n); }
  }

  /** What deleting and reading a listed name ask of its chain. */
  lemma ChainOfName(d: Drive, dir: nat, name: Name, chain: Chain)
    requires Sane(d, dir) && chain == ChainNamed(d, dir, name)
    ensures name in Listed(d, dir) ==>
      IsChain(d.fat, chain) && chain[0] == Listed(d, dir)[name].cluster && chain[0] in d.live
    ensures name in Listed(d, dir) && name !in DOTS ==> chain[0] != dir && dir !in chain
  {
    if name in Listed(d, dir) {
      HeadOfChain(d, dir, name);
      TidyHead(Listed(d, dir), d.live.Keys, dir, d.parent, name);
      DirectoryApart(d, dir);
    }
  }

  /** Where a write of `size` bytes under this name leads in the table. */
  ghost function Rewritten(d: Drive, dir: nat, name: Name, size: nat): Written
    requires Sane(d, dir) && name in Listed(d, dir)
  {
    HeadOfChain(d, dir, name);
    WriteChain(d.fat, d.live[Listed(d, dir)[name].cluster], ClustersFor(size, 1))
  }

  /** Operations within the model: names and attributes that a slot can hold, buffers that reach the end of their
      last sector, and no move into another directory. */
  ghost predicate InModel(l: map<Name, Info>, a: Action, dir: nat) {
    && (a.Make? ==> a.attributes != LFN && (ValidFileName(a.name) ==> Storable(a.name)))
    && (a.Put? ==> SectorsFor(a.size) * SECTOR_SIZE <= |a.buf|)
    && (a.Resize? ==> a.size < U32)
    && (a.Rekey? ==>
          && (ValidFileName(a.dest) ==> Storable(a.dest))
          && (a.dest in l && IsDirectory(l[a.dest].attributes) ==> l[a.dest].cluster == dir))
  }

  /** When an operation succeeds. */
  ghost predicate Succeeds(d: Drive, a: Action, dir: nat)
    requires Sane(d, dir)
  {
    var l := Listed(d, dir);
    match a
    case Make(name, _) =>
      ValidFileName(name) && name !in l && FirstFree(d.fat, 2) != 0 && HasRoom(d.data[dir][0])
    case Put(name, _, size) => name in l && Rewritten(d, dir, name, size).ok
    case Resize(name, _) => name in l
    case Rekey(name, dest) => ValidFileName(dest) && name in l && (dest in l ==> IsDirectory(l[dest].attributes))
    case Remove(name) => name in l && !IsDirectory(l[name].attributes)
  }

  ghost predicate PutLeads(d: Drive, name: Name, buf: seq<byte>, size: nat, ok: bool, d': Drive, dir: nat)
    requires Sane(d, dir)
  {
    && name in Listed(d, dir) && SectorsFor(size) * SECTOR_SIZE <= |buf| && d'.parent == d.parent
    && var h, w := Listed(d, dir)[name].cluster, Rewritten(d, dir, name, size);
       && ok == w.ok && d'.fat == w.fat && d'.live == d.live[h := w.chain]
       && Wrote(d.data, d'.data, w.chain, ok, 1, buf, size)
  }

  ghost predicate ListingLeads(d: Drive, a: Action, d': Drive, dir: nat)
    requires Sane(d, dir)
  {
    && Succeeds(d, a, dir) && InModel(Listed(d, dir), a, dir) && d'.parent == d.parent
    && Tables(d') == Retabled(d, a, dir) && OnlyDirectory(d, d', dir) && Dir(d'.data[dir][0]) == Relisted(d, a, dir)
  }

  /** Operation `a` leads from `d` to `d'`, as the driver's methods do it, with this result. */
  ghost predicate Leads(d: Drive, a: Action, ok: bool, d': Drive, dir: nat)
    requires Sane(d, dir)
  {
    && ok == Succeeds(d, a, dir) && InModel(Listed(d, dir), a, dir)
    && if a.Put? && a.name in Listed(d, dir) then PutLeads(d, a.name, a.buf, a.size, ok, d', dir)
       else if ok then ListingLeads(d, a, d', dir)
       else d' == d
  }

  /** A write under a name of the directory itself. */
  ghost predicate Overwrites(d: Drive, a: Action, dir: nat)
    requires Framed(d, dir)
  {
    a.Put? && a.size > 0 && a.name in Listed(d, dir) && Listed(d, dir)[a.name].cluster == dir
  }

  /** A buffer that starts with a directory for these chains. */
  ghost predicate IsListing(buf: seq<byte>, heads: set<nat>, dir: nat, parent: nat) {
    SECTOR_SIZE <= |buf| && WellFormed(Block(buf, 0)) && Tidy(Dir(Block(buf, 0)), heads, dir, parent)
  }

  /** Whether an operation keeps the invariant. It does not if a creation takes "." or "..", or a cluster whose number
      needs more than sixteen bits; if a renaming turns one of these names into a file's or a file's into one of them;
      or if a write to the directory itself brings no directory, or more than one sector. */
  ghost predicate Keeps(d: Drive, a: Action, dir: nat)
    requires Sane(d, dir)
  {
    match a
    case Make(name, _) => Succeeds(d, a, dir) ==> name !in DOTS && FirstFree(d.fat, 2) < 0x1_0000
    case Put(_, buf, size) =>
      Overwrites(d, a, dir) ==>
        (size <= SECTOR_SIZE || FirstFree(d.fat, 2) == 0) && IsListing(buf, d.live.Keys, dir, d.parent)
    case Resize(_, _) => true
    case Rekey(name, dest) =>
      Succeeds(d, a, dir) && dest !in Listed(d, dir) ==> Interchangeable(name, dest, dir, d.parent)
    case Remove(_) => true
  }

  /** Both names are of files, or both of one directory. */
  predicate Interchangeable(name: Name, dest: Name, dir: nat, parent: nat) {
    if name in DOTS then dest in DOTS && parent == dir else dest !in DOTS
  }

  // ---------------------------------------------------------------- the frame

  /** The directory's chain is no one else's, and its cluster is not free. */
  lemma DirectoryApart(d: Drive, dir: nat)
    requires Framed(d, dir)
    ensures 2 <= dir < |d.fat| && EOC <= d.fat[dir]
    ensures forall c | c in d.live && c != dir :: dir !in d.live[c]
  {
    ChainNonZero(d.fat, d.live[dir], dir);
    forall c | c in d.live && c != dir ensures dir !in d.live[c] {
      assert Disjoint(d.live[dir], d.live[c]);
      assert dir in d.live[dir];
    }
  }

  /** The table part of an operation keeps the forest and every other chain. */
  lemma TableKeeps(d: Drive, op: Op, v: Volume, dir: nat)
    requires Framed(d, dir) && v == Step(Tables(d), op) && Target(Tables(d), op) != dir
    ensures Forest(v) && |v.fat| == |d.fat| && dir in v.live && v.live[dir] == [dir]
    ensures forall c | c in d.live && c != Target(Tables(d), op) :: c in v.live && v.live[c] == d.live[c]
  {
    StepKeeps(Tables(d), op);
  }

  /** An operation that changes the listing. */
  lemma ActionKeepsTable(d: Drive, a: Action, v: Volume, dir: nat)
    requires Sane(d, dir) && !a.Put? && Succeeds(d, a, dir) && v == Retabled(d, a, dir)
    ensures Forest(v) && |v.fat| == |d.fat| && dir in v.live && v.live[dir] == [dir] && d.parent in v.live
  {
    DirectoryApart(d, dir);
    if a.Make? {
      MakeIsFresh(d, dir);
      TableKeeps(d, Create, v, dir);
    } else if a.Remove? {
      RemovesFile(d, a.name, dir);
      TableKeeps(d, Delete(Listed(d, dir)[a.name].cluster), v, dir);
    }
  }

  /** What can be removed is no directory, so neither this one nor its parent. */
  lemma RemovesFile(d: Drive, name: Name, dir: nat)
    requires Sane(d, dir) && Succeeds(d, Remove(name), dir)
    ensures name !in DOTS && Listed(d, dir)[name].cluster in d.live
    ensures Listed(d, dir)[name].cluster !in {dir, d.parent}
  {
    TidyHead(Listed(d, dir), d.live.Keys, dir, d.parent, name);
  }

  /** A write leaves the directory's sector, and every other live chain, alone. */
  lemma PutSpares(d: Drive, name: Name, buf: seq<byte>, size: nat, ok: bool, d': Drive, dir: nat, c: nat)
    requires Sane(d, dir) && PutLeads(d, name, buf, size, ok, d', dir)
    requires c in d.live && c != Listed(d, dir)[name].cluster
    ensures |d'.data| == |d.data| && Shaped(d'.data, 1) && d'.live[c] == d.live[c]
    ensures forall k | 0 <= k < |d.live[c]| :: d.live[c][k] < |d.data| && d'.data[d.live[c][k]] == d.data[d.live[c][k]]
  {
    var h, w := Listed(d, dir)[name].cluster, Rewritten(d, dir, name, size);
    HeadOfChain(d, dir, name);
    WriteDisjoint(Tables(d), h, ClustersFor(size, 1), c);
    forall k | 0 <= k < |d.live[c]|
      ensures d.live[c][k] < |d.data| && d'.data[d.live[c][k]] == d.data[d.live[c][k]]
    {
      assert d.live[c][k] !in w.chain;
    }
  }

  lemma PutKeepsFrame(d: Drive, name: Name, buf: seq<byte>, size: nat, ok: bool, d': Drive, dir: nat)
    requires Sane(d, dir) && PutLeads(d, name, buf, size, ok, d', dir) && Listed(d, dir)[name].cluster != dir
    ensures Framed(d', dir) && Listed(d', dir) == Listed(d, dir) && d'.live.Keys == d.live.Keys
  {
    HeadOfChain(d, dir, name);
    var op := Write(Listed(d, dir)[name].cluster, ClustersFor(size, 1));
    TableKeeps(d, op, Tables(d'), dir);
    PutSpares(d, name, buf, size, ok, d', dir, dir);
    assert d.live[dir][0] == dir;
  }

  lemma ListingKeepsFrame(d: Drive, a: Action, d': Drive, dir: nat)
    requires Sane(d, dir) && !a.Put? && ListingLeads(d, a, d', dir)
    ensures Framed(d', dir) && Listed(d', dir) == Relisted(d, a, dir)
  {
    ActionKeepsTable(d, a, Tables(d'), dir);
  }

  // ---------------------------------------------------------------- heads

  lemma HeadsMake(l: map<Name, Info>, files: set<nat>, name: Name, info: Info, c: nat)
    requires Heads(l, files) && name !in l && c !in files
    ensures Heads(l[name := info], files + {c}) <==> info.cluster == c
    ensures !Heads(l, files + {c})
  {
    var l' := l[name := info];
    forall b | b in files ensures exists n :: n in l' && l'[n].cluster == b {
      var n :| n in l && l[n].cluster == b;
      assert l'[n].cluster == b;
    }
    assert l'[name].cluster == info.cluster;
    if Heads(l', files + {c}) {
      var n :| n in l' && l'[n].cluster == c;
      assert n == name;
    }
  }

  lemma HeadsResize(l: map<Name, Info>, files: set<nat>, name: Name, size: nat)
    requires Heads(l, files) && name in l
    ensures Heads(l[name := l[name].(size := size)], files)
  {
    var l' := l[name := l[name].(size := size)];
    forall c | c in files ensures exists n :: n in l' && l'[n].cluster == c {
      var n :| n in l && l[n].cluster == c;
      assert l'[n].cluster == c;
    }
  }

  lemma HeadsRekey(l: map<Name, Info>, files: set<nat>, name: Name, dest: Name)
    requires Heads(l, files) && name in l && dest !in l
    ensures Heads((l - {name})[dest := l[name]], files)
  {
    var l' := (l - {name})[dest := l[name]];
    forall c | c in files ensures exists n :: n in l' && l'[n].cluster == c {
      var n :| n in l && l[n].cluster == c;
      var m := if n == name then dest else n;
      assert m in l' && l'[m].cluster == c;
    }
  }

  lemma HeadsRemove(l: map<Name, Info>, files: set<nat>, name: Name)
    requires Heads(l, files) && name in l
    ensures Heads(l - {name}, files - {l[name].cluster})
  {
    var l', files' := l - {name}, files - {l[name].cluster};
    forall c | c in files' ensures exists n :: n in l' && l'[n].cluster == c {
      var n :| n in l && l[n].cluster == c;
      assert n in l' && l'[n].cluster == c;
    }
  }

  /** A listing changed in one name, seen without "." and "..". */
  lemma ApartFromDots(l: map<Name, Info>, name: Name, info: Info)
    ensures l[name := info] - DOTS == if name in DOTS then l - DOTS else (l - DOTS)[name := info]
    ensures l - {name} - DOTS == l - DOTS - {name}
    ensures name in DOTS ==> l - {name} - DOTS == l - DOTS
  {}

  lemma TidyMake(l: map<Name, Info>, heads: set<nat>, dir: nat, parent: nat, name: Name, info: Info, c: nat)
    requires Tidy(l, heads, dir, parent) && dir in heads && parent in heads && name !in l && c !in heads
    ensures Tidy(l[name := info], heads + {c}, dir, parent) <==> name !in DOTS && info.cluster == c
  {
    ApartFromDots(l, name, info);
    HeadsMake(l - DOTS, heads - {dir, parent}, name, info, c);
    assert heads + {c} - {dir, parent} == heads - {dir, parent} + {c};
  }

  lemma TidyResize(l: map<Name, Info>, heads: set<nat>, dir: nat, parent: nat, name: Name, size: nat)
    requires Tidy(l, heads, dir, parent) && name in l
    ensures Tidy(l[name := l[name].(size := size)], heads, dir, parent)
  {
    ApartFromDots(l, name, l[name].(size := size));
    if name !in DOTS {
      assert (l - DOTS)[name] == l[name];
      HeadsResize(l - DOTS, heads - {dir, parent}, name, size);
    }
  }

  lemma TidyRekey(l: map<Name, Info>, heads: set<nat>, dir: nat, parent: nat, name: Name, dest: Name)
    requires Tidy(l, heads, dir, parent) && dir in heads && parent in heads && name in l && dest !in l
    ensures Tidy((l - {name})[dest := l[name]], heads, dir, parent) <==> Interchangeable(name, dest, dir, parent)
  {
    var l', files := (l - {name})[dest := l[name]], heads - {dir, parent};
    TidyHead(l, heads, dir, parent, name);
    ApartFromDots(l, name, l[name]);
    ApartFromDots(l - {name}, dest, l[name]);
    assert l'[dest] == l[name];
    if name in DOTS && dest !in DOTS {
      assert (l' - DOTS)[dest].cluster !in files;
    } else if name !in DOTS && dest !in DOTS {
      assert (l - DOTS)[name] == l[name];
      HeadsRekey(l - DOTS, files, name, dest);
    }
  }

  lemma TidyRemove(l: map<Name, Info>, heads: set<nat>, dir: nat, parent: nat, name: Name)
    requires Tidy(l, heads, dir, parent) && name in l && name !in DOTS
    ensures Tidy(l - {name}, heads - {l[name].cluster}, dir, parent)
  {
    ApartFromDots(l, name, l[name]);
    assert (l - DOTS)[name] == l[name];
    HeadsRemove(l - DOTS, heads - {dir, parent}, name);
    assert heads - {l[name].cluster} - {dir, parent} == heads - {dir, parent} - {l[name].cluster};
  }

  lemma MakeIsFresh(d: Drive, dir: nat)
    requires Sane(d, dir) && FirstFree(d.fat, 2) != 0
    ensures FirstFree(d.fat, 2) !in d.live && FirstFree(d.fat, 2) != dir
  {
    var c := FirstFree(d.fat, 2);
    if c in d.live { ChainNonZero(d.fat, d.live[c], c); }
  }

  /** The live chains after an operation on the directory. */
  ghost function Relived(v: Volume, a: Action, l: map<Name, Info>): map<nat, Chain> {
    if a.Make? then v.live[FirstFree(v.fat, 2) := [FirstFree(v.fat, 2)]]
    else if a.Remove? && a.name in l then v.live - {l[a.name].cluster}
    else v.live
  }

  lemma RetabledLive(v: Volume, a: Action, l: map<Name, Info>)
    requires Forest(v) && !a.Put? && (a.Make? ==> FirstFree(v.fat, 2) != 0)
    requires a.Remove? && a.name in l ==> l[a.name].cluster in v.live
    ensures RetabledIn(v, a, l).live == Relived(v, a, l)
  {}

  lemma ListingLive(d: Drive, a: Action, d': Drive, dir: nat, l: map<Name, Info>)
    requires Sane(d, dir) && l == Listed(d, dir) && !a.Put? && ListingLeads(d, a, d', dir)
    ensures d'.live == Relived(Tables(d), a, l)
  {
    if a.Remove? { RemovesFile(d, a.name, dir); }
    RetabledLive(Tables(d), a, l);
    assert Tables(d').live == d'.live;
  }

  lemma ListingKeepsTidy(l: map<Name, Info>, heads: set<nat>, a: Action, d: Drive, d': Drive, dir: nat)
    requires Sane(d, dir) && !a.Put? && ListingLeads(d, a, d', dir)
    requires l == Listed(d, dir) && heads == d.live.Keys
    ensures Tidy(Relisted(d, a, dir), d'.live.Keys, dir, d.parent) <==> Keeps(d, a, dir)
  {
    ListingLive(d, a, d', dir, l);
    if a.Make? {
      var c := FirstFree(d.fat, 2);
      MakeIsFresh(d, dir);
      assert d'.live.Keys == heads + {c};
      TidyMake(l, heads, dir, d.parent, a.name, Info(LowHalf(c), 0, a.attributes), c);
    } else if a.Resize? {
      TidyResize(l, heads, dir, d.parent, a.name, a.size);
    } else if a.Rekey? {
      if a.dest !in l { TidyRekey(l, heads, dir, d.parent, a.name, a.dest); }
    } else {
      RemovesFile(d, a.name, dir);
      assert d'.live.Keys == heads - {l[a.name].cluster};
      TidyRemove(l, heads, dir, d.parent, a.name);
    }
  }

  /** When a write to a chain of one cluster leaves it one. */
  lemma StaysOneCluster(fat: Fat, dir: nat, size: nat)
    requires IsChain(fat, [dir])
    ensures WriteChain(fat, [dir], ClustersFor(size, 1)).chain == [dir] <==>
            size <= SECTOR_SIZE || FirstFree(fat, 2) == 0
  {
    var n := ClustersFor(size, 1);
    assert n <= 1 <==> size <= SECTOR_SIZE;
    var w := Extend(fat, [dir], n);
    var c := FirstFree(fat, 2);
    if n > 1 && c != 0 {
      assert w == Extend(fat[c := EOC][dir := c], [dir] + [c], n);
      assert |w.chain| >= 2;
    }
  }

  /** The directory's sector after a write to it. */
  lemma WrittenOver(before: Clusters, data: Clusters, dir: nat, ok: bool, buf: seq<byte>, size: nat)
    requires SectorsFor(size) * SECTOR_SIZE <= |buf| && dir < |before| && Wrote(before, data, [dir], ok, 1, buf, size)
    ensures size == 0 ==> data == before
    ensures size > 0 ==> SECTOR_SIZE <= |buf| && data == WithSector(before, dir, 0, Block(buf, 0))
  {
    var w := if ok then SectorsFor(size) else Span(1, 1);
    assert Span(1, 1) == 1;
    assert PlaceIn([dir], dir) == 0;
    forall c: nat | c < |before| && c != dir ensures data[c] == before[c] {
      assert data[c] == ClusterAfter(before[c], [dir], c, 1, buf, w);
    }
    assert data[dir] == ClusterAfter(before[dir], [dir], dir, 1, buf, w);
    assert data[dir] == [Expected(before[dir], 1, buf, w, 0, 0)];
    if size > 0 { assert data[dir] == WithSector(before, dir, 0, Block(buf, 0))[dir]; }
  }

  /** With the same chains, the directory's sector alone decides. */
  lemma SectorDecides(d: Drive, d': Drive, dir: nat)
    requires Framed(d, dir) && d'.live == d.live && d'.parent == d.parent && Forest(Tables(d')) && |d'.fat| == |d.fat|
    requires |d'.data| == |d.data| && Shaped(d'.data, 1)
    ensures Sane(d', dir) <==>
      WellFormed(d'.data[dir][0]) && Tidy(Dir(d'.data[dir][0]), d.live.Keys, dir, d.parent)
  {}

  /** A write that leaves the directory one cluster. */
  lemma PutInPlace(d: Drive, d': Drive, dir: nat, ok: bool, buf: seq<byte>, size: nat)
    requires Sane(d, dir) && d'.live == d.live && d'.parent == d.parent && Forest(Tables(d')) && |d'.fat| == |d.fat|
    requires SectorsFor(size) * SECTOR_SIZE <= |buf| && Wrote(d.data, d'.data, [dir], ok, 1, buf, size)
    ensures size == 0 ==> Sane(d', dir) && d'.data == d.data
    ensures size > 0 ==> SECTOR_SIZE <= |buf| && |d'.data| == |d.data| && d'.data[dir] == [Block(buf, 0)]
    ensures size > 0 ==> (Sane(d', dir) <==> IsListing(buf, d.live.Keys, dir, d.parent))
  {
    WrittenOver(d.data, d'.data, dir, ok, buf, size);
    SectorDecides(d, d', dir);
  }

  /** A write to the directory itself. */
  lemma PutOnDirectory(d: Drive, a: Action, ok: bool, d': Drive, dir: nat)
    requires Sane(d, dir) && a.Put? && PutLeads(d, a.name, a.buf, a.size, ok, d', dir)
    requires Listed(d, dir)[a.name].cluster == dir
    ensures Sane(d', dir) <==> Keeps(d, a, dir)
    ensures Sane(d', dir) && a.size == 0 ==> d'.live == d.live && d'.data == d.data
    ensures Sane(d', dir) && a.size > 0 ==> SECTOR_SIZE <= |a.buf| && Listed(d', dir) == Dir(Block(a.buf, 0))
  {
    var w := Rewritten(d, dir, a.name, a.size);
    StaysOneCluster(d.fat, dir, a.size);
    assert d'.live[dir] == w.chain;
    if w.chain == [dir] {
      assert d'.live == d.live;
      StepKeeps(Tables(d), Write(dir, ClustersFor(a.size, 1)));
      PutInPlace(d, d', dir, ok, a.buf, a.size);
    }
  }

  /** An operation keeps the invariant if and only if `Keeps`, which can be told beforehand, says so. */
  lemma LeadsKeepsSane(d: Drive, a: Action, ok: bool, d': Drive, dir: nat)
    requires Sane(d, dir) && Leads(d, a, ok, d', dir)
    ensures Sane(d', dir) <==> Keeps(d, a, dir)
    ensures Sane(d', dir) && !Overwrites(d, a, dir) ==>
      Listed(d', dir) == if ok then Relisted(d, a, dir) else Listed(d, dir)
    ensures Sane(d', dir) && Overwrites(d, a, dir) ==>
      SECTOR_SIZE <= |a.buf| && Listed(d', dir) == Dir(Block(a.buf, 0))
  {
    if a.Put? && a.name in Listed(d, dir) {
      if Listed(d, dir)[a.name].cluster == dir {
        PutOnDirectory(d, a, ok, d', dir);
      } else {
        PutKeepsFrame(d, a.name, a.buf, a.size, ok, d', dir);
      }
    } else if ok {
      ListingKeepsFrame(d, a, d', dir);
      ListingKeepsTidy(Listed(d, dir), d.live.Keys, a, d, d', dir);
    }
  }

  // ---------------------------------------------------------------- the map of files

  /** A chain that neither moved nor changed holds the same bytes. */
  lemma SameBytes(d: Drive, d': Drive, dir: nat, c: nat)
    requires Framed(d, dir) && Framed(d', dir) && c in d.live && c in d'.live && d'.live[c] == d.live[c]
    requires |d'.data| == |d.data|
    requires forall k | 0 <= k < |d.live[c]| :: d.live[c][k] < |d.data| && d'.data[d.live[c][k]] == d.data[d.live[c][k]]
    ensures Bytes(d', dir, c) == Bytes(d, dir, c)
  {
    SameContents(d.data, d'.data, d.live[c], 1);
  }

  lemma DirectoryChangeKeepsBytes(d: Drive, d': Drive, dir: nat, c: nat)
    requires Framed(d, dir) && Framed(d', dir) && OnlyDirectory(d, d', dir)
    requires c in d.live && c != dir && c in d'.live && d'.live[c] == d.live[c]
    ensures Bytes(d', dir, c) == Bytes(d, dir, c)
  {
    DirectoryApart(d, dir);
    assert IsChain(d.fat, d.live[c]);
    forall k | 0 <= k < |d.live[c]|
      ensures d.live[c][k] < |d.data| && d'.data[d.live[c][k]] == d.data[d.live[c][k]]
    {
      assert d.live[c][k] in d.live[c];
    }
    SameBytes(d, d', dir, c);
  }

  /** The bytes of the cluster that a creation would take. */
  ghost function Stale(d: Drive, dir: nat): seq<byte>
    requires Framed(d, dir)
  {
    var c := FirstFree(d.fat, 2);
    if 2 <= c < |d.data| then Contents(d.data, [c], 1) else []
  }

  lemma AllBytesAt(d: Drive, dir: nat, c: nat)
    requires Framed(d, dir)
    ensures c in AllBytes(d, dir) <==> c in d.live && c != dir
    ensures c in d.live && c != dir ==> AllBytes(d, dir)[c] == Bytes(d, dir, c)
  {}

  /** Maps that agree but for one key. */
  ghost predicate AgreeAt(b: map<nat, seq<byte>>, b': map<nat, seq<byte>>, c: nat) {
    (c in b' <==> c in b) && (c in b ==> b'[c] == b[c])
  }

  lemma AgreeElsewhere(b: map<nat, seq<byte>>, b': map<nat, seq<byte>>, skip: nat)
    requires forall c: nat | c != skip :: AgreeAt(b, b', c)
    ensures b' - {skip} == b - {skip}
    ensures skip in b' ==> b' == b[skip := b'[skip]]
  {
    forall c | c in b' - {skip} ensures c in b - {skip} && b[c] == b'[c] { assert AgreeAt(b, b', c); }
    forall c | c in b - {skip} ensures c in b' - {skip} { assert AgreeAt(b, b', c); }
    if skip in b' {
      forall c | c in b' && c != skip ensures c in b && b[c] == b'[c] { assert AgreeAt(b, b', c); }
      forall c | c in b && c != skip ensures c in b' { assert AgreeAt(b, b', c); }
    }
  }

  lemma PutKeepsBytes(d: Drive, name: Name, buf: seq<byte>, size: nat, ok: bool, d': Drive, dir: nat, c: nat)
    requires Sane(d, dir) && Framed(d', dir) && PutLeads(d, name, buf, size, ok, d', dir)
    requires c in d.live && c != Listed(d, dir)[name].cluster
    ensures c in d'.live && Bytes(d', dir, c) == Bytes(d, dir, c)
  {
    PutSpares(d, name, buf, size, ok, d', dir, c);
    SameBytes(d, d', dir, c);
  }

  lemma PutStores(d: Drive, name: Name, buf: seq<byte>, size: nat, ok: bool, d': Drive, dir: nat, h: nat)
    requires Sane(d, dir) && Framed(d', dir) && PutLeads(d, name, buf, size, ok, d', dir)
    requires h == Listed(d, dir)[name].cluster
    ensures h in d'.live && d'.live.Keys == d.live.Keys
    ensures ok ==> size <= |Bytes(d', dir, h)| && Bytes(d', dir, h)[..size] == buf[..size]
  {
    HeadOfChain(d, dir, name);
    assert d'.live[h] == Rewritten(d, dir, name, size).chain;
  }

  /** A write changes the bytes of one chain, */
  lemma PutBytes(d: Drive, name: Name, buf: seq<byte>, size: nat, ok: bool, d': Drive, dir: nat, h: nat)
    requires Sane(d, dir) && Framed(d', dir) && PutLeads(d, name, buf, size, ok, d', dir)
    requires h == Listed(d, dir)[name].cluster && h != dir
    ensures h in d'.live && AllBytes(d', dir) == AllBytes(d, dir)[h := Bytes(d', dir, h)]
  {
    var b, b' := AllBytes(d, dir), AllBytes(d', dir);
    PutStores(d, name, buf, size, ok, d', dir, h);
    forall c: nat | c != h ensures AgreeAt(b, b', c) {
      AllBytesAt(d, dir, c);
      AllBytesAt(d', dir, c);
      if c in b { PutKeepsBytes(d, name, buf, size, ok, d', dir, c); }
    }
    AllBytesAt(d', dir, h);
    AgreeElsewhere(b, b', h);
  }

  /** The chain a change of the directory makes or frees; none is the directory's own. */
  ghost function Touched(fat: Fat, a: Action, l: map<Name, Info>, dir: nat): nat {
    if a.Make? then FirstFree(fat, 2) else if a.Remove? && a.name in l then l[a.name].cluster else dir
  }

  lemma RelivedAt(v: Volume, a: Action, l: map<Name, Info>, dir: nat, c: nat)
    requires c != dir && c != Touched(v.fat, a, l, dir)
    ensures c in Relived(v, a, l) <==> c in v.live
    ensures c in v.live ==> Relived(v, a, l)[c] == v.live[c]
  {}

  lemma NewFile(d: Drive, a: Action, d': Drive, dir: nat, c: nat)
    requires Sane(d, dir) && Framed(d', dir) && a.Make? && ListingLeads(d, a, d', dir) && c == FirstFree(d.fat, 2)
    ensures c in d'.live && c !in d.live && c != dir && Bytes(d', dir, c) == Stale(d, dir)
  {
    ListingLive(d, a, d', dir, Listed(d, dir));
    MakeIsFresh(d, dir);
    SameContents(d.data, d'.data, [c], 1);
  }

  /** a change of the directory the bytes of at most the chain it makes or frees. */
  lemma ListingBytes(d: Drive, a: Action, d': Drive, dir: nat, skip: nat)
    requires Sane(d, dir) && Framed(d', dir) && !a.Put? && ListingLeads(d, a, d', dir)
    requires skip == Touched(d.fat, a, Listed(d, dir), dir)
    ensures AllBytes(d', dir) - {skip} == AllBytes(d, dir) - {skip}
  {
    var b, b', l := AllBytes(d, dir), AllBytes(d', dir), Listed(d, dir);
    ListingLive(d, a, d', dir, l);
    forall c: nat | c != skip ensures AgreeAt(b, b', c) {
      AllBytesAt(d, dir, c);
      AllBytesAt(d', dir, c);
      if c != dir {
        RelivedAt(Tables(d), a, l, dir, c);
        if c in d.live { DirectoryChangeKeepsBytes(d, d', dir, c); }
      }
    }
    AgreeElsewhere(b, b', skip);
  }

  /** The map of files after an operation: one binding changes. `bytes` are those of the file made or written.
      "." and ".." are no files. */
  ghost function Refiled(files: map<Name, File>, a: Action, ok: bool, bytes: seq<byte>): map<Name, File> {
    match a
    case Make(name, attributes) => if ok then files[name := File(bytes, 0, attributes)] else files
    case Put(name, _, _) => if name in files then files[name := files[name].(contents := bytes)] else files
    case Resize(name, size) => if ok && name in files then files[name := files[name].(size := size)] else files
    case Rekey(name, dest) =>
      if ok && name in files && dest !in DOTS then (files - {name})[dest := files[name]] else files
    case Remove(name) => if ok then files - {name} else files
  }

  /** The clusters listed all have bytes, and different names different clusters. */
  ghost predicate Covered(l: map<Name, Info>, bytes: map<nat, seq<byte>>) {
    && (forall n | n in l :: l[n].cluster in bytes)
    && (forall n, m | n in l && m in l && n != m :: l[n].cluster != l[m].cluster)
  }

  lemma JoinedMake(l: map<Name, Info>, b: map<nat, seq<byte>>, b': map<nat, seq<byte>>, name: Name, info: Info)
    requires Covered(l, b) && name !in l && info.cluster !in b && info.cluster in b'
    requires b' - {info.cluster} == b - {info.cluster}
    ensures Joined(l[name := info], b') == Joined(l, b)[name := File(b'[info.cluster], info.size, info.attributes)]
  {
    BytesElsewhere(b, b', info.cluster);
  }

  lemma BytesElsewhere(b: map<nat, seq<byte>>, b': map<nat, seq<byte>>, skip: nat)
    requires b' - {skip} == b - {skip}
    ensures forall c | c != skip :: (c in b' <==> c in b) && (c in b ==> b'[c] == b[c])
  {
    forall c | c != skip ensures (c in b' <==> c in b) && (c in b ==> b'[c] == b[c]) {
      assert c in b' <==> c in b' - {skip};
      assert c in b <==> c in b - {skip};
      if c in b { assert (b' - {skip})[c] == (b - {skip})[c]; }
    }
  }

  lemma JoinedPut(l: map<Name, Info>, b: map<nat, seq<byte>>, name: Name, bytes: seq<byte>)
    requires Covered(l, b) && name in l
    ensures name in Joined(l, b)
    ensures Joined(l, b[l[name].cluster := bytes]) == Joined(l, b)[name := Joined(l, b)[name].(contents := bytes)]
  {}

  lemma JoinedResize(l: map<Name, Info>, b: map<nat, seq<byte>>, name: Name, size: nat)
    requires Covered(l, b) && name in l
    ensures name in Joined(l, b)
    ensures Joined(l[name := l[name].(size := size)], b) == Joined(l, b)[name := Joined(l, b)[name].(size := size)]
  {}

  lemma JoinedRekey(l: map<Name, Info>, b: map<nat, seq<byte>>, name: Name, dest: Name)
    requires Covered(l, b) && name in l && dest !in l
    ensures name in Joined(l, b)
    ensures Joined((l - {name})[dest := l[name]], b) == (Joined(l, b) - {name})[dest := Joined(l, b)[name]]
  {}

  lemma JoinedRemove(l: map<Name, Info>, b: map<nat, seq<byte>>, b': map<nat, seq<byte>>, name: Name)
    requires Covered(l, b) && name in l && b' - {l[name].cluster} == b - {l[name].cluster}
    ensures Joined(l - {name}, b') == Joined(l, b) - {name}
  {
    BytesElsewhere(b, b', l[name].cluster);
  }

  /** Bytes that no listed cluster leads to. */
  lemma JoinedElsewhere(l: map<Name, Info>, b: map<nat, seq<byte>>, h: nat, bytes: seq<byte>)
    requires h in b && forall n | n in l :: l[n].cluster != h
    ensures Joined(l, b[h := bytes]) == Joined(l, b)
  {}

  lemma SaneIsCovered(d: Drive, dir: nat)
    requires Sane(d, dir)
    ensures Covered(Listed(d, dir) - DOTS, AllBytes(d, dir))
    ensures forall n | n in Listed(d, dir) - DOTS :: (Listed(d, dir) - DOTS)[n].cluster !in {dir, d.parent}
  {}

  lemma PutRefiles(d: Drive, a: Action, ok: bool, d': Drive, dir: nat, l: map<Name, Info>, h: nat)
    requires Sane(d, dir) && Framed(d', dir) && a.Put? && PutLeads(d, a.name, a.buf, a.size, ok, d', dir)
    requires l == Listed(d, dir) == Listed(d', dir) && h == l[a.name].cluster && h != dir
    ensures h in d'.live && Files(d', dir) == Refiled(Files(d, dir), a, ok, Bytes(d', dir, h))
  {
    PutBytes(d, a.name, a.buf, a.size, ok, d', dir, h);
    SaneIsCovered(d, dir);
    TidyHead(l, d.live.Keys, dir, d.parent, a.name);
    EntriesPut(l, AllBytes(d, dir), a, ok, h, Bytes(d', dir, h));
  }

  lemma EntriesPut(l: map<Name, Info>, b: map<nat, seq<byte>>, a: Action, ok: bool, h: nat, bytes: seq<byte>)
    requires a.Put? && a.name in l && h == l[a.name].cluster && h in b && Covered(l - DOTS, b)
    requires a.name in DOTS ==> forall n | n in l - DOTS :: (l - DOTS)[n].cluster != h
    ensures Joined(l - DOTS, b[h := bytes]) == Refiled(Joined(l - DOTS, b), a, ok, bytes)
  {
    if a.name in DOTS {
      JoinedElsewhere(l - DOTS, b, h, bytes);
    } else {
      JoinedPut(l - DOTS, b, a.name, bytes);
    }
  }

  lemma NoBytes(d: Drive, d': Drive, dir: nat)
    requires Framed(d, dir) && Framed(d', dir) && AllBytes(d', dir) - {dir} == AllBytes(d, dir) - {dir}
    ensures AllBytes(d', dir) == AllBytes(d, dir)
  {
    BytesElsewhere(AllBytes(d, dir), AllBytes(d', dir), dir);
  }

  lemma MakeRefiles(d: Drive, a: Action, d': Drive, dir: nat, l: map<Name, Info>)
    requires Sane(d, dir) && Framed(d', dir) && a.Make? && ListingLeads(d, a, d', dir) && Keeps(d, a, dir)
    requires l == Listed(d, dir) && Listed(d', dir) == Relisted(d, a, dir)
    ensures Files(d', dir) == Refiled(Files(d, dir), a, true, Stale(d, dir))
  {
    var c := FirstFree(d.fat, 2);
    SaneIsCovered(d, dir);
    ListingBytes(d, a, d', dir, c);
    NewFile(d, a, d', dir, c);
    EntriesMade(l, AllBytes(d, dir), AllBytes(d', dir), a, c);
  }

  lemma RemoveRefiles(d: Drive, a: Action, d': Drive, dir: nat, l: map<Name, Info>)
    requires Sane(d, dir) && Framed(d', dir) && a.Remove? && ListingLeads(d, a, d', dir)
    requires l == Listed(d, dir) && Listed(d', dir) == Relisted(d, a, dir)
    ensures Files(d', dir) == Refiled(Files(d, dir), a, true, [])
  {
    SaneIsCovered(d, dir);
    RemovesFile(d, a.name, dir);
    ListingBytes(d, a, d', dir, l[a.name].cluster);
    EntriesRemoved(l, AllBytes(d, dir), AllBytes(d', dir), a);
  }

  lemma ListingRefiles(d: Drive, a: Action, d': Drive, dir: nat, l: map<Name, Info>)
    requires Sane(d, dir) && Framed(d', dir) && !a.Put? && ListingLeads(d, a, d', dir) && Keeps(d, a, dir)
    requires l == Listed(d, dir) && Listed(d', dir) == Relisted(d, a, dir)
    ensures Files(d', dir) == Refiled(Files(d, dir), a, true, Stale(d, dir))
  {
    if a.Make? {
      MakeRefiles(d, a, d', dir, l);
    } else if a.Remove? {
      RemoveRefiles(d, a, d', dir, l);
    } else {
      SaneIsCovered(d, dir);
      ListingBytes(d, a, d', dir, dir);
      NoBytes(d, d', dir);
      if a.Resize? {
        EntriesResized(l, AllBytes(d, dir), a);
      } else {
        if a.dest in l { TidyHead(l, d.live.Keys, dir, d.parent, a.dest); }
        EntriesRekeyed(l, AllBytes(d, dir), a, dir, d.parent);
      }
    }
  }

  lemma EntriesMade(l: map<Name, Info>, b: map<nat, seq<byte>>, b': map<nat, seq<byte>>, a: Action, c: nat)
    requires a.Make? && a.name !in l && a.name !in DOTS && Covered(l - DOTS, b) && c < 0x1_0000
    requires c !in b && c in b' && b' - {c} == b - {c}
    ensures Joined(RelistedIn(l, a, c) - DOTS, b') == Refiled(Joined(l - DOTS, b), a, true, b'[c])
  {
    ApartFromDots(l, a.name, Info(c, 0, a.attributes));
    JoinedMake(l - DOTS, b, b', a.name, Info(c, 0, a.attributes));
  }

  lemma EntriesRemoved(l: map<Name, Info>, b: map<nat, seq<byte>>, b': map<nat, seq<byte>>, a: Action)
    requires a.Remove? && a.name in l && a.name !in DOTS && Covered(l - DOTS, b)
    requires b' - {l[a.name].cluster} == b - {l[a.name].cluster}
    ensures Joined(RelistedIn(l, a, 0) - DOTS, b') == Refiled(Joined(l - DOTS, b), a, true, [])
  {
    ApartFromDots(l, a.name, l[a.name]);
    assert (l - DOTS)[a.name] == l[a.name];
    JoinedRemove(l - DOTS, b, b', a.name);
  }

  lemma EntriesResized(l: map<Name, Info>, b: map<nat, seq<byte>>, a: Action)
    requires a.Resize? && a.name in l && Covered(l - DOTS, b)
    ensures Joined(RelistedIn(l, a, 0) - DOTS, b) == Refiled(Joined(l - DOTS, b), a, true, [])
  {
    ApartFromDots(l, a.name, l[a.name].(size := a.size));
    if a.name !in DOTS { JoinedResize(l - DOTS, b, a.name, a.size); }
  }

  /** A name of the directory itself, or a new name for a file. */
  lemma EntriesRekeyed(l: map<Name, Info>, b: map<nat, seq<byte>>, a: Action, dir: nat, parent: nat)
    requires a.Rekey? && a.name in l && Covered(l - DOTS, b)
    requires if a.dest in l then a.dest in DOTS else Interchangeable(a.name, a.dest, dir, parent)
    ensures Joined(RelistedIn(l, a, 0) - DOTS, b) == Refiled(Joined(l - DOTS, b), a, true, [])
  {
    if a.dest !in l {
      ApartFromDots(l, a.name, l[a.name]);
      ApartFromDots(l - {a.name}, a.dest, l[a.name]);
      if a.name !in DOTS { JoinedRekey(l - DOTS, b, a.name, a.dest); }
    }
  }

  /** The bytes of the file an operation makes or writes. */
  ghost function NewBytes(d: Drive, a: Action, d': Drive, dir: nat): seq<byte>
    requires Sane(d, dir) && Framed(d', dir)
  {
    if a.Put? && a.name in Listed(d, dir) && Listed(d, dir)[a.name].cluster in d'.live
    then Bytes(d', dir, Listed(d, dir)[a.name].cluster) else Stale(d, dir)
  }

  /** An empty write to the directory. */
  lemma NothingPut(d: Drive, a: Action, ok: bool, d': Drive, dir: nat)
    requires Sane(d, dir) && a.Put? && PutLeads(d, a.name, a.buf, a.size, ok, d', dir)
    requires Listed(d, dir)[a.name].cluster == dir && a.size == 0 && Framed(d', dir)
    ensures Files(d', dir) == Files(d, dir) && a.name !in Files(d, dir)
  {
    PutOnDirectory(d, a, ok, d', dir);
    TidyHead(Listed(d, dir), d.live.Keys, dir, d.parent, a.name);
    forall c: nat ensures AgreeAt(AllBytes(d, dir), AllBytes(d', dir), c) {
      AllBytesAt(d, dir, c);
      AllBytesAt(d', dir, c);
    }
    AgreeElsewhere(AllBytes(d, dir), AllBytes(d', dir), dir);
    NoBytes(d, d', dir);
  }

  /**
    Each operation that keeps the invariant changes one binding of the map from names to files, unless it
    overwrites the directory itself; a write that succeeds leaves the data at the start of its file.
  */
  lemma OneBindingChanges(d: Drive, a: Action, ok: bool, d': Drive, dir: nat)
    requires Sane(d, dir) && Leads(d, a, ok, d', dir) && Keeps(d, a, dir) && !Overwrites(d, a, dir)
    ensures Sane(d', dir) && Files(d', dir) == Refiled(Files(d, dir), a, ok, NewBytes(d, a, d', dir))
    ensures a.Put? && ok ==>
      a.size <= |NewBytes(d, a, d', dir)| && NewBytes(d, a, d', dir)[..a.size] == a.buf[..a.size]
  {
    LeadsKeepsSane(d, a, ok, d', dir);
    var l := Listed(d, dir);
    if a.Put? {
      if a.name in l {
        PutStores(d, a.name, a.buf, a.size, ok, d', dir, l[a.name].cluster);
        if l[a.name].cluster == dir { NothingPut(d, a, ok, d', dir); }
        else { PutRefiles(d, a, ok, d', dir, l, l[a.name].cluster); }
      }
    } else if ok {
      ListingRefiles(d, a, d', dir, l);
    }
  }

  // ---------------------------------------------------------------- every run

  /** While the invariant holds, the operation leads from one state to the next. */
  ghost predicate Goes(d: Drive, a: Action, ok: bool, d': Drive, dir: nat) {
    Sane(d, dir) ==> Leads(d, a, ok, d', dir)
  }

  ghost predicate GoesAt(ds: seq<Drive>, acts: seq<Action>, oks: seq<bool>, dir: nat, i: nat) {
    i + 1 < |ds| && i < |acts| && i < |oks| && Goes(ds[i], acts[i], oks[i], ds[i + 1], dir)
  }

  ghost predicate IsRun(ds: seq<Drive>, acts: seq<Action>, oks: seq<bool>, dir: nat) {
    && |ds| == |acts| + 1 && |oks| == |acts|
    && forall i: nat | i < |acts| :: GoesAt(ds, acts, oks, dir, i)
  }

  ghost predicate KeepsAt(ds: seq<Drive>, acts: seq<Action>, dir: nat, i: nat)
    requires i < |ds| && i < |acts|
  {
    Sane(ds[i], dir) ==> Keeps(ds[i], acts[i], dir)
  }

  /** A run stays within the invariant if and only if each of its operations keeps it. */
  lemma RunStaysSane(ds: seq<Drive>, acts: seq<Action>, oks: seq<bool>, dir: nat)
    requires IsRun(ds, acts, oks, dir) && Sane(ds[0], dir)
    ensures (forall i | 0 <= i < |ds| :: Sane(ds[i], dir)) <==>
            (forall i: nat | i < |acts| :: KeepsAt(ds, acts, dir, i))
  {
    if forall i: nat | i < |acts| :: KeepsAt(ds, acts, dir, i) {
      forall i | 0 <= i < |ds| ensures Sane(ds[i], dir) { RunReaches(ds, acts, oks, dir, i); }
    }
    if forall i | 0 <= i < |ds| :: Sane(ds[i], dir) {
      forall i: nat | i < |acts| ensures KeepsAt(ds, acts, dir, i) {
        assert Sane(ds[i + 1], dir) && GoesAt(ds, acts, oks, dir, i);
        LeadsKeepsSane(ds[i], acts[i], oks[i], ds[i + 1], dir);
      }
    }
  }

  lemma {:induction false} RunReaches(ds: seq<Drive>, acts: seq<Action>, oks: seq<bool>, dir: nat, i: nat)
    requires IsRun(ds, acts, oks, dir) && Sane(ds[0], dir) && i < |ds|
    requires forall j: nat | j < i :: KeepsAt(ds, acts, dir, j)
    ensures Sane(ds[i], dir)
  {
    if i > 0 {
      RunReaches(ds, acts, oks, dir, i - 1);
      assert KeepsAt(ds, acts, dir, i - 1) && GoesAt(ds, acts, oks, dir, i - 1);
      LeadsKeepsSane(ds[i - 1], acts[i - 1], oks[i - 1], ds[i], dir);
    }
  }

  predicate Mentions(a: Action, name: Name) { a.name == name || (a.Rekey? && a.dest == name) }

  /** The operation keeps the invariant, and writes neither to the directory itself nor to this file. */
  ghost predicate Spares(d: Drive, a: Action, dir: nat, name: Name) {
    Sane(d, dir) ==> Keeps(d, a, dir) && !Overwrites(d, a, dir) && !Mentions(a, name)
  }

  ghost predicate SparesAt(ds: seq<Drive>, acts: seq<Action>, dir: nat, name: Name, i: nat) {
    i < |ds| && i < |acts| && Spares(ds[i], acts[i], dir, name)
  }

  /** What a name leads to, while the invariant holds. */
  datatype Lookup = Broken | Absent | Present(file: File)

  ghost function Look(d: Drive, dir: nat, name: Name): Lookup {
    if !Sane(d, dir) then Broken else if name in Files(d, dir) then Present(Files(d, dir)[name]) else Absent
  }

  /** What the name leads to in each state. */
  ghost function Looks(ds: seq<Drive>, dir: nat, name: Name): (ls: seq<Lookup>)
    ensures |ls| == |ds| && forall i | 0 <= i < |ds| :: ls[i] == Look(ds[i], dir, name)
  {
    seq(|ds|, i requires 0 <= i < |ds| => Look(ds[i], dir, name))
  }

  lemma {:induction false} AllTheSame(ls: seq<Lookup>, i: nat)
    requires i < |ls| && ls[0] != Broken && forall j: nat | j < i :: ls[j] != Broken ==> ls[j + 1] == ls[j]
    ensures ls[i] == ls[0]
  {
    if i > 0 { AllTheSame(ls, i - 1); }
  }

  /** A file that no operation of a run names keeps its bytes, size and attributes through the run. */
  lemma UnnamedFileStays(ds: seq<Drive>, acts: seq<Action>, oks: seq<bool>, dir: nat, name: Name, i: nat)
    requires IsRun(ds, acts, oks, dir) && Look(ds[0], dir, name) != Broken && i < |ds|
    requires forall j: nat | j < i :: SparesAt(ds, acts, dir, name, j)
    ensures Look(ds[i], dir, name) == Look(ds[0], dir, name)
  {
    var ls := Looks(ds, dir, name);
    forall j: nat | j < i && ls[j] != Broken ensures ls[j + 1] == ls[j] {
      StepSparesAt(ds, acts, oks, dir, name, i, j);
    }
    AllTheSame(ls, i);
  }

  lemma StepSparesAt(ds: seq<Drive>, acts: seq<Action>, oks: seq<bool>, dir: nat, name: Name, n: nat, i: nat)
    requires IsRun(ds, acts, oks, dir) && i < n < |ds| && forall j: nat | j < n :: SparesAt(ds, acts, dir, name, j)
    requires Look(ds[i], dir, name) != Broken
    ensures Look(ds[i + 1], dir, name) == Look(ds[i], dir, name)
  {
    assert GoesAt(ds, acts, oks, dir, i) && SparesAt(ds, acts, dir, name, i);
    StepSpares(ds[i], acts[i], oks[i], ds[i + 1], dir, name);
  }

  lemma StepSpares(d: Drive, a: Action, ok: bool, d': Drive, dir: nat, name: Name)
    requires Look(d, dir, name) != Broken && Goes(d, a, ok, d', dir) && Spares(d, a, dir, name)
    ensures Look(d', dir, name) == Look(d, dir, name)
  {
    OneBindingChanges(d, a, ok, d', dir);
    RefiledElsewhere(Files(d, dir), a, ok, name, NewBytes(d, a, d', dir));
  }

  ghost predicate SameFile(files: map<Name, File>, files': map<Name, File>, name: Name) {
    (name in files <==> name in files') && (name in files ==> files'[name] == files[name])
  }

  lemma RefiledElsewhere(files: map<Name, File>, a: Action, ok: bool, name: Name, bytes: seq<byte>)
    requires !Mentions(a, name)
    ensures SameFile(files, Refiled(files, a, ok, bytes), name)
  {}

  // ---------------------------------------------------------------- writing by name

  /** The file of this name has the data as its first `size` bytes and that size; nothing else changed. */
  ghost predicate Stored(files: map<Name, File>, files': map<Name, File>, name: Name, buf: seq<byte>, size: nat) {
    && name in files && name in files' && size <= |buf| && files'[name].size == size
    && size <= |files'[name].contents| && files'[name].contents[..size] == buf[..size]
    && files' == files[name := files'[name]] && files'[name].attributes == files[name].attributes
  }

  /** At most the contents of this file changed. */
  ghost predicate OnlyContents(files: map<Name, File>, files': map<Name, File>, name: Name) {
    && (name in files' <==> name in files)
    && files' == if name in files then files[name := files[name].(contents := files'[name].contents)] else files
  }

  lemma WriteThenResize(d: Drive, mid: Drive, d': Drive, name: Name, buf: seq<byte>, size: nat, ok: bool, dir: nat)
    requires Sane(d, dir) && name !in DOTS && Leads(d, Put(name, buf, size), true, mid, dir)
    requires Sane(mid, dir) && Leads(mid, Resize(name, size), ok, d', dir)
    ensures ok && Sane(d', dir) && Stored(Files(d, dir), Files(d', dir), name, buf, size)
  {
    TidyHead(Listed(d, dir), d.live.Keys, dir, d.parent, name);
    LeadsKeepsSane(d, Put(name, buf, size), true, mid, dir);
    OneBindingChanges(d, Put(name, buf, size), true, mid, dir);
    OneBindingChanges(mid, Resize(name, size), ok, d', dir);
    NamedHasFile(d, dir, name);
    TwoUpdates(Files(d, dir), name, NewBytes(d, Put(name, buf, size), mid, dir), buf, size);
  }

  /** A write that fails, for want of clusters or of the name. */
  lemma FailedWrite(d: Drive, d': Drive, name: Name, buf: seq<byte>, size: nat, dir: nat)
    requires Sane(d, dir) && Leads(d, Put(name, buf, size), false, d', dir)
    requires Keeps(d, Put(name, buf, size), dir) && !Overwrites(d, Put(name, buf, size), dir)
    ensures Sane(d', dir) && OnlyContents(Files(d, dir), Files(d', dir), name)
  {
    OneBindingChanges(d, Put(name, buf, size), false, d', dir);
  }

  lemma NamedHasFile(d: Drive, dir: nat, name: Name)
    requires Sane(d, dir)
    ensures name in Files(d, dir) <==> name in Listed(d, dir) && name !in DOTS
    ensures name in Files(d, dir) ==>
      var h := Listed(d, dir)[name].cluster; h in d.live && Files(d, dir)[name].contents == Bytes(d, dir, h)
  {
    SaneIsCovered(d, dir);
    if name in Listed(d, dir) && name !in DOTS { assert (Listed(d, dir) - DOTS)[name] == Listed(d, dir)[name]; }
  }

  lemma TwoUpdates(files: map<Name, File>, name: Name, bytes: seq<byte>, buf: seq<byte>, size: nat)
    requires name in files && size <= |bytes| && size <= |buf| && bytes[..size] == buf[..size]
    ensures Stored(files, Refiled(Refiled(files, Put(name, buf, size), true, bytes), Resize(name, size), true, []),
        name, buf, size)
  {}

  // ---------------------------------------------------------------- what the driver's methods promise

  /** These are the operations. */
  lemma RemoveIs(d: Drive, name: Name, l: map<Name, Info>, ok: bool, d': Drive, dir: nat)
    requires Sane(d, dir) && l == Listed(d, dir) && (!ok ==> d' == d)
    requires ok == Succeeds(d, Remove(name), dir) && d'.parent == d.parent
    requires ok ==> name in l && l[name].cluster in d.live && d'.live == d.live - {l[name].cluster}
    requires ok ==> d'.fat == FreeChain(d.fat, d.live[l[name].cluster])
    requires ok ==> OnlyDirectory(d, d', dir) && Dir(d'.data[dir][0]) == l - {name}
    ensures Leads(d, Remove(name), ok, d', dir) && Sane(d', dir)
  {
    if ok { DeleteIs(d, dir, l[name].cluster, Tables(d')); }
    LeadsKeepsSane(d, Remove(name), ok, d', dir);
  }

  lemma DeleteIs(d: Drive, dir: nat, h: nat, v: Volume)
    requires Framed(d, dir) && h in d.live && v == Volume(FreeChain(d.fat, d.live[h]), d.live - {h})
    ensures v == FatChains.Step(Tables(d), Op.Delete(h))
  {}

  lemma PutIs(d: Drive, name: Name, buf: seq<byte>, size: nat, w: Written, d': Drive, dir: nat)
    requires Sane(d, dir) && name in Listed(d, dir) && SectorsFor(size) * SECTOR_SIZE <= |buf|
    requires w == Rewritten(d, dir, name, size) && d'.parent == d.parent
    requires d'.fat == w.fat && d'.live == d.live[Listed(d, dir)[name].cluster := w.chain]
    requires Wrote(d.data, d'.data, w.chain, w.ok, 1, buf, size)
    ensures Leads(d, Put(name, buf, size), w.ok, d', dir)
    ensures Sane(d', dir) <==> Keeps(d, Put(name, buf, size), dir)
  {
    LeadsKeepsSane(d, Put(name, buf, size), w.ok, d', dir);
  }

  lemma ResizeIs(d: Drive, name: Name, size: nat, l: map<Name, Info>, ok: bool, d': Drive, dir: nat)
    requires Sane(d, dir) && l == Listed(d, dir) && (!ok ==> d' == d) && size < U32
    requires ok == (name in l) && d'.fat == d.fat && d'.live == d.live && d'.parent == d.parent
    requires ok ==> OnlyDirectory(d, d', dir) && Dir(d'.data[dir][0]) == l[name := l[name].(size := size)]
    ensures Leads(d, Resize(name, size), ok, d', dir) && Sane(d', dir)
  {
    LeadsKeepsSane(d, Resize(name, size), ok, d', dir);
  }

  lemma RekeyIs(d: Drive, name: Name, dest: Name, l: map<Name, Info>, ok: bool, d': Drive, dir: nat)
    requires Sane(d, dir) && l == Listed(d, dir) && (!ok ==> d' == d) && InModel(l, Rekey(name, dest), dir)
    requires ok == Succeeds(d, Rekey(name, dest), dir)
    requires d'.fat == d.fat && d'.live == d.live && d'.parent == d.parent
    requires ok ==> OnlyDirectory(d, d', dir) && Dir(d'.data[dir][0]) == RelistedIn(l, Rekey(name, dest), 0)
    ensures Leads(d, Rekey(name, dest), ok, d', dir)
    ensures Sane(d', dir) <==> Keeps(d, Rekey(name, dest), dir)
  {
    LeadsKeepsSane(d, Rekey(name, dest), ok, d', dir);
  }

  lemma MakeIs(d: Drive, name: Name, attributes: byte, l: map<Name, Info>, ok: bool, d': Drive, dir: nat, c: nat)
    requires Sane(d, dir) && l == Listed(d, dir) && (!ok ==> d' == d) && InModel(l, Make(name, attributes), dir)
    requires ok == Succeeds(d, Make(name, attributes), dir) && c == FirstFree(d.fat, 2) && d'.parent == d.parent
    requires ok ==> d'.fat == d.fat[c := EOC] && d'.live == d.live[c := [c]]
    requires ok ==> OnlyDirectory(d, d', dir) && Dir(d'.data[dir][0]) == l[name := Info(LowHalf(c), 0, attributes)]
    ensures Leads(d, Make(name, attributes), ok, d', dir)
    ensures Sane(d', dir) <==> Keeps(d, Make(name, attributes), dir)
  {
    LeadsKeepsSane(d, Make(name, attributes), ok, d', dir);
  }
}
