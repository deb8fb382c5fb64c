/**
  Four-level paging: a radix tree of 512-entry tables, each in its own frame, standing for a flat map from
  pages to frames.
*/
module Paging {
  import opened Arithmetic
  import opened Frames
  import opened Options
  import opened PageEntry
  import opened PageWord

  const ENTRIES := 512
  const P30: int := 0x4000_0000
  const P39: int := 0x80_0000_0000
  const P48: int := 0x1_0000_0000_0000

  // ---------------------------------------------------------------- addresses

  type Path = seq<nat>

  /** The four 9-bit indices of a virtual address. */
  function PathOf(va: nat): (p: Path)
    ensures IsPath(p)
  {
    [va / P39 % ENTRIES, va / P30 % ENTRIES, va / P21 % ENTRIES, va / P12 % ENTRIES]
  }

  predicate IsPath(p: Path) { |p| == 4 && forall k | 0 <= k < 4 :: p[k] < ENTRIES }

  /** Equal in address bits 12 to 47. */
  ghost predicate SamePage(va: nat, va': nat) { va / P12 % P36 == va' / P12 % P36 }

  ghost predicate Canonical(va: nat) { va < P48 / 2 || U64 - P48 / 2 <= va < U64 }

  /** The indices determine the page within 48 bits, */
  lemma PathInjective(va: nat, va': nat)
    ensures PathOf(va) == PathOf(va') <==> SamePage(va, va')
  {
    IndexDigits(va);
    IndexDigits(va');
    Digits(va / P12);
    Digits(va' / P12);
    assert PathOf(va) == PathOf(va') ==>
      PathOf(va)[0] == PathOf(va')[0] && PathOf(va)[1] == PathOf(va')[1] &&
      PathOf(va)[2] == PathOf(va')[2] && PathOf(va)[3] == PathOf(va')[3];
  }

  /** A canonical address by the page within 48 bits: the upper half repeats bit 47. */
  lemma CanonicalDigits(va: nat, n: nat, d: nat)
    requires Canonical(va) && n == va / P12 && d == n % P36
    ensures n == if va < P48 / 2 then d else d + 0xFFFF * P36
    ensures va < P48 / 2 <==> d < P36 / 2
  {
    if va < P48 / 2 {
      Quotient(n, P36, 0, n);
    } else {
      Quotient(n, P36, 0xFFFF, n - 0xFFFF * P36);
    }
  }

  /** and, for canonical addresses, the page itself. */
  lemma CanonicalPage(va: nat, va': nat)
    requires Canonical(va) && Canonical(va')
    ensures SamePage(va, va') <==> va / P12 == va' / P12
  {
    CanonicalDigits(va, va / P12, va / P12 % P36);
    CanonicalDigits(va', va' / P12, va' / P12 % P36);
  }

  lemma IndexDigits(va: nat)
    ensures var d := va / P12 % P36; PathOf(va) == [d / 512 / 512 / 512, d / 512 / 512 % 512, d / 512 % 512, d % 512]
  {
    var n := va / P12;
    var d, k := n % P36, n / P36;
    assert va / P21 == n / 512 && va / P30 == n / 512 / 512 && va / P39 == n / 512 / 512 / 512;
    Quotient(n, 512, k * 0x800_0000 + d / 512, d % 512);
    Quotient(n / 512, 512, k * 0x4_0000 + d / 512 / 512, d / 512 % 512);
    Quotient(n / 512 / 512, 512, k * 512 + d / 512 / 512 / 512, d / 512 / 512 % 512);
    Quotient(n / 512 / 512 / 512, 512, k, d / 512 / 512 / 512);
  }

  lemma Digits(n: nat)
    ensures var d := n % P36;
      d == ((d / 512 / 512 / 512 * 512 + d / 512 / 512 % 512) * 512 + d / 512 % 512) * 512 + d % 512
  {}

  // ---------------------------------------------------------------- the tree

  type Table = seq<Entry>
  datatype Mapping = Mapping(frame: nat, writable: bool)

  /** The tables in physical memory, by address, and the top one. */
  datatype Space = Space(root: nat, tables: map<nat, Table>)

  /** The tables as they lie in memory, by address: 64-bit words. */
  type Memory = map<nat, seq<Word64>>

  /** The words of table `t` have the fields its entries say. */
  ghost predicate TableRepresents(memory: Memory, tables: map<nat, Table>, t: nat) {
    && (t in memory <==> t in tables)
    && (t in memory ==>
          && |memory[t]| == |tables[t]| == ENTRIES
          && forall i {:trigger memory[t][i]} | 0 <= i < ENTRIES :: tables[t][i] == Fields(memory[t][i]))
  }

  ghost predicate Represents(memory: Memory, tables: map<nat, Table>) {
    forall t: nat {:trigger TableRepresents(memory, tables, t)} :: TableRepresents(memory, tables, t)
  }

  function Stored(memory: Memory, t: nat, i: nat, v: Word64): Memory
    requires t in memory && i < |memory[t]|
  {
    var words: seq<Word64> := memory[t];
    var stored: seq<Word64> := words[i := v];
    memory[t := stored]
  }

  /** Rewriting one word rewrites one entry, */
  lemma RewriteRepresents(memory: Memory, tables: map<nat, Table>, t: nat, i: nat, v: Word64)
    requires Represents(memory, tables) && TableRepresents(memory, tables, t) && t in memory && i < ENTRIES
    ensures Represents(Stored(memory, t, i, v), tables[t := Patched(tables[t], i, Fields(v))])
  {
    assert TableRepresents(memory, tables, t);
    var memory', tables' := Stored(memory, t, i, v), tables[t := Patched(tables[t], i, Fields(v))];
    forall s: nat ensures TableRepresents(memory', tables', s) {
      assert TableRepresents(memory, tables, s);
    }
  }

  /** and a zeroed frame is an empty table. */
  lemma ZeroedRepresents(memory: Memory, tables: map<nat, Table>, t: nat)
    requires Represents(memory, tables)
    ensures Represents(memory[t := Zeros()], tables[t := Empty()])
  {
    ZeroFields();
    var memory', tables' := memory[t := Zeros()], tables[t := Empty()];
    forall s: nat ensures TableRepresents(memory', tables', s) {
      assert TableRepresents(memory, tables, s);
    }
  }

  predicate Follows(v: Entry) { v.present && !v.huge }

  /** The table reached by a path of indices; huge entries lead nowhere. */
  function TableAt(sp: Space, p: Path): Option<nat>
    decreases |p|
  {
    if p == [] then Some(sp.root) else Below(sp, TableAt(sp, p[..|p| - 1]), p[|p| - 1])
  }

  /** The table that entry `i` of a table leads to. */
  function Below(sp: Space, t: Option<nat>, i: nat): Option<nat> {
    if t.Some? && t.value in sp.tables && i < |sp.tables[t.value]| && Follows(sp.tables[t.value][i])
    then Some(sp.tables[t.value][i].address)
    else None
  }

  lemma TableBelow(sp: Space, q: Path, i: nat)
    ensures TableAt(sp, q + [i]) == Below(sp, TableAt(sp, q), i)
  {
    var p := q + [i];
    assert p[..|p| - 1] == q && p[|p| - 1] == i;
  }

  function Decode(v: Entry): Option<Mapping> {
    if v.present then Some(Mapping(v.address, v.writable)) else None
  }

  /** What the tree maps the page with these four indices to. */
  function Lookup(sp: Space, p: Path): Option<Mapping>
    requires |p| == 4
  {
    match TableAt(sp, p[..3])
    case None => None
    case Some(t) => if t in sp.tables && p[3] < |sp.tables[t]| then Decode(sp.tables[t][p[3]]) else None
  }

  /** The flat map: the mapping of each virtual address. */
  function Translate(sp: Space, va: nat): Option<Mapping> { Lookup(sp, PathOf(va)) }

  /** The walk of the processor over the words in memory: bits 39 to 47, 30 to 38, 21 to 29 and 12 to 20 of the address
      index one table each, bit 0 of a word is present, bit 7 huge and bit 1 writable, and bits 12 to 47 are the base of
      the next table or of the page. */
  function Walked(memory: Memory, root: nat, va: nat): Option<Mapping> {
    var pdpt := Followed(WordAt(memory, Some(root), va / 0x80_0000_0000 % 512));
    var pd := Followed(WordAt(memory, pdpt, va / 0x4000_0000 % 512));
    var pt := Followed(WordAt(memory, pd, va / 0x20_0000 % 512));
    match WordAt(memory, pt, va / 0x1000 % 512)
    case None => None
    case Some(w) => if w % 2 == 1 then Some(Mapping(BaseOf(w), w / 2 % 2 == 1)) else None
  }

  function WordAt(memory: Memory, t: Option<nat>, i: nat): Option<nat> {
    if t.Some? && t.value in memory && i < |memory[t.value]| then Some(memory[t.value][i]) else None
  }

  function Followed(w: Option<nat>): Option<nat> {
    if w.Some? && w.value % 2 == 1 && w.value / 128 % 2 == 0 then Some(BaseOf(w.value)) else None
  }

  function BaseOf(w: nat): nat { w / 0x1000 % 0x10_0000_0000 * 0x1000 }

  lemma FollowsWord(memory: Memory, sp: Space, t: Option<nat>, i: nat)
    requires Represents(memory, sp.tables)
    ensures Followed(WordAt(memory, t, i)) == Below(sp, t, i)
  {
    if t.Some? { assert TableRepresents(memory, sp.tables, t.value); }
  }

  /** What the tree says is what the processor finds. */
  lemma WalkIsTranslate(memory: Memory, sp: Space, owner: map<nat, Path>, va: nat)
    requires Represents(memory, sp.tables) && Tree(sp, owner)
    ensures Walked(memory, sp.root, va) == Translate(sp, va)
  {
    var p := PathOf(va);
    assert p[..0] == [] && p[..1] == [] + [p[0]] && p[..2] == p[..1] + [p[1]] && p[..3] == p[..2] + [p[2]];
    TableBelow(sp, [], p[0]);
    TableBelow(sp, p[..1], p[1]);
    TableBelow(sp, p[..2], p[2]);
    FollowsWord(memory, sp, Some(sp.root), p[0]);
    FollowsWord(memory, sp, TableAt(sp, p[..1]), p[1]);
    FollowsWord(memory, sp, TableAt(sp, p[..2]), p[2]);
    LeafWord(memory, sp, owner, p, TableAt(sp, p[..3]));
  }

  lemma LeafWord(memory: Memory, sp: Space, owner: map<nat, Path>, p: Path, t: Option<nat>)
    requires Represents(memory, sp.tables) && Tree(sp, owner) && |p| == 4 && t == TableAt(sp, p[..3])
    ensures Lookup(sp, p) ==
      match WordAt(memory, t, p[3])
      case None => None
      case Some(w) => if w % 2 == 1 then Some(Mapping(BaseOf(w), w / 2 % 2 == 1)) else None
  {
    if t.Some? {
      WalkInTree(sp, owner, p[..3]);
      assert TableRepresents(memory, sp.tables, t.value);
    }
  }

  /** Every table has one place in the tree, the path `owner` gives, and only the entry there leads to it. */
  ghost predicate Tree(sp: Space, owner: map<nat, Path>) {
    && sp.root in sp.tables && owner.Keys == sp.tables.Keys && owner[sp.root] == []
    && (forall t | t in sp.tables :: |sp.tables[t]| == ENTRIES && |owner[t]| <= 3)
    && (forall t, i {:trigger sp.tables[t][i]} | t in sp.tables && 0 <= i < ENTRIES ::
          var v := sp.tables[t][i];
          && (v == ZERO || v.present)
          && (|owner[t]| == 3 ==> !v.huge)
          && (|owner[t]| < 3 && Follows(v) ==> v.address in sp.tables && owner[v.address] == owner[t] + [i]))
  }

  /** Walks stay in the tree: the table at a path is the one that path owns. */
  lemma {:induction false} WalkInTree(sp: Space, owner: map<nat, Path>, p: Path)
    requires Tree(sp, owner) && |p| <= 3 && TableAt(sp, p).Some?
    ensures TableAt(sp, p).value in sp.tables && owner[TableAt(sp, p).value] == p
    decreases |p|
  {
    if p != [] {
      var q := p[..|p| - 1];
      WalkInTree(sp, owner, q);
      assert p == q + [p[|p| - 1]];
    }
  }

  function Patched(table: Table, i: nat, v: Entry): Table
    requires i < |table|
  {
    table[i := v]
  }

  function Empty(): Table { seq(ENTRIES, _ => ZERO) }

  function Zeros(): seq<Word64> { seq<Word64>(ENTRIES, _ => 0) }

  /** A new empty table `f` linked from entry `i` of table `t`. */
  function Grown(sp: Space, t: nat, i: nat, f: nat, v: Entry): Space
    requires t in sp.tables && i < |sp.tables[t]|
  {
    Space(sp.root, sp.tables[t := Patched(sp.tables[t], i, v)][f := Empty()])
  }

  ghost predicate CanGrow(sp: Space, owner: map<nat, Path>, t: nat, i: nat, f: nat, v: Entry) {
    && Tree(sp, owner) && t in sp.tables && i < ENTRIES && |owner[t]| < 3
    && TableAt(sp, owner[t]) == Some(t) && sp.tables[t][i] == ZERO
    && f !in sp.tables && Follows(v) && v.address == f
  }

  lemma GrowKeepsTree(sp: Space, owner: map<nat, Path>, t: nat, i: nat, f: nat, v: Entry)
    requires CanGrow(sp, owner, t, i, f, v)
    ensures Tree(Grown(sp, t, i, f, v), owner[f := owner[t] + [i]])
  {
    var sp', owner' := Grown(sp, t, i, f, v), owner[f := owner[t] + [i]];
    forall s, j | s in sp'.tables && 0 <= j < ENTRIES
      ensures var w := sp'.tables[s][j];
        && (w == ZERO || w.present)
        && (|owner'[s]| == 3 ==> !w.huge)
        && (|owner'[s]| < 3 && Follows(w) ==> w.address in sp'.tables && owner'[w.address] == owner'[s] + [j])
    {
      if s != f && !(s == t && j == i) { assert sp'.tables[s][j] == sp.tables[s][j]; }
    }
  }

  /** Growing adds one table to the walks and changes no other. */
  lemma {:induction false} GrowWalks(sp: Space, owner: map<nat, Path>, t: nat, i: nat, f: nat, v: Entry, p: Path)
    requires CanGrow(sp, owner, t, i, f, v) && |p| <= 3
    ensures TableAt(Grown(sp, t, i, f, v), p) ==
            if p == owner[t] + [i] then Some(f) else TableAt(sp, p)
    decreases |p|
  {
    if p != [] {
      var q, j := p[..|p| - 1], p[|p| - 1];
      assert p == q + [j];
      GrowWalks(sp, owner, t, i, f, v, q);
      TableBelow(sp, owner[t], i);
      if TableAt(sp, q).Some? { WalkInTree(sp, owner, q); }
      GrowBelow(sp, owner, t, i, f, v, q, j);
    }
  }

  lemma GrowBelow(sp: Space, owner: map<nat, Path>, t: nat, i: nat, f: nat, v: Entry, q: Path, j: nat)
    requires CanGrow(sp, owner, t, i, f, v) && |q| < 3
    requires TableAt(sp, q).Some? ==> TableAt(sp, q).value in sp.tables && owner[TableAt(sp, q).value] == q
    requires q == owner[t] + [i] ==> TableAt(sp, q).None?
    ensures Below(Grown(sp, t, i, f, v), if q == owner[t] + [i] then Some(f) else TableAt(sp, q), j) ==
            if q + [j] == owner[t] + [i] then Some(f) else Below(sp, TableAt(sp, q), j)
  {
    if q + [j] == owner[t] + [i] {
      assert q == (q + [j])[..|q|] && owner[t] == (owner[t] + [i])[..|owner[t]|];
      assert j == (q + [j])[|q|] && i == (owner[t] + [i])[|owner[t]|];
    } else if TableAt(sp, q).Some? {
      var s := TableAt(sp, q).value;
      assert s != t || j != i;
    }
  }

  /** Growing maps nothing: the new table is empty. */
  lemma GrowMapsNothing(sp: Space, owner: map<nat, Path>, t: nat, i: nat, f: nat, v: Entry, p: Path)
    requires CanGrow(sp, owner, t, i, f, v) && |p| == 4
    ensures Lookup(Grown(sp, t, i, f, v), p) == Lookup(sp, p)
  {
    var q := p[..3];
    GrowWalks(sp, owner, t, i, f, v, q);
    var sp' := Grown(sp, t, i, f, v);
    if q == owner[t] + [i] {
      TableBelow(sp, owner[t], i);
      assert sp'.tables[f] == Empty();
    } else if TableAt(sp, q).Some? {
      WalkInTree(sp, owner, q);
      var s := TableAt(sp, q).value;
      assert s != t && s != f && sp'.tables[s] == sp.tables[s];
    }
  }

  /** A leaf entry rewritten. */
  function WithEntry(sp: Space, t: nat, i: nat, v: Entry): Space
    requires t in sp.tables && i < |sp.tables[t]|
  {
    Space(sp.root, sp.tables[t := Patched(sp.tables[t], i, v)])
  }

  ghost predicate CanSetLeaf(sp: Space, owner: map<nat, Path>, t: nat, i: nat, v: Entry) {
    && Tree(sp, owner) && t in sp.tables && i < ENTRIES && |owner[t]| == 3 && TableAt(sp, owner[t]) == Some(t)
    && (v == ZERO || v.present) && !v.huge
  }

  lemma LeafKeepsTree(sp: Space, owner: map<nat, Path>, t: nat, i: nat, v: Entry)
    requires CanSetLeaf(sp, owner, t, i, v)
    ensures Tree(WithEntry(sp, t, i, v), owner)
  {
    var sp' := WithEntry(sp, t, i, v);
    forall s, j | s in sp'.tables && 0 <= j < ENTRIES
      ensures var w := sp'.tables[s][j];
        && (w == ZERO || w.present)
        && (|owner[s]| == 3 ==> !w.huge)
        && (|owner[s]| < 3 && Follows(w) ==> w.address in sp'.tables && owner[w.address] == owner[s] + [j])
    {
      if !(s == t && j == i) { assert sp'.tables[s][j] == sp.tables[s][j]; }
    }
  }

  lemma {:induction false} LeafKeepsWalks(sp: Space, owner: map<nat, Path>, t: nat, i: nat, v: Entry, p: Path)
    requires CanSetLeaf(sp, owner, t, i, v) && |p| <= 3
    ensures TableAt(WithEntry(sp, t, i, v), p) == TableAt(sp, p)
    decreases |p|
  {
    if p != [] {
      var q := p[..|p| - 1];
      LeafKeepsWalks(sp, owner, t, i, v, q);
      if TableAt(sp, q).Some? { WalkInTree(sp, owner, q); }
    }
  }

  /** Rewriting a leaf entry changes the mapping of its own page and of no other. */
  lemma LeafSetsOne(sp: Space, owner: map<nat, Path>, t: nat, i: nat, v: Entry, p: Path)
    requires CanSetLeaf(sp, owner, t, i, v) && |p| == 4
    ensures Lookup(WithEntry(sp, t, i, v), p) == if p == owner[t] + [i] then Decode(v) else Lookup(sp, p)
  {
    var q := p[..3];
    assert p == q + [p[3]];
    LeafKeepsWalks(sp, owner, t, i, v, q);
    if TableAt(sp, q).Some? { WalkInTree(sp, owner, q); }
  }

  // ---------------------------------------------------------------- the manager

  function FrameAddress(start: nat, i: int): int { start + i * PAGE_SIZE }

  function FrameIndex(start: nat, a: int): int { (a - start) / PAGE_SIZE }

  lemma FrameIndexOfAddress(start: nat, i: int)
    ensures FrameIndex(start, FrameAddress(start, i)) == i
  {}

  ghost predicate NoHugeAt(sp: Space, q: Path, i: nat) {
    var t := TableAt(sp, q);
    t.Some? && t.value in sp.tables && i < |sp.tables[t.value]| ==> !sp.tables[t.value][i].huge
  }

  /** No entry on the way to this page is a huge-page entry. */
  ghost predicate OffHuge(sp: Space, p: Path)
    requires |p| == 4
  {
    NoHugeAt(sp, p[..0], p[0]) && NoHugeAt(sp, p[..1], p[1]) && NoHugeAt(sp, p[..2], p[2])
  }

  /** How many tables are missing on the way to this page. */
  ghost function Missing(sp: Space, p: Path): nat
    requires |p| == 4
  {
    if TableAt(sp, p[..1]).None? then 3
    else if TableAt(sp, p[..2]).None? then 2
    else if TableAt(sp, p[..3]).None? then 1
    else 0
  }

  /** A top table without entries: no walk leaves it. */
  lemma EmptyTop(sp: Space)
    requires sp == Space(sp.root, map[sp.root := Empty()])
    ensures forall va: nat :: Translate(sp, va) == None
    ensures forall p: Path | |p| == 4 :: OffHuge(sp, p) && TableAt(sp, p[..1]) == None
  {
    forall p: Path | |p| == 4 ensures OffHuge(sp, p) && TableAt(sp, p[..1]) == None {
      assert p[..1] == [p[0]] && p[..1][..0] == [];
      assert TableAt(sp, p[..1]) == None;
      assert p[..2][..1] == p[..1];
    }
    forall va: nat ensures Translate(sp, va) == None {
      var p := PathOf(va);
      assert p[..2][..1] == p[..1] && p[..3][..2] == p[..2];
    }
  }

  /** A word with this page base, present, for the kernel only, writable or not. */
  ghost predicate HoldsWord(memory: Memory, t: nat, i: nat, pa: nat, writable: bool) {
    && t in memory && i < |memory[t]|
    && memory[t][i] / 0x1000 == pa / 0x1000 && memory[t][i] % 8 == if writable then 3 else 1
  }

  lemma LinkHolds(memory: Memory, memory': Memory, t: nat, i: nat, pa: Word64, writable: bool)
    requires t in memory && i < |memory[t]| && memory' == Stored(memory, t, i, LinkWord(memory[t][i], pa, writable))
    ensures HoldsWord(memory', t, i, pa, writable)
  {
    LinkWordParts(memory[t][i], pa, writable, memory'[t][i]);
  }

  class VirtualMemory {
    const pmm: PhysicalMemory
    var pml4: nat
    var memory: Memory

    /** The entries that the words in memory stand for, and each table's place in the tree. */
    ghost var space: Space
    ghost var owner: map<nat, Path>

    /** The frames that hold tables. */
    ghost var held: set<int>

    ghost predicate Valid()
      reads this, pmm, pmm.bitmap
    {
      && pmm.Valid()
      && 0 < pmm.memoryStart && pmm.memoryStart % P12 == 0
      && pmm.memoryStart + pmm.totalFrames * PAGE_SIZE <= P48
      && Tree(space, owner) && space.root == pml4 && Represents(memory, space.tables)
      && held !! pmm.free
      && 0 !in space.tables
      && (forall t {:trigger FrameIndex(pmm.memoryStart, t)} | t in space.tables ::
          FrameIndex(pmm.memoryStart, t) in held)
      && (forall i {:trigger FrameAddress(pmm.memoryStart, i)} | i in held ::
          FrameAddress(pmm.memoryStart, i) in space.tables)
    }

    /** An empty top table in the first free frame: nothing is mapped. */
    constructor (pmm: PhysicalMemory)
      requires pmm.Valid() && pmm.free != {} && 0 < pmm.memoryStart && pmm.memoryStart % P12 == 0
      requires pmm.memoryStart + pmm.totalFrames * PAGE_SIZE <= P48
      modifies pmm, pmm.bitmap
      ensures Valid() && this.pmm == pmm
      ensures pmm.memoryStart == old(pmm.memoryStart) && pmm.totalFrames == old(pmm.totalFrames)
      ensures pmm.free == old(pmm.free) - held && held <= old(pmm.free) && |held| == 1
      ensures forall va: nat :: Translate(space, va) == None
      ensures forall p: Path | |p| == 4 :: OffHuge(space, p) && TableAt(space, p[..1]) == None
    {
      var f := pmm.AllocateFrame();
      ghost var i :| IsLowest(i, old(pmm.free)) && f == pmm.memoryStart + i * PAGE_SIZE &&
          pmm.free == old(pmm.free) - {i};
      FrameIndexOfAddress(pmm.memoryStart, i);
      ZeroedRepresents(map[], map[], f);
      this.pmm := pmm;
      pml4, memory := f, map[f := Zeros()];
      space := Space(f, map[f := Empty()]);
      owner := map[f := []];
      held := {i};
      new;
      EmptyTop(space);
    }

    /** `present()` of one entry. */
    method IsPresent(table: nat, index: nat) returns (b: bool)
      requires Represents(memory, space.tables) && table in space.tables && index < |space.tables[table]| == ENTRIES
      ensures b == space.tables[table][index].present
    {
      assert TableRepresents(memory, space.tables, table);
      b := Present(memory[table][index]);
    }

    /** `address()` of one entry. */
    method AddressAt(table: nat, index: nat) returns (a: nat)
      requires Represents(memory, space.tables) && table in space.tables && index < |space.tables[table]| == ENTRIES
      ensures a == space.tables[table][index].address
    {
      assert TableRepresents(memory, space.tables, table);
      a := Address(memory[table][index]);
    }

    /** The four setters in their order, on a small-page entry. */
    method LinkEntry(table: nat, index: nat, a: Word64, writable: bool)
      requires Represents(memory, space.tables) && table in space.tables && index < |space.tables[table]| == ENTRIES
      requires !space.tables[table][index].huge
      modifies this`memory, this`space
      ensures Represents(memory, space.tables)
      ensures space == WithEntry(old(space), table, index, Entry(true, writable, false, false, a / P12 % P36 * P12))
      ensures table in old(memory) && |old(memory)[table]| == ENTRIES
      ensures memory == Stored(old(memory), table, index, LinkWord(old(memory)[table][index], a, writable))
    {
      assert TableRepresents(memory, space.tables, table);
      var v := memory[table][index];
      LinkedFields(v, a, writable);
      LinkedWord(v, a, writable);
      var w := SetAddress(v, a);
      w := SetPresent(w, true);
      w := SetWritable(w, writable);
      w := SetUser(w, false);
      RewriteRepresents(memory, space.tables, table, index, w);
      memory := Stored(memory, table, index, w);
      space := WithEntry(space, table, index, Entry(true, writable, false, false, a / P12 % P36 * P12));
    }

    method ClearEntry(table: nat, index: nat)
      requires Represents(memory, space.tables) && table in space.tables && index < |space.tables[table]| == ENTRIES
      modifies this`memory, this`space
      ensures Represents(memory, space.tables) && space == WithEntry(old(space), table, index, ZERO)
    {
      assert TableRepresents(memory, space.tables, table);
      ZeroFields();
      RewriteRepresents(memory, space.tables, table, index, 0);
      memory := Stored(memory, table, index, 0);
      space := WithEntry(space, table, index, ZERO);
    }

    /** A fresh frame, filled with zero entries. */
    method CreatePageTable() returns (f: nat)
      requires Valid() && pmm.free != {}
      modifies this`memory, this`space, pmm, pmm.bitmap
      ensures pmm.Valid() && pmm.memoryStart == old(pmm.memoryStart) && pmm.totalFrames == old(pmm.totalFrames)
      ensures FrameIndex(pmm.memoryStart, f) in old(pmm.free) &&
          pmm.free == old(pmm.free) - {FrameIndex(pmm.memoryStart, f)}
      ensures f !in old(space.tables) && 0 < f < P48 && f / P12 % P36 * P12 == f
      ensures f == FrameAddress(pmm.memoryStart, FrameIndex(pmm.memoryStart, f))
      ensures Represents(memory, space.tables) && space == Space(old(space.root), old(space.tables)[f := Empty()])
    {
      f := pmm.AllocateFrame();
      ghost var i :| IsLowest(i, old(pmm.free)) && f == pmm.memoryStart + i * PAGE_SIZE &&
          pmm.free == old(pmm.free) - {i};
      FrameIndexOfAddress(pmm.memoryStart, i);
      AddressSurvives(f);
      ZeroedRepresents(memory, space.tables, f);
      memory := memory[f := Zeros()];
      space := Space(space.root, space.tables[f := Empty()]);
    }

    /** `get_next_level` without creation: the table below entry `index` of `table`, which is the table at path
        `q`, or null. */
    method GetNextLevel(table: nat, index: nat, ghost q: Path) returns (next: nat)
      requires Valid() && TableAt(space, q) == Some(table) && |q| < 3 && index < ENTRIES && NoHugeAt(space, q, index)
      ensures next == match TableAt(space, q + [index]) { case None => 0 case Some(t) => t }
      ensures TableAt(space, q + [index]).Some? ==> next != 0
      ensures next == 0 ==> table in space.tables && owner[table] == q && space.tables[table][index] == ZERO
    {
      WalkInTree(space, owner, q);
      TableBelow(space, q, index);
      var present := IsPresent(table, index);
      if !present {
        return 0;
      }
      next := AddressAt(table, index);
      WalkInTree(space, owner, q + [index]);
    }

    /** `get_next_level` with creation. */
    method GetOrCreateNextLevel(table: nat, index: nat, ghost q: Path) returns (next: nat)
      requires Valid() && TableAt(space, q) == Some(table) && |q| < 3 && index < ENTRIES && NoHugeAt(space, q, index)
      requires TableAt(space, q + [index]).None? ==> pmm.free != {}
      modifies this, pmm, pmm.bitmap
      ensures Valid() && pmm.memoryStart == old(pmm.memoryStart) && pmm.totalFrames == old(pmm.totalFrames)
      ensures next != 0 && TableAt(space, q + [index]) == Some(next)
      ensures old(TableAt(space, q + [index])).Some? ==>
          space == old(space) && held == old(held) && pmm.free == old(pmm.free)
      ensures old(TableAt(space, q + [index])).None? ==>
                && Added(old(space), space, q + [index], next)
                && Takes(old(held), held, old(pmm.free), pmm.free) && |pmm.free| == |old(pmm.free)| - 1
    {
      ghost var below := TableAt(space, q + [index]);
      next := GetNextLevel(table, index, q);
      assert next == 0 <==> below.None?;
      if next == 0 {
        next := LinkNewTable(table, index, q);
      }
    }

    /** Link a fresh table from an unused entry. */
    method LinkNewTable(table: nat, index: nat, ghost q: Path) returns (next: nat)
      requires Valid() && TableAt(space, q) == Some(table) && |q| < 3 && index < ENTRIES
      requires table in space.tables && owner[table] == q && space.tables[table][index] == ZERO && pmm.free != {}
      modifies this, pmm, pmm.bitmap
      ensures Valid() && pmm.memoryStart == old(pmm.memoryStart) && pmm.totalFrames == old(pmm.totalFrames)
      ensures next != 0 && Added(old(space), space, q + [index], next)
        && Takes(old(held), held, old(pmm.free), pmm.free) && |pmm.free| == |old(pmm.free)| - 1
    {
      ghost var before, e := space, Entry(true, true, false, false, 0);
      next := CreatePageTable();
      LinkEntry(table, index, next, true);
      e := e.(address := next);
      GrowKeepsTree(before, owner, table, index, next, e);
      GrowAdds(before, owner, table, index, next, e);
      assert space == Grown(before, table, index, next, e);
      owner := owner[next := q + [index]];
      held := held + {FrameIndex(pmm.memoryStart, next)};
    }

    /** One level further down the path, making the table if it is missing. */
    method Descend(p: Path, table: nat, k: nat) returns (next: nat)
      requires Valid() && IsPath(p) && k < 3 && TableAt(space, p[..k]) == Some(table)
      requires OffHuge(space, p) && Missing(space, p) <= |pmm.free|
      modifies this, pmm, pmm.bitmap
      ensures Valid() && pmm.memoryStart == old(pmm.memoryStart) && pmm.totalFrames == old(pmm.totalFrames)
      ensures next != 0 && TableAt(space, p[..k + 1]) == Some(next) && OffHuge(space, p)
      ensures Extends(old(space), space) && OnlyLeaf(old(space), space, p)
      ensures Takes(old(held), held, old(pmm.free), pmm.free)
      ensures |pmm.free| - Missing(space, p) == |old(pmm.free)| - old(Missing(space, p))
    {
      ghost var sp0 := space;
      assert p[..k + 1] == p[..k] + [p[k]];
      MissingWhenNone(space, p, k);
      next := GetOrCreateNextLevel(table, p[k], p[..k]);
      if TableAt(sp0, p[..k + 1]).None? {
        AddedMissing(sp0, space, p, k, next);
      }
    }

    /** Bind one page, unless it is bound already: the first mapping wins. Needs a free frame for every table
        missing on the way. */
    method MapPage(va: nat, pa: Word64, writable: bool)
      requires Valid() && OffHuge(space, PathOf(va)) && Missing(space, PathOf(va)) <= |pmm.free|
      modifies this, pmm, pmm.bitmap
      ensures Valid() && pmm.memoryStart == old(pmm.memoryStart) && pmm.totalFrames == old(pmm.totalFrames)
      ensures forall a: nat :: Translate(space, a) ==
                if SamePage(a, va) && old(Translate(space, va)).None?
                then Some(Mapping(pa / P12 % P36 * P12, writable)) else old(Translate(space, a))
      ensures KeepsWalks(old(space), space) && OnlyLeaf(old(space), space, PathOf(va))
      ensures TableAt(space, PathOf(va)[..3]).Some?
      ensures old(Translate(space, va)).None? ==>
                HoldsWord(memory, TableAt(space, PathOf(va)[..3]).value, va / 0x1000 % 512, pa, writable)
      ensures Takes(old(held), held, old(pmm.free), pmm.free)
      ensures |pmm.free| == |old(pmm.free)| - old(Missing(space, PathOf(va)))
    {
      var p := PathOf(va);
      var pt := EnsureTables(p);
      WalkInTree(space, owner, p[..3]);
      ghost var mid := space;
      assert forall a: nat :: Translate(mid, a) == old(Translate(space, a));
      var present := IsPresent(pt, p[3]);
      if !present {
        BindLeaf(va, pt, pa, writable);
      }
    }

    /** The processor's walk of the tables in memory finds what the tree says. */
    lemma ProcessorAgrees()
      requires Valid()
      ensures forall va: nat :: Walked(memory, pml4, va) == Translate(space, va)
    {
      forall va: nat ensures Walked(memory, pml4, va) == Translate(space, va) {
        WalkIsTranslate(memory, space, owner, va);
      }
    }

    /** What overwriting the leaf entry of `va`, in its leaf table `pt`, will do. */
    lemma LeafIsSet(va: nat, pt: nat, e: Entry)
      requires Valid() && TableAt(space, PathOf(va)[..3]) == Some(pt) && (e == ZERO || e.present) && !e.huge
      ensures pt in space.tables && |space.tables[pt]| == ENTRIES && !space.tables[pt][PathOf(va)[3]].huge
      ensures var sp := WithEntry(space, pt, PathOf(va)[3], e);
        && Tree(sp, owner) && KeepsWalks(space, sp) && sp.tables.Keys == space.tables.Keys
        && (forall p: Path | |p| <= 3 :: TableAt(sp, p) == TableAt(space, p))
        && (forall a: nat :: Translate(sp, a) == if SamePage(a, va) then Decode(e) else Translate(space, a))
    {
      var p := PathOf(va);
      WalkInTree(space, owner, p[..3]);
      LeafKeepsTree(space, owner, pt, p[3], e);
      LeafTranslates(space, owner, pt, va, e);
      LeafWalks(space, owner, pt, p[3], e);
    }

    /** Write the leaf entry of `va`. */
    method BindLeaf(va: nat, pt: nat, pa: Word64, writable: bool)
      requires Valid() && TableAt(space, PathOf(va)[..3]) == Some(pt)
      modifies this`space, this`memory
      ensures Valid() && KeepsWalks(old(space), space) && OnlyLeaf(old(space), space, PathOf(va))
      ensures forall a: nat :: Translate(space, a) ==
                if SamePage(a, va) then Some(Mapping(pa / P12 % P36 * P12, writable)) else old(Translate(space, a))
      ensures HoldsWord(memory, pt, va / 0x1000 % 512, pa, writable)
    {
      LeafIsSet(va, pt, Entry(true, writable, false, false, pa / P12 % P36 * P12));
      ghost var was := memory;
      LinkEntry(pt, PathOf(va)[3], pa, writable);
      LinkHolds(was, memory, pt, PathOf(va)[3], pa, writable);
    }

    /** Zero it. */
    method UnbindLeaf(va: nat, pt: nat)
      requires Valid() && TableAt(space, PathOf(va)[..3]) == Some(pt)
      modifies this`space, this`memory
      ensures Valid() && KeepsWalks(old(space), space) && OnlyLeaf(old(space), space, PathOf(va))
      ensures forall a: nat :: Translate(space, a) == if SamePage(a, va) then None else old(Translate(space, a))
    {
      LeafIsSet(va, pt, ZERO);
      ClearEntry(pt, PathOf(va)[3]);
    }

    /** Undo the binding of one page; tables stay. */
    method UnmapPage(va: nat)
      requires Valid() && OffHuge(space, PathOf(va))
      modifies this`space, this`memory
      ensures Valid()
      ensures forall a: nat :: Translate(space, a) == if SamePage(a, va) then None else old(Translate(space, a))
      ensures KeepsWalks(old(space), space)
    {
      var p := PathOf(va);
      var pt := FindLeafTable(p);
      if pt == 0 {
        forall a: nat ensures SamePage(a, va) ==> Translate(space, a) == None { PathInjective(a, va); }
        return;
      }
      UnbindLeaf(va, pt);
    }

    /** The frame bound to the page, or 0; the offset within the page is dropped. */
    method GetPhysicalAddress(va: nat) returns (pa: nat)
      requires Valid() && OffHuge(space, PathOf(va))
      ensures pa == match Translate(space, va) { case None => 0 case Some(m) => m.frame }
    {
      var p := PathOf(va);
      var pt := FindLeafTable(p);
      if pt == 0 {
        return 0;
      }
      WalkInTree(space, owner, p[..3]);
      var present := IsPresent(pt, p[3]);
      if !present {
        return 0;
      }
      pa := AddressAt(pt, p[3]);
    }

    /** The three non-creating steps of a walk. */
    method FindLeafTable(p: Path) returns (pt: nat)
      requires Valid() && IsPath(p) && OffHuge(space, p)
      ensures pt == match TableAt(space, p[..3]) { case None => 0 case Some(t) => t }
      ensures TableAt(space, p[..3]).Some? ==> pt != 0
    {
      assert p[..0] == [] && p[..1] == [] + [p[0]] && p[..2] == p[..1] + [p[1]] && p[..3] == p[..2] + [p[2]];
      var pdpt := GetNextLevel(pml4, p[0], []);
      if pdpt == 0 {
        NoneBelow(space, p, 1, 3);
        return 0;
      }
      var pd := GetNextLevel(pdpt, p[1], p[..1]);
      if pd == 0 {
        NoneBelow(space, p, 2, 3);
        return 0;
      }
      pt := GetNextLevel(pd, p[2], p[..2]);
    }

    /** The three creating steps of a mapping: afterwards the leaf table at the path exists. */
    method EnsureTables(p: Path) returns (pt: nat)
      requires Valid() && IsPath(p) && OffHuge(space, p) && Missing(space, p) <= |pmm.free|
      modifies this, pmm, pmm.bitmap
      ensures Valid() && pmm.memoryStart == old(pmm.memoryStart) && pmm.totalFrames == old(pmm.totalFrames)
      ensures pt != 0 && TableAt(space, p[..3]) == Some(pt)
      ensures Extends(old(space), space) && OnlyLeaf(old(space), space, p)
      ensures Takes(old(held), held, old(pmm.free), pmm.free)
      ensures |pmm.free| == |old(pmm.free)| - old(Missing(space, p))
    {
      assert p[..0] == [];
      var pdpt := Descend(p, pml4, 0);
      ghost var held1, free1 := held, pmm.free;
      pt := EnsureLowerTables(p, pdpt);
      TakesTwice(old(held), held1, held, old(pmm.free), free1, pmm.free);
    }

    method EnsureLowerTables(p: Path, pdpt: nat) returns (pt: nat)
      requires Valid() && IsPath(p) && TableAt(space, p[..1]) == Some(pdpt)
      requires OffHuge(space, p) && Missing(space, p) <= |pmm.free|
      modifies this, pmm, pmm.bitmap
      ensures Valid() && pmm.memoryStart == old(pmm.memoryStart) && pmm.totalFrames == old(pmm.totalFrames)
      ensures pt != 0 && TableAt(space, p[..3]) == Some(pt)
      ensures Extends(old(space), space) && OnlyLeaf(old(space), space, p)
      ensures Takes(old(held), held, old(pmm.free), pmm.free)
      ensures |pmm.free| == |old(pmm.free)| - old(Missing(space, p))
    {
      var pd := Descend(p, pdpt, 1);
      ghost var held2, free2 := held, pmm.free;
      pt := Descend(p, pd, 2);
      TakesTwice(old(held), held2, held, old(pmm.free), free2, pmm.free);
      NothingMissing(space, p);
    }
  }

  lemma GrowAdds(sp: Space, owner: map<nat, Path>, t: nat, i: nat, f: nat, v: Entry)
    requires CanGrow(sp, owner, t, i, f, v)
    ensures Added(sp, Grown(sp, t, i, f, v), owner[t] + [i], f)
  {
    var q := owner[t] + [i];
    forall p: Path | |p| <= 3 ensures TableAt(Grown(sp, t, i, f, v), p) == if p == q then Some(f) else TableAt(sp, p) {
      GrowWalks(sp, owner, t, i, f, v, p);
    }
    forall p: Path | |p| == 4 ensures Lookup(Grown(sp, t, i, f, v), p) == Lookup(sp, p) {
      GrowMapsNothing(sp, owner, t, i, f, v, p);
    }
    TableBelow(sp, owner[t], i);
    forall p: Path, j: nat | |p| < 3 && NoHugeAt(sp, p, j) ensures NoHugeAt(Grown(sp, t, i, f, v), p, j) {
      GrowNoHuge(sp, owner, t, i, f, v, p, j);
    }
  }

  lemma GrowNoHuge(sp: Space, owner: map<nat, Path>, t: nat, i: nat, f: nat, v: Entry, p: Path, j: nat)
    requires CanGrow(sp, owner, t, i, f, v) && |p| < 3 && NoHugeAt(sp, p, j)
    ensures NoHugeAt(Grown(sp, t, i, f, v), p, j)
  {
    GrowWalks(sp, owner, t, i, f, v, p);
    if p != owner[t] + [i] && TableAt(sp, p).Some? { WalkInTree(sp, owner, p); }
  }

  /** Every table reached before is reached the same way, and no walk meets a new huge entry. */
  ghost predicate KeepsWalks(sp: Space, sp': Space) {
    && (forall p: Path {:trigger TableAt(sp', p)} | |p| <= 3 && TableAt(sp, p).Some? ::
        TableAt(sp', p) == TableAt(sp, p))
    && (forall q: Path, i: nat {:trigger NoHugeAt(sp', q, i)} | |q| < 3 && NoHugeAt(sp, q, i) :: NoHugeAt(sp', q, i))
  }

  /** One table was linked at path `q`; nothing is mapped by that. */
  ghost predicate Added(sp: Space, sp': Space, q: Path, t: nat) {
    && KeepsWalks(sp, sp')
    && (forall p: Path {:trigger TableAt(sp', p)} | |p| <= 3 ::
        TableAt(sp', p) == if p == q then Some(t) else TableAt(sp, p))
    && (forall p: Path {:trigger Lookup(sp', p)} | |p| == 4 :: Lookup(sp', p) == Lookup(sp, p))
  }

  /** Tables were added and nothing else: every mapping of before is still there. */
  ghost predicate Extends(sp: Space, sp': Space) {
    && KeepsWalks(sp, sp')
    && (forall p: Path {:trigger Lookup(sp', p)} | |p| == 4 :: Lookup(sp', p) == Lookup(sp, p))
  }

  /** No leaf table appeared or moved, except perhaps the one for the page with path `p`. */
  ghost predicate OnlyLeaf(sp: Space, sp': Space, p: Path)
    requires |p| == 4
  {
    forall q: Path {:trigger TableAt(sp', q)} | |q| == 3 && q != p[..3] :: TableAt(sp', q) == TableAt(sp, q)
  }

  /** Frames moved from the free ones to those that hold tables, and nowhere else. */
  ghost predicate Takes(held: set<int>, held': set<int>, free: set<int>, free': set<int>) {
    held <= held' && held' - held <= free && free' == free - held'
  }

  lemma TakesTwice(a: set<int>, b: set<int>, c: set<int>, fa: set<int>, fb: set<int>, fc: set<int>)
    requires Takes(a, b, fa, fb) && Takes(b, c, fb, fc)
    ensures Takes(a, c, fa, fc)
  {
    assert forall i | i in c - a :: i in c - b || i in b - a;
  }

  lemma {:induction false} NoneBelow(sp: Space, p: Path, j: nat, k: nat)
    requires j <= k <= |p| && TableAt(sp, p[..j]).None?
    ensures TableAt(sp, p[..k]).None?
    decreases k
  {
    if j < k {
      NoneBelow(sp, p, j, k - 1);
      assert p[..k] == p[..k - 1] + [p[k - 1]];
      TableBelow(sp, p[..k - 1], p[k - 1]);
    }
  }

  lemma MissingWhenNone(sp: Space, p: Path, k: nat)
    requires |p| == 4 && k < 3 && TableAt(sp, p[..k]).Some?
    ensures TableAt(sp, p[..k + 1]).None? <==> Missing(sp, p) >= 3 - k
    ensures TableAt(sp, p[..k + 1]).None? ==> Missing(sp, p) == 3 - k
  {
    if k >= 1 && TableAt(sp, p[..1]).None? { NoneBelow(sp, p, 1, k); }
    if k >= 2 && TableAt(sp, p[..2]).None? { NoneBelow(sp, p, 2, k); }
  }

  lemma NothingMissing(sp: Space, p: Path)
    requires |p| == 4 && TableAt(sp, p[..3]).Some?
    ensures Missing(sp, p) == 0
  {
    if TableAt(sp, p[..1]).None? { NoneBelow(sp, p, 1, 3); }
    if TableAt(sp, p[..2]).None? { NoneBelow(sp, p, 2, 3); }
  }

  lemma AddedMissing(sp: Space, sp': Space, p: Path, k: nat, t: nat)
    requires |p| == 4 && k < 3 && TableAt(sp, p[..k]).Some?
    requires TableAt(sp, p[..k + 1]).None? && Added(sp, sp', p[..k + 1], t)
    ensures Missing(sp', p) == Missing(sp, p) - 1
    ensures Extends(sp, sp') && OnlyLeaf(sp, sp', p) && (OffHuge(sp, p) ==> OffHuge(sp', p))
  {
    MissingWhenNone(sp, p, k);
    NoneBelow(sp, p, k + 1, 3);
    if k == 0 { NoneBelow(sp, p, 1, 2); }
  }

  /** Rewriting the leaf entry of `va` changes the translation of its page alone. */
  lemma LeafTranslates(sp: Space, owner: map<nat, Path>, t: nat, va: nat, v: Entry)
    requires var p := PathOf(va); CanSetLeaf(sp, owner, t, p[3], v) && owner[t] == p[..3]
    ensures forall a: nat :: Translate(WithEntry(sp, t, PathOf(va)[3], v), a) ==
              if SamePage(a, va) then Decode(v) else Translate(sp, a)
  {
    var p := PathOf(va);
    assert p == p[..3] + [p[3]];
    forall a: nat
      ensures Translate(WithEntry(sp, t, p[3], v), a) == if SamePage(a, va) then Decode(v) else Translate(sp, a)
    {
      LeafSetsOne(sp, owner, t, p[3], v, PathOf(a));
      PathInjective(a, va);
    }
  }

  lemma LeafWalks(sp: Space, owner: map<nat, Path>, t: nat, i: nat, v: Entry)
    requires CanSetLeaf(sp, owner, t, i, v)
    ensures KeepsWalks(sp, WithEntry(sp, t, i, v))
    ensures forall p: Path | |p| <= 3 :: TableAt(WithEntry(sp, t, i, v), p) == TableAt(sp, p)
  {
    forall p: Path | |p| <= 3 ensures TableAt(WithEntry(sp, t, i, v), p) == TableAt(sp, p) {
      LeafKeepsWalks(sp, owner, t, i, v, p);
    }
    forall q: Path, j: nat | |q| < 3 && NoHugeAt(sp, q, j) ensures NoHugeAt(WithEntry(sp, t, i, v), q, j) {
      LeafKeepsWalks(sp, owner, t, i, v, q);
      if TableAt(sp, q).Some? { WalkInTree(sp, owner, q); }
    }
  }
}
