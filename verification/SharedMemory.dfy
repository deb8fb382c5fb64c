/**
  Shared-memory regions: each gets a 4 MB window of virtual addresses, backed page by page with frames, with
  a rollback when the frames run out part-way.

  `pages` says which page of the windows is backed by which frame. Over every operation the frames that are
  free, hold tables or back pages stay the same set.
*/
module SharedMemory {
  import opened Arithmetic
  import opened Frames
  import opened Options
  import opened PageEntry
  import opened Paging

  const MAX_SIZE := 0x40_0000              // 4 MB
  const WINDOW_PAGES := 1024
  const FIRST_PAGE: int := 0x7_0000_0000   // page number of 0x700000000000
  const MAX_ID := 0x40_0000                // windows beyond leave the lower half of the address space

  // ---------------------------------------------------------------- page numbers

  function PageAddress(n: nat): nat { n * P12 }

  function WindowPage(id: nat): nat
    requires id >= 1
  {
    FIRST_PAGE + (id - 1) * WINDOW_PAGES
  }

  ghost predicate InWindows(n: int) { FIRST_PAGE <= n < FIRST_PAGE + MAX_ID * WINDOW_PAGES }

  /** Windows of different ids do not overlap. */
  lemma WindowsDisjoint(id: nat, id': nat, j: nat, j': nat)
    requires 1 <= id && 1 <= id' && j < WINDOW_PAGES && j' < WINDOW_PAGES
    requires WindowPage(id) + j == WindowPage(id') + j'
    ensures id == id' && j == j'
  {}

  lemma SamePageNumber(n: nat, m: nat)
    requires n < P36 && m < P36
    ensures SamePage(PageAddress(n), PageAddress(m)) <==> n == m
  {}

  /** Pages under one leaf table: the same but for the last index. */
  lemma SharedLeafTable(n: nat, m: nat)
    requires n / 512 == m / 512
    ensures PathOf(PageAddress(n))[..3] == PathOf(PageAddress(m))[..3]
  {
    var a, b := PageAddress(n), PageAddress(m);
    assert a / P21 == n / 512 && b / P21 == m / 512;
    assert a / P30 == a / P21 / 512 && b / P30 == b / P21 / 512;
    assert a / P39 == a / P30 / 512 && b / P39 == b / P30 / 512;
  }

  lemma SharedDirectory(n: nat, m: nat)
    requires n / 512 / 512 == m / 512 / 512
    ensures PathOf(PageAddress(n))[..2] == PathOf(PageAddress(m))[..2]
  {
    var a, b := PageAddress(n), PageAddress(m);
    assert a / P30 == n / 512 / 512 && b / P30 == m / 512 / 512;
    assert a / P39 == a / P30 / 512 && b / P39 == b / P30 / 512;
  }

  // ---------------------------------------------------------------- pages and frames

  /** The frames in play: free ones, those that hold tables, and where the managed memory starts. */
  datatype Pool = Pool(start: nat, total: nat, free: set<int>, held: set<int>)

  /** Page `n` of the windows can be walked to, and is bound exactly as `pages` says. */
  ghost predicate BoundAs(sp: Space, start: nat, pages: map<int, int>, n: nat) {
    && OffHuge(sp, PathOf(PageAddress(n)))
    && Translate(sp, PageAddress(n)) ==
       if n in pages && pages[n] >= 0 then Some(Mapping(FrameAddress(start, pages[n]), true)) else None
  }

  /** The windows hold the pages in `pages` and no others, each in a frame of its own. */
  ghost predicate Backs(sp: Space, pool: Pool, pages: map<int, int>) {
    && (forall n | n in pages ::
          InWindows(n) && 0 <= pages[n] < pool.total && pages[n] !in pool.free && pages[n] !in pool.held)
    && (forall n, m {:trigger pages[n], pages[m]} | n in pages && m in pages && pages[n] == pages[m] :: n == m)
    && (forall n {:trigger BoundAs(sp, pool.start, pages, n)} | InWindows(n) :: BoundAs(sp, pool.start, pages, n))
  }

  ghost predicate Binds(sp: Space, sp': Space, n: nat, m: Mapping) {
    forall a: nat {:trigger Translate(sp', a)} :: Translate(sp', a) ==
      if SamePage(a, PageAddress(n)) && Translate(sp, PageAddress(n)).None? then Some(m) else Translate(sp, a)
  }

  lemma BindOne(sp: Space, sp': Space, start: nat, pages: map<int, int>, n: nat, i: int, m: nat)
    requires InWindows(n) && InWindows(m) && n !in pages && i >= 0
    requires BoundAs(sp, start, pages, n) && BoundAs(sp, start, pages, m)
    requires KeepsWalks(sp, sp') && Binds(sp, sp', n, Mapping(FrameAddress(start, i), true))
    ensures BoundAs(sp', start, pages[n := i], m)
  {
    SamePageNumber(m, n);
  }

  lemma BindAll(sp: Space, sp': Space, pool: Pool, pages: map<int, int>, n: nat, i: int)
    requires Backs(sp, pool, pages) && InWindows(n) && n !in pages && i >= 0
    requires KeepsWalks(sp, sp') && Binds(sp, sp', n, Mapping(FrameAddress(pool.start, i), true))
    ensures forall m {:trigger BoundAs(sp', pool.start, pages[n := i], m)} | InWindows(m) ::
              BoundAs(sp', pool.start, pages[n := i], m)
  {
    assert BoundAs(sp, pool.start, pages, n);
    forall m: nat | InWindows(m) ensures BoundAs(sp', pool.start, pages[n := i], m) {
      assert BoundAs(sp, pool.start, pages, m);
      BindOne(sp, sp', pool.start, pages, n, i, m);
    }
  }

  /** Backing one more page, with any tables that takes, keeps the windows right and loses no frame. */
  lemma BindPage(sp: Space, sp': Space, pool: Pool, pool': Pool, pages: map<int, int>, n: nat, i: int)
    requires Backs(sp, pool, pages) && InWindows(n) && n !in pages
    requires i in pool.free && 0 <= i < pool.total && i !in pool.held
    requires pool'.start == pool.start && pool'.total == pool.total
    requires Takes(pool.held, pool'.held, pool.free - {i}, pool'.free)
    requires KeepsWalks(sp, sp') && Binds(sp, sp', n, Mapping(FrameAddress(pool.start, i), true))
    ensures Backs(sp', pool', pages[n := i])
    ensures pool'.free + pool'.held + Used(pages[n := i]) == pool.free + pool.held + Used(pages)
  {
    BindAll(sp, sp', pool, pages, n, i);
    forall x | x in pool'.held ensures x in pool.held || x in pool.free - {i} {
      assert x in pool.held || x in pool'.held - pool.held;
    }
    assert i !in pool'.held && i !in pool'.free;
    AddValue(pages, n, i);
    Conserved(pool.held, pool'.held, pool.free, pool'.free, Used(pages), i);
  }

  lemma UnbindPage(sp: Space, sp': Space, pool: Pool, pages: map<int, int>, n: nat)
    requires Backs(sp, pool, pages) && n in pages && KeepsWalks(sp, sp')
    requires forall a: nat :: Translate(sp', a) == if SamePage(a, PageAddress(n)) then None else Translate(sp, a)
    ensures var pool' := pool.(free := pool.free + {pages[n]});
      && Backs(sp', pool', pages - {n})
      && pool'.free + pool'.held + Used(pages - {n}) == pool.free + pool.held + Used(pages)
  {
    forall m: nat | InWindows(m) ensures BoundAs(sp', pool.start, pages - {n}, m) {
      assert BoundAs(sp, pool.start, pages, m);
      SamePageNumber(m, n);
    }
    DropValue(pages, n);
  }

  ghost function Used(pages: map<int, int>): set<int> { set n | n in pages :: pages[n] }

  lemma AddValue(pages: map<int, int>, n: int, i: int)
    requires n !in pages
    ensures Used(pages[n := i]) == Used(pages) + {i}
  {
    var pages' := pages[n := i];
    assert pages'[n] == i;
    forall m | m in pages ensures pages[m] in Used(pages') { assert m in pages' && pages'[m] == pages[m]; }
  }

  lemma DropValue(pages: map<int, int>, n: int)
    requires n in pages && forall m | m in pages && pages[m] == pages[n] :: m == n
    ensures Used(pages - {n}) + {pages[n]} == Used(pages)
  {
    var pages' := pages - {n};
    forall m | m in pages && m != n ensures pages[m] in Used(pages') { assert m in pages' && pages'[m] == pages[m]; }
  }

  lemma Conserved(held: set<int>, held': set<int>, free: set<int>, free': set<int>, used: set<int>, i: int)
    requires i in free && Takes(held, held', free - {i}, free')
    ensures free' + held' + (used + {i}) == free + held + used
  {
    assert forall x | x in held' :: x in held || x in held' - held;
    assert forall x | x in free :: x == i || x in held' || x in free';
  }

  class Regions {
    const vm: VirtualMemory

    /** The backed pages of all windows, and the frame behind each. */
    ghost var pages: map<int, int>

    ghost function Pooled(): Pool
      reads vm, vm.pmm
    {
      Pool(vm.pmm.memoryStart, vm.pmm.totalFrames, vm.pmm.free, vm.held)
    }

    ghost predicate Backed()
      reads this`pages, vm, vm.pmm, vm.pmm.bitmap
    {
      vm.Valid() && Backs(vm.space, Pooled(), pages)
    }

    /** All frames the allocator, the tables and the windows have between them. */
    ghost function AllFrames(): set<int>
      reads this`pages, vm, vm.pmm
    {
      vm.pmm.free + vm.held + Used(pages)
    }

    constructor (vm: VirtualMemory)
      requires vm.Valid()
      requires forall n: nat {:trigger BoundAs(vm.space, vm.pmm.memoryStart, map[], n)} | InWindows(n) ::
                 BoundAs(vm.space, vm.pmm.memoryStart, map[], n)
      ensures this.vm == vm && pages == map[] && regions == [] && nextId == 1 && Valid()
    {
      this.vm := vm;
      pages := map[];
      regions, nextId := [], 1;
    }

    /** One page of a creation: a frame, then a mapping. Null when no frame is left. */
    method BackPage(n: nat) returns (ok: bool, ghost i: int)
      requires Backed() && InWindows(n) && n !in pages
      requires vm.pmm.free != {} ==> Missing(vm.space, PathOf(PageAddress(n))) < |vm.pmm.free|
      modifies this`pages, vm, vm.pmm, vm.pmm.bitmap
      ensures Backed() && AllFrames() == old(AllFrames()) && old(vm.held) <= vm.held
      ensures ok <==> old(vm.pmm.free) != {}
      ensures !ok ==> pages == old(pages) && vm.space == old(vm.space) && vm.pmm.free == old(vm.pmm.free)
      ensures ok ==> pages == old(pages)[n := i]
      ensures ok ==> KeepsWalks(old(vm.space), vm.space) && TableAt(vm.space, PathOf(PageAddress(n))[..3]).Some?
      ensures ok ==> OnlyLeaf(old(vm.space), vm.space, PathOf(PageAddress(n)))
      ensures ok ==> |vm.pmm.free| == |old(vm.pmm.free)| - 1 - old(Missing(vm.space, PathOf(PageAddress(n))))
    {
      ghost var before, pool, space := pages, Pooled(), vm.space;
      assert BoundAs(space, pool.start, pages, n);
      ok, i := AllocateAndMap(n);
      if ok {
        BindPage(space, vm.space, pool, Pooled(), before, n, i);
        pages := before[n := i];
      }
    }

    method AllocateAndMap(n: nat) returns (ok: bool, ghost i: int)
      requires vm.Valid() && OffHuge(vm.space, PathOf(PageAddress(n)))
      requires vm.pmm.free != {} ==> Missing(vm.space, PathOf(PageAddress(n))) < |vm.pmm.free|
      modifies vm, vm.pmm, vm.pmm.bitmap
      ensures vm.Valid() && vm.pmm.memoryStart == old(vm.pmm.memoryStart) &&
          vm.pmm.totalFrames == old(vm.pmm.totalFrames)
      ensures ok <==> old(vm.pmm.free) != {}
      ensures !ok ==> vm.space == old(vm.space) && vm.held == old(vm.held) && vm.pmm.free == old(vm.pmm.free)
      ensures ok ==> i in old(vm.pmm.free) && 0 <= i < vm.pmm.totalFrames
      ensures ok ==> Takes(old(vm.held), vm.held, old(vm.pmm.free) - {i}, vm.pmm.free)
      ensures ok ==> Binds(old(vm.space), vm.space, n, Mapping(FrameAddress(vm.pmm.memoryStart, i), true))
      ensures ok ==> KeepsWalks(old(vm.space), vm.space) && TableAt(vm.space, PathOf(PageAddress(n))[..3]).Some?
      ensures ok ==> OnlyLeaf(old(vm.space), vm.space, PathOf(PageAddress(n)))
      ensures ok ==> |vm.pmm.free| == |old(vm.pmm.free)| - 1 - old(Missing(vm.space, PathOf(PageAddress(n))))
    {
      var frame := vm.pmm.AllocateFrame();
      ok, i := frame != 0, 0;
      if ok {
        i :| IsLowest(i, old(vm.pmm.free)) && frame == vm.pmm.memoryStart + i * PAGE_SIZE &&
            vm.pmm.free == old(vm.pmm.free) - {i};
        AddressSurvives(frame);
        assert frame == FrameAddress(vm.pmm.memoryStart, i);
        vm.MapPage(PageAddress(n), frame, true);
      }
    }

    /** One page of a release: look the frame up, free it, unmap the page. */
    method ReleasePage(n: nat)
      requires Backed() && n in pages
      modifies this`pages, vm, vm.pmm, vm.pmm.bitmap
      ensures Backed() && AllFrames() == old(AllFrames()) && vm.held == old(vm.held)
      ensures pages == old(pages) - {n}
    {
      ghost var before, pool, space := pages, Pooled(), vm.space;
      assert BoundAs(space, pool.start, pages, n);
      FreeAndUnmap(n, pages[n]);
      UnbindPage(space, vm.space, pool, before, n);
      pages := before - {n};
    }

    method FreeAndUnmap(n: nat, ghost f: int)
      requires vm.Valid() && OffHuge(vm.space, PathOf(PageAddress(n)))
      requires 0 <= f < vm.pmm.totalFrames && f !in vm.held
      requires Translate(vm.space, PageAddress(n)) == Some(Mapping(FrameAddress(vm.pmm.memoryStart, f), true))
      modifies vm`space, vm`memory, vm.pmm`freeFrames, vm.pmm`free, vm.pmm.bitmap
      ensures vm.Valid() && vm.pmm.free == old(vm.pmm.free) + {f} && KeepsWalks(old(vm.space), vm.space)
      ensures forall a: nat ::
        Translate(vm.space, a) == if SamePage(a, PageAddress(n)) then None else old(Translate(vm.space, a))
    {
      FrameIndexOfAddress(vm.pmm.memoryStart, f);
      var frame := vm.GetPhysicalAddress(PageAddress(n));
      if frame != 0 {
        vm.pmm.FreeFrame(frame);
        vm.UnmapPage(PageAddress(n));
      }
    }

    // -------------------------------------------------------------- the region table

    var regions: seq<Region>
    var nextId: nat

    /** Ids grow along the table, every region is backed in full, and nothing else is backed. */
    ghost predicate Valid()
      reads this, vm, vm.pmm, vm.pmm.bitmap
    {
      Backed() && nextId >= 1 && RegionTable(regions, pages) && IdsBelow(regions, nextId)
    }

    /** Behind every page of every region the processor finds a writable frame that is used for nothing else; regions
        lie 4 MB apart by their ids, from 0x700000000000 on. */
    lemma RegionIsMapped(k: nat, j: nat)
      requires Valid() && k < |regions| && 4096 * j < regions[k].size
      ensures var va := 0x7000_0000_0000 + (regions[k].id - 1) * 0x40_0000 + 4096 * j;
        exists i :: 0 <= i < vm.pmm.totalFrames && i !in vm.pmm.free && i !in vm.held &&
          Walked(vm.memory, vm.pml4, va) == Some(Mapping(vm.pmm.memoryStart + 4096 * i, true))
    {
      var n := WindowPage(regions[k].id) + j;
      var va := 0x7000_0000_0000 + (regions[k].id - 1) * 0x40_0000 + 4096 * j;
      assert PageAddress(n) == va;
      assert regions[k].Covers(n);
      assert n in pages;
      assert BoundAs(vm.space, vm.pmm.memoryStart, pages, n);
      WalkIsTranslate(vm.memory, vm.space, vm.owner, va);
      assert Walked(vm.memory, vm.pml4, va) == Some(Mapping(vm.pmm.memoryStart + 4096 * pages[n], true));
    }

    method Tabulate(rs: seq<Region>)
      requires Backed() && nextId >= 1 && RegionTable(rs, pages) && IdsBelow(rs, nextId)
      modifies this`regions
      ensures Valid() && regions == rs
    {
      regions := rs;
    }

    /** Back the pages `base` to `base + count`; when frames run out, undo what was done. */
    method BackAll(base: nat, count: nat) returns (ok: bool, ghost fs: seq<int>)
      requires Backed() && base % WINDOW_PAGES == 0 && count <= WINDOW_PAGES
      requires forall n | base <= n < base + count :: InWindows(n) && n !in pages
      requires TablesSuffice(vm.space, base, count, |vm.pmm.free|)
      modifies this`pages, vm, vm.pmm, vm.pmm.bitmap
      ensures Backed() && AllFrames() == old(AllFrames()) && old(vm.held) <= vm.held
      ensures !ok ==> pages == old(pages)
      ensures ok ==> |fs| == count && pages == AddRange(old(pages), base, fs)
      ensures count > 0 ==> (ok <==> |old(vm.pmm.free)| >= old(FramesNeeded(vm.space, base, count)))
    {
      ghost var pages0, space0, free0 := pages, vm.space, |vm.pmm.free|;
      ProgressStart(vm.space, base, free0);
      var i := 0;
      fs, ok := [], true;
      while ok && i < count
        invariant |fs| == i <= count && Backed() && AllFrames() == old(AllFrames()) && old(vm.held) <= vm.held
        invariant !ok ==> pages == pages0 && free0 < FramesNeeded(space0, base, count) && i < count
        invariant ok ==> pages == AddRange(pages0, base, fs)
        invariant ok ==> Progress(space0, vm.space, base, i, free0, |vm.pmm.free|)
        decreases if ok then count - i else -1
      {
        var n := base + i;
        assert InWindows(n) && n !in pages by {
          assert n !in pages0;
          AddRangeKeys(pages0, base, fs);
        }
        ghost var frame;
        ok, frame := BackNext(base, count, i, n, space0, free0);
        if ok {
          AddRangeNext(pages0, base, fs, n, frame);
          fs := fs + [frame];
          i := i + 1;
        } else {
          Undo(base, i, pages0, fs);
        }
      }
    }

    /** The rollback. */
    method Undo(base: nat, count: nat, ghost before: map<int, int>, ghost fs: seq<int>)
      requires Backed() && |fs| == count && pages == AddRange(before, base, fs)
      requires forall n | base <= n < base + count :: n !in before
      modifies this`pages, vm, vm.pmm, vm.pmm.bitmap
      ensures Backed() && AllFrames() == old(AllFrames()) && vm.held == old(vm.held) && pages == before
    {
      AddRangeKeys(before, base, fs);
      AddRangeWithout(before, base, fs);
      ReleaseAll(base, count);
    }

    /** Page `i` of a range that was started with `free0` free frames. */
    method BackNext(base: nat, count: nat, i: nat, n: nat, ghost space0: Space, ghost free0: nat)
      returns (ok: bool, ghost frame: int)
      requires Backed() && InWindows(n) && n !in pages && base % WINDOW_PAGES == 0 && i < count <= WINDOW_PAGES &&
          n == base + i
      requires TablesSuffice(space0, base, count, free0) && Progress(space0, vm.space, base, i, free0, |vm.pmm.free|)
      modifies this`pages, vm, vm.pmm, vm.pmm.bitmap
      ensures Backed() && AllFrames() == old(AllFrames()) && old(vm.held) <= vm.held
      ensures !ok ==> pages == old(pages) && free0 < FramesNeeded(space0, base, count)
      ensures ok ==> pages == old(pages)[n := frame]
      ensures ok ==> Progress(space0, vm.space, base, i + 1, free0, |vm.pmm.free|)
    {
      ProgressReady(space0, vm.space, base, count, i, n, free0, |vm.pmm.free|);
      ghost var space1, free1 := vm.space, |vm.pmm.free|;
      ok, frame := BackPage(n);
      ProgressStep(space0, space1, vm.space, base, i, n, free0, free1, |vm.pmm.free|);
    }

    /** The releasing loop of a destruction and of a rollback. */
    method ReleaseAll(base: nat, count: nat)
      requires Backed() && forall n | base <= n < base + count :: n in pages
      modifies this`pages, vm, vm.pmm, vm.pmm.bitmap
      ensures Backed() && AllFrames() == old(AllFrames()) && vm.held == old(vm.held)
      ensures pages == Without(old(pages), base, count)
    {
      ghost var pages0 := pages;
      WithoutNone(pages, base);
      var j := 0;
      while j < count
        invariant j <= count && Backed() && AllFrames() == old(AllFrames()) && vm.held == old(vm.held)
        invariant pages == Without(pages0, base, j)
      {
        assert base + j in pages0;
        WithoutDrop(pages0, base, j);
        ReleasePage(base + j);
        j := j + 1;
      }
    }

    /**
      A new region of whole pages in the window of a new id, or -1. A creation that runs out of data frames
      part-way leaves no page backed and costs no frame but those of the tables it built.
    */
    method CreateSharedMemory(creator: int, size: nat) returns (id: int)
      requires Valid() && nextId <= MAX_ID
      requires 0 < size <= MAX_SIZE ==>
                 TablesSuffice(vm.space, WindowPage(nextId), (size + (PAGE_SIZE - 1)) / PAGE_SIZE, |vm.pmm.free|)
      modifies this, vm, vm.pmm, vm.pmm.bitmap
      ensures Valid() && AllFrames() == old(AllFrames()) && old(vm.held) <= vm.held
      ensures id == -1 || id == old(nextId)
      ensures id == -1 ==> pages == old(pages) && regions == old(regions) && vm.pmm.free == old(vm.pmm.free) - vm.held
      ensures nextId == if 0 < size <= MAX_SIZE then old(nextId) + 1 else old(nextId)
      ensures 0 < size <= MAX_SIZE ==>
        (id != -1 <==>
         |old(vm.pmm.free)| >= old(FramesNeeded(vm.space, WindowPage(nextId), (size + (PAGE_SIZE - 1)) / PAGE_SIZE)))
      ensures id != -1 ==> 0 < size <= MAX_SIZE && |regions| == |old(regions)| + 1
      ensures id != -1 ==>
        var r := regions[|old(regions)|];
        && regions == old(regions) + [r] && r.id == id && r.creator == creator
        && size <= r.size < size + PAGE_SIZE && r.size % PAGE_SIZE == 0
        && Without(pages, WindowPage(r.id), r.Pages()) == old(pages)
    {
      if size == 0 || size > MAX_SIZE {
        assert vm.pmm.free == vm.pmm.free - vm.held;
        return -1;
      }
      var count := (size + (PAGE_SIZE - 1)) / PAGE_SIZE;
      RoundedSize(size, count);
      id := CreateRegion(creator, count);
    }

    /** The same for a number of pages. */
    method CreateRegion(creator: int, count: nat) returns (id: int)
      requires Valid() && nextId <= MAX_ID && 0 < count <= WINDOW_PAGES
      requires Region(nextId, creator, count * PAGE_SIZE).Pages() == count
      requires TablesSuffice(vm.space, WindowPage(nextId), count, |vm.pmm.free|)
      modifies this, vm, vm.pmm, vm.pmm.bitmap
      ensures Valid() && AllFrames() == old(AllFrames()) && old(vm.held) <= vm.held && nextId == old(nextId) + 1
      ensures id == -1 || id == old(nextId)
      ensures id != -1 <==> |old(vm.pmm.free)| >= old(FramesNeeded(vm.space, WindowPage(nextId), count))
      ensures id == -1 ==> pages == old(pages) && regions == old(regions) && vm.pmm.free == old(vm.pmm.free) - vm.held
      ensures id != -1 ==>
        && regions == old(regions) + [Region(id, creator, count * PAGE_SIZE)]
        && Without(pages, WindowPage(id), count) == old(pages)
    {
      var r := Region(nextId, creator, count * PAGE_SIZE);
      var ok := BackRegion(r, count);
      Register(r, ok);
      id := if ok then r.id else -1;
    }

    /** The id is used up in either case. */
    method Register(r: Region, ok: bool)
      requires Backed() && 1 <= r.id == nextId && IdsBelow(regions, nextId)
      requires RegionTable(if ok then regions + [r] else regions, pages)
      modifies this`regions, this`nextId
      ensures Valid() && nextId == old(nextId) + 1 && regions == if ok then old(regions) + [r] else old(regions)
    {
      nextId := nextId + 1;
      if ok { regions := regions + [r]; }
    }

    method BackRegion(r: Region, count: nat) returns (ok: bool)
      requires Backed() && RegionTable(regions, pages) && 1 <= r.id <= MAX_ID && 0 < r.Pages() == count <= WINDOW_PAGES
      requires forall k | 0 <= k < |regions| :: regions[k].id < r.id
      requires TablesSuffice(vm.space, WindowPage(r.id), count, |vm.pmm.free|)
      modifies this`pages, vm, vm.pmm, vm.pmm.bitmap
      ensures Backed() && AllFrames() == old(AllFrames()) && old(vm.held) <= vm.held
      ensures !ok ==> pages == old(pages) && vm.pmm.free == old(vm.pmm.free) - vm.held
      ensures ok ==> RegionTable(regions + [r], pages) && Without(pages, WindowPage(r.id), count) == old(pages)
      ensures ok <==> |old(vm.pmm.free)| >= old(FramesNeeded(vm.space, WindowPage(r.id), count))
    {
      ghost var pages0 := pages;
      var base := WindowPage(r.id);
      FreshWindow(regions, pages, r);
      ghost var fs;
      ok, fs := BackAll(base, count);
      if ok {
        AddRangeKeys(pages0, base, fs);
        AddRangeWithout(pages0, base, fs);
        TableGrows(regions, pages0, pages, r);
      } else {
        FreeAfter(old(vm.pmm.free), vm.pmm.free, old(vm.held), vm.held, Used(pages));
      }
    }

    /** Release the pages of region `k` and shift the rest of the table down. */
    method DropRegion(k: nat)
      requires Valid() && k < |regions|
      modifies this`pages, this`regions, vm, vm.pmm, vm.pmm.bitmap
      ensures Valid() && AllFrames() == old(AllFrames()) && vm.held == old(vm.held)
      ensures Dropped(old(regions), k, old(regions)[k].id, regions, old(pages), pages)
    {
      var r := regions[k];
      var rest := regions[..k] + regions[k + 1..];
      RegionIsBacked(regions, pages, k, r);
      ReleaseAll(WindowPage(r.id), r.Pages());
      TableShrinks(regions, old(pages), pages, k, rest, nextId);
      Tabulate(rest);
    }

    /** Give back every frame of a region and leave its pages unbacked. */
    method DestroySharedMemory(id: int) returns (ok: bool)
      requires Valid()
      modifies this, vm, vm.pmm, vm.pmm.bitmap
      ensures Valid() && AllFrames() == old(AllFrames()) && vm.held == old(vm.held) && nextId == old(nextId)
      ensures ok <==> exists k :: 0 <= k < |old(regions)| && old(regions)[k].id == id
      ensures !ok ==> regions == old(regions) && pages == old(pages) && vm.pmm.free == old(vm.pmm.free)
      ensures ok ==> exists k :: 0 <= k < |old(regions)| && Dropped(old(regions), k, id, regions, old(pages), pages)
    {
      var k := 0;
      while k < |regions|
        invariant 0 <= k <= |regions| && forall l | 0 <= l < k :: regions[l].id != id
      {
        if regions[k].id == id {
          DropRegion(k);
          return true;
        }
        k := k + 1;
      }
      ok := false;
    }
  }

  ghost function Without(pages: map<int, int>, base: int, count: int): map<int, int> {
    map n | n in pages && !(base <= n < base + count) :: pages[n]
  }

  lemma WithoutNone(pages: map<int, int>, base: int)
    ensures Without(pages, base, 0) == pages
  {}

  /** The pages of `before` and, from `base` on, one for each frame in `fs`. */
  ghost function AddRange(before: map<int, int>, base: int, fs: seq<int>): map<int, int> {
    if fs == [] then before
    else AddRange(before, base, fs[..|fs| - 1])[base + |fs| - 1 := fs[|fs| - 1]]
  }

  lemma AddRangeNext(before: map<int, int>, base: int, fs: seq<int>, n: int, f: int)
    requires n == base + |fs|
    ensures AddRange(before, base, fs + [f]) == AddRange(before, base, fs)[n := f]
  {
    assert (fs + [f])[..|fs|] == fs;
  }

  lemma {:induction false} AddRangeKeys(before: map<int, int>, base: int, fs: seq<int>)
    ensures forall n :: n in AddRange(before, base, fs) <==> n in before || base <= n < base + |fs|
    ensures forall n | n in before && !(base <= n < base + |fs|) :: AddRange(before, base, fs)[n] == before[n]
  {
    if fs != [] { AddRangeKeys(before, base, fs[..|fs| - 1]); }
  }

  /** Taking the range out again leaves what was there. */
  lemma AddRangeWithout(before: map<int, int>, base: int, fs: seq<int>)
    requires forall n | base <= n < base + |fs| :: n !in before
    ensures Without(AddRange(before, base, fs), base, |fs|) == before
  {
    AddRangeKeys(before, base, fs);
  }

  lemma WithoutDrop(pages: map<int, int>, base: int, j: int)
    requires j >= 0 && base + j in pages
    ensures base + j in Without(pages, base, j)
    ensures Without(pages, base, j) - {base + j} == Without(pages, base, j + 1)
  {}

  // ---------------------------------------------------------------- tables along a window

  function FirstPath(base: nat): Path { PathOf(PageAddress(base)) }

  function SecondPath(base: nat): Path { PathOf(PageAddress(base + 512)) }

  /** Whether the leaf table for the page with this path is missing. */
  ghost function LeafMissing(sp: Space, p: Path): nat
    requires |p| == 4
  {
    if TableAt(sp, p[..3]).None? then 1 else 0
  }

  /** The frames that backing `count` pages takes: one for each page, and one for each table missing on the way
      to the first page or, past 512 pages, to the second half. */
  ghost function FramesNeeded(sp: Space, base: nat, count: nat): nat {
    FramesOn(sp, FirstPath(base), SecondPath(base), count)
  }

  ghost function FramesOn(sp: Space, p0: Path, p1: Path, count: nat): nat
    requires |p0| == 4 && |p1| == 4
  {
    count + Missing(sp, p0) + if count > 512 then LeafMissing(sp, p1) else 0
  }

  /** Where backing a window stands after `i` pages: `f` frames are left of `f0`. */
  ghost predicate Progress(sp0: Space, sp: Space, base: nat, i: nat, f0: int, f: int) {
    ProgressOn(sp0, sp, FirstPath(base), SecondPath(base), i, f0, f)
  }

  ghost predicate ProgressOn(sp0: Space, sp: Space, p0: Path, p1: Path, i: nat, f0: int, f: int)
    requires |p0| == 4 && |p1| == 4
  {
    && KeepsWalks(sp0, sp)
    && (if i == 0 then sp == sp0 && f == f0 else TableAt(sp, p0[..3]).Some? && f == f0 - FramesOn(sp0, p0, p1, i))
    && (if i <= 512 then LeafMissing(sp, p1) == LeafMissing(sp0, p1) else TableAt(sp, p1[..3]).Some?)
  }

  /** The paths along a window: two leaf tables under one directory. */
  lemma WindowPaths(base: nat, i: nat, n: nat)
    requires base % WINDOW_PAGES == 0 && i < WINDOW_PAGES && n == base + i
    ensures var p0, p1, p := FirstPath(base), SecondPath(base), PathOf(PageAddress(n));
      && p[..3] == (if i < 512 then p0 else p1)[..3] && (i == 0 ==> p == p0) && (i == 512 ==> p == p1)
      && p0[..2] == p1[..2] && p0[..3] != p1[..3]
  {
    WindowLayout(base, i);
    if i < 512 { SharedLeafTable(n, base); } else { SharedLeafTable(n, base + 512); }
    SharedDirectory(base, base + 512);
    LeafIndex(base);
    LeafIndex(base + 512);
    assert FirstPath(base)[..3][2] != SecondPath(base)[..3][2];
  }

  lemma LeafIndex(n: nat)
    ensures PathOf(PageAddress(n))[2] == n / 512 % 512
  {
    assert PageAddress(n) / P21 == n / 512;
  }

  /** How many tables the next page misses. */
  lemma MissingNext(sp: Space, p0: Path, p1: Path, p: Path, i: nat)
    requires |p0| == 4 && |p1| == 4 && |p| == 4
    requires p[..3] == (if i < 512 then p0 else p1)[..3] && (i == 0 ==> p == p0) && p0[..2] == p1[..2]
    requires (i > 0 ==> TableAt(sp, p0[..3]).Some?) && (i > 512 ==> TableAt(sp, p1[..3]).Some?)
    ensures Missing(sp, p) == if i == 0 then Missing(sp, p0) else if i == 512 then LeafMissing(sp, p1) else 0
  {
    if i == 512 {
      assert p[..2] == p[..3][..2] == p1[..3][..2] == p0[..2];
      OneMissing(sp, p, p0);
    } else if i > 0 {
      NothingMissing(sp, p);
    }
  }

  lemma ProgressStart(sp: Space, base: nat, f: int)
    ensures Progress(sp, sp, base, 0, f, f)
  {}

  lemma ProgressReady(sp0: Space, sp: Space, base: nat, count: nat, i: nat, n: nat, f0: int, f: int)
    requires base % WINDOW_PAGES == 0 && i < count <= WINDOW_PAGES && n == base + i && f >= 0
    requires Progress(sp0, sp, base, i, f0, f) && TablesSuffice(sp0, base, count, f0)
    ensures f > 0 ==> Missing(sp, PathOf(PageAddress(n))) < f
  {
    WindowPaths(base, i, n);
    MissingNext(sp, FirstPath(base), SecondPath(base), PathOf(PageAddress(n)), i);
  }

  lemma ProgressOnStep(sp0: Space, sp: Space, sp': Space, p0: Path, p1: Path, p: Path, i: nat, f0: int, f: int, f': int)
    requires |p0| == 4 && |p1| == 4 && |p| == 4 && p0[..3] != p1[..3] && p[..3] == (if i < 512 then p0 else p1)[..3]
    requires ProgressOn(sp0, sp, p0, p1, i, f0, f) && KeepsWalks(sp, sp') && OnlyLeaf(sp, sp', p) &&
        TableAt(sp', p[..3]).Some?
    requires f' == f - 1 - if i == 0 then Missing(sp, p0) else if i == 512 then LeafMissing(sp, p1) else 0
    ensures ProgressOn(sp0, sp', p0, p1, i + 1, f0, f')
  {
    KeepsWalksTwice(sp0, sp, sp');
    assert TableAt(sp', p0[..3]).Some?;
    assert i < 512 ==> TableAt(sp', p1[..3]) == TableAt(sp, p1[..3]);
  }

  lemma ProgressStep(sp0: Space, sp: Space, sp': Space, base: nat, i: nat, n: nat, f0: int, f: int, f': int)
    requires base % WINDOW_PAGES == 0 && i < WINDOW_PAGES && n == base + i && Progress(sp0, sp, base, i, f0, f)
    ensures
      && KeepsWalks(sp, sp') && TableAt(sp', PathOf(PageAddress(n))[..3]).Some?
      && OnlyLeaf(sp, sp', PathOf(PageAddress(n)))
      && f' == f - 1 - Missing(sp, PathOf(PageAddress(n)))
      ==> Progress(sp0, sp', base, i + 1, f0, f')
  {
    var p := PathOf(PageAddress(n));
    WindowPaths(base, i, n);
    MissingNext(sp, FirstPath(base), SecondPath(base), p, i);
    if KeepsWalks(sp, sp') && TableAt(sp', p[..3]).Some? && OnlyLeaf(sp, sp', p) && f' == f - 1 - Missing(sp, p) {
      ProgressOnStep(sp0, sp, sp', FirstPath(base), SecondPath(base), p, i, f0, f, f');
    }
  }

  // ---------------------------------------------------------------- regions

  datatype Region = Region(id: nat, creator: int, size: nat) {
    function Pages(): nat { (size + (PAGE_SIZE - 1)) / PAGE_SIZE }

    ghost predicate Covers(n: int) { id >= 1 && WindowPage(id) <= n < WindowPage(id) + Pages() }
  }

  ghost predicate IdsGrow(regions: seq<Region>) {
    forall k, l | 0 <= k < l < |regions| :: regions[k].id < regions[l].id
  }

  ghost predicate Sized(regions: seq<Region>) {
    forall k | 0 <= k < |regions| :: 1 <= regions[k].id && 0 < regions[k].Pages() <= WINDOW_PAGES
  }

  ghost predicate BackedInFull(regions: seq<Region>, pages: map<int, int>) {
    forall k, n {:trigger regions[k].Covers(n)} | 0 <= k < |regions| && regions[k].Covers(n) :: n in pages
  }

  ghost predicate Owned(regions: seq<Region>, n: int) { exists k :: 0 <= k < |regions| && regions[k].Covers(n) }

  /** Ids grow along the table, every region is backed in full, and nothing else is backed. */
  ghost predicate RegionTable(regions: seq<Region>, pages: map<int, int>) {
    Sized(regions) && IdsGrow(regions) && BackedInFull(regions, pages) && forall n | n in pages :: Owned(regions, n)
  }

  /** Region `k`, with this id, is gone from the table, and its pages with it. */
  ghost predicate Dropped(regions: seq<Region>, k: nat, id: int, regions': seq<Region>, pages: map<int, int>,
      pages': map<int, int>)
    requires k < |regions|
  {
    var r := regions[k];
    && r.id == id && r.id >= 1 && regions' == regions[..k] + regions[k + 1..]
    && pages' == Without(pages, WindowPage(r.id), r.Pages())
  }

  lemma FreshWindow(regions: seq<Region>, pages: map<int, int>, r: Region)
    requires RegionTable(regions, pages) && 1 <= r.id <= MAX_ID && r.Pages() <= WINDOW_PAGES
    requires forall k | 0 <= k < |regions| :: regions[k].id < r.id
    ensures forall n | WindowPage(r.id) <= n < WindowPage(r.id) + r.Pages() :: InWindows(n) && n !in pages
    ensures WindowPage(r.id) % WINDOW_PAGES == 0
  {
    forall n | n in pages ensures n < WindowPage(r.id) {
      assert Owned(regions, n);
      var k :| 0 <= k < |regions| && regions[k].Covers(n);
      assert (regions[k].id - 1) * WINDOW_PAGES + WINDOW_PAGES <= (r.id - 1) * WINDOW_PAGES;
    }
  }

  lemma TableGrows(regions: seq<Region>, before: map<int, int>, pages: map<int, int>, r: Region)
    requires RegionTable(regions, before) && 1 <= r.id && 0 < r.Pages() <= WINDOW_PAGES
    requires forall k | 0 <= k < |regions| :: regions[k].id < r.id
    requires forall n :: n in pages <==> n in before || r.Covers(n)
    ensures RegionTable(regions + [r], pages)
  {
    var all := regions + [r];
    assert all[|regions|] == r;
    forall k, n | 0 <= k < |all| && all[k].Covers(n) ensures n in pages {
      if k < |regions| { assert regions[k].Covers(n); }
    }
    forall n | n in pages ensures Owned(all, n) {
      if n in before {
        assert Owned(regions, n);
        var k :| 0 <= k < |regions| && regions[k].Covers(n);
        assert all[k].Covers(n);
      } else {
        assert all[|regions|].Covers(n);
      }
    }
  }

  lemma RegionIsBacked(regions: seq<Region>, pages: map<int, int>, k: nat, r: Region)
    requires RegionTable(regions, pages) && k < |regions| && r == regions[k]
    ensures r.id >= 1 && forall n | WindowPage(r.id) <= n < WindowPage(r.id) + r.Pages() :: n in pages
  {
    forall n | WindowPage(r.id) <= n < WindowPage(r.id) + r.Pages() ensures n in pages { assert regions[k].Covers(n); }
  }

  ghost predicate IdsBelow(regions: seq<Region>, bound: nat) { forall k | 0 <= k < |regions| :: regions[k].id < bound }

  lemma RestOfTable(regions: seq<Region>, k: nat, rest: seq<Region>, bound: nat)
    requires k < |regions| && rest == regions[..k] + regions[k + 1..] && IdsBelow(regions, bound)
    requires Sized(regions) && IdsGrow(regions)
    ensures forall l | 0 <= l < |rest| :: rest[l] == regions[Past(k, l)]
    ensures IdsBelow(rest, bound) && Sized(rest) && IdsGrow(rest)
  {}

  lemma RestIsBacked(regions: seq<Region>, before: map<int, int>, pages: map<int, int>, k: nat, rest: seq<Region>)
    requires RegionTable(regions, before) && k < |regions| && rest == regions[..k] + regions[k + 1..]
    requires pages == Without(before, WindowPage(regions[k].id), regions[k].Pages())
    ensures BackedInFull(rest, pages)
  {
    forall l, n | 0 <= l < |rest| && rest[l].Covers(n) ensures n in pages {
      assert rest[l] == regions[Past(k, l)];
      ShrinkKeeps(regions, before, pages, k, Past(k, l), n);
    }
  }

  lemma RestOwns(regions: seq<Region>, before: map<int, int>, pages: map<int, int>, k: nat, rest: seq<Region>, n: int)
    requires RegionTable(regions, before) && k < |regions| && rest == regions[..k] + regions[k + 1..] && n in pages
    requires pages == Without(before, WindowPage(regions[k].id), regions[k].Pages())
    ensures Owned(rest, n)
  {
    var m := ShrinkOwner(regions, before, pages, k, n);
    assert rest[if m < k then m else m - 1].Covers(n);
  }

  lemma TableShrinks(regions: seq<Region>, before: map<int, int>, pages: map<int, int>, k: nat, rest: seq<Region>,
      bound: nat)
    requires RegionTable(regions, before) && k < |regions| && IdsBelow(regions, bound)
    requires pages == Without(before, WindowPage(regions[k].id), regions[k].Pages())
    requires rest == regions[..k] + regions[k + 1..]
    ensures RegionTable(rest, pages) && IdsBelow(rest, bound)
  {
    RestOfTable(regions, k, rest, bound);
    RestIsBacked(regions, before, pages, k, rest);
    forall n | n in pages ensures Owned(rest, n) { RestOwns(regions, before, pages, k, rest, n); }
  }

  function Past(k: nat, l: nat): nat { if l < k then l else l + 1 }

  lemma ShrinkKeeps(regions: seq<Region>, before: map<int, int>, pages: map<int, int>, k: nat, m: nat, n: int)
    requires RegionTable(regions, before) && k < |regions| && m < |regions| && m != k && regions[m].Covers(n)
    requires pages == Without(before, WindowPage(regions[k].id), regions[k].Pages())
    ensures n in pages
  {
    OneOwner(regions, before, k, m, n);
  }

  lemma ShrinkOwner(regions: seq<Region>, before: map<int, int>, pages: map<int, int>, k: nat, n: int) returns (m: nat)
    requires RegionTable(regions, before) && k < |regions| && n in pages
    requires pages == Without(before, WindowPage(regions[k].id), regions[k].Pages())
    ensures m < |regions| && m != k && regions[m].Covers(n)
  {
    assert Owned(regions, n);
    m :| 0 <= m < |regions| && regions[m].Covers(n);
  }

  /** No page belongs to two regions. */
  lemma OneOwner(regions: seq<Region>, pages: map<int, int>, k: nat, m: nat, n: int)
    requires RegionTable(regions, pages) && k < |regions| && m < |regions| && k != m && regions[m].Covers(n)
    ensures !regions[k].Covers(n)
  {
    var a, b := regions[k].id, regions[m].id;
    assert a < b || b < a;
    assert a < b ==> (a - 1) * WINDOW_PAGES + WINDOW_PAGES <= (b - 1) * WINDOW_PAGES;
    assert b < a ==> (b - 1) * WINDOW_PAGES + WINDOW_PAGES <= (a - 1) * WINDOW_PAGES;
  }

  lemma RoundedSize(size: nat, count: nat)
    requires 0 < size <= MAX_SIZE && count == (size + (PAGE_SIZE - 1)) / PAGE_SIZE
    ensures 0 < count <= WINDOW_PAGES && size <= count * PAGE_SIZE < size + PAGE_SIZE
    ensures (count * PAGE_SIZE + (PAGE_SIZE - 1)) / PAGE_SIZE == count && count * PAGE_SIZE % PAGE_SIZE == 0
  {}

  /** When the backed pages are unchanged, the only frames gone are those that now hold tables. */
  lemma FreeAfter(free: set<int>, free': set<int>, held: set<int>, held': set<int>, used: set<int>)
    requires free' + held' + used == free + held + used && held <= held'
    requires free !! used && free' !! used && free' !! held' && free !! held && held' !! used
    ensures free' == free - held'
  {
    assert forall x | x in free' :: x in free + held + used;
    assert forall x | x in free :: x in free' + held' + used;
  }

  /** The frames suffice for the tables the window needs: those on the way to its first page, and one more at
      its 512th. Data frames may still run out anywhere. */
  ghost predicate TablesSuffice(sp: Space, base: nat, count: nat, free: int) {
    var first := Missing(sp, FirstPath(base));
    && (free > 0 ==> free > first)
    && (count > 512 && free - first > 512 ==> free - first - 512 > LeafMissing(sp, SecondPath(base)))
  }

  lemma KeepsWalksTwice(a: Space, b: Space, c: Space)
    requires KeepsWalks(a, b) && KeepsWalks(b, c)
    ensures KeepsWalks(a, c)
  {}

  lemma WindowLayout(base: nat, i: nat)
    requires base % WINDOW_PAGES == 0 && i < WINDOW_PAGES
    ensures (base + i) / 512 == if i < 512 then base / 512 else (base + 512) / 512
    ensures (base + 512) / 512 / 512 == base / 512 / 512
  {
    var k := base / WINDOW_PAGES;
    var a, b := k / 256, k % 256;
    Quotient(base, 512, 2 * k, 0);
    Quotient(base + 512, 512, 2 * k + 1, 0);
    Quotient(base + i, 512, if i < 512 then 2 * k else 2 * k + 1, if i < 512 then i else i - 512);
    Quotient(2 * k, 512, a, 2 * b);
    Quotient(2 * k + 1, 512, a, 2 * b + 1);
  }

  lemma OneMissing(sp: Space, p: Path, q: Path)
    requires |p| == 4 && |q| == 4 && p[..2] == q[..2] && TableAt(sp, q[..3]).Some?
    ensures Missing(sp, p) == if TableAt(sp, p[..3]).None? then 1 else 0
  {
    if TableAt(sp, q[..2]).None? { NoneBelow(sp, q, 2, 3); }
    if TableAt(sp, p[..1]).None? { NoneBelow(sp, p, 1, 2); }
  }

  /** A creation followed by a destruction: no page stays backed, and the only frames gone are those of tables
      built on the way. The same holds when the creation fails. */
  method CreateThenDestroy(rs: Regions, creator: int, size: nat)
    requires rs.Valid() && rs.nextId <= MAX_ID
    requires 0 < size <= MAX_SIZE ==>
               TablesSuffice(rs.vm.space, WindowPage(rs.nextId), (size + (PAGE_SIZE - 1)) / PAGE_SIZE, |rs.vm.pmm.free|)
    modifies rs, rs.vm, rs.vm.pmm, rs.vm.pmm.bitmap
    ensures rs.Valid() && rs.regions == old(rs.regions) && rs.pages == old(rs.pages)
    ensures old(rs.vm.held) <= rs.vm.held && rs.vm.pmm.free == old(rs.vm.pmm.free) - rs.vm.held
  {
    var id := rs.CreateSharedMemory(creator, size);
    if id != -1 {
      ghost var regions1, pages1 := rs.regions, rs.pages;
      assert regions1[|old(rs.regions)|].id == id;
      var ok := rs.DestroySharedMemory(id);
      OnlyLast(old(rs.regions), regions1, rs.regions, old(rs.pages), pages1, rs.pages, id);
      FreeAfter(old(rs.vm.pmm.free), rs.vm.pmm.free, old(rs.vm.held), rs.vm.held, Used(rs.pages));
    }
  }

  lemma OnlyLast(regions: seq<Region>, regions1: seq<Region>, regions2: seq<Region>,
                 pages: map<int, int>, pages1: map<int, int>, pages2: map<int, int>, id: int)
    requires RegionTable(regions1, pages1) && |regions1| == |regions| + 1 && regions1[..|regions|] == regions
    requires regions1[|regions|].id == id
    requires exists k :: 0 <= k < |regions1| && Dropped(regions1, k, id, regions2, pages1, pages2)
    requires Without(pages1, WindowPage(regions1[|regions|].id), regions1[|regions|].Pages()) == pages
    ensures regions2 == regions && pages2 == pages
  {
    var k :| 0 <= k < |regions1| && Dropped(regions1, k, id, regions2, pages1, pages2);
    assert k == |regions|;
  }

  // ---------------------------------------------------------------- from the start of the kernel

  const MEMORY_START: nat := 0x10_0000
  const MEMORY_SIZE: nat := 0x400_0000     // 64 MB

  /** Memory, address space and regions as the kernel sets them up. */
  method StartUp() returns (r: Regions)
    ensures fresh(r) && fresh(r.vm) && fresh(r.vm.pmm) && fresh(r.vm.pmm.bitmap)
    ensures r.Valid() && r.pages == map[] && r.regions == [] && r.nextId == 1 && |r.vm.pmm.free| == 12026
    ensures forall va: nat :: Translate(r.vm.space, va) == None
  {
    var pmm := new PhysicalMemory();
    pmm.Initialize(MEMORY_START, MEMORY_SIZE);
    IntervalSize(LOW_FRAMES + TABLE_FRAMES, pmm.totalFrames - HEAP_FRAMES);
    var vm := new VirtualMemory(pmm);
    r := new Regions(vm);
  }

  /** The first shared memory of any size up to 4 MB is there. */
  method FirstRegion(creator: int, size: nat) returns (r: Regions, id: int)
    ensures r.Valid() && (id == 1 <==> 0 < size <= 0x40_0000) && |r.regions| == if id == 1 then 1 else 0
  {
    r := StartUp();
    id := r.CreateSharedMemory(creator, size);
  }
}
