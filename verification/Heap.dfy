/**
  The kernel heap: a list of blocks, each a 24-byte header followed by its payload, laid end to end over the
  heap. Allocation is first fit with splitting; freeing merges neighbours in one pass.
*/
module Heap {
  import opened Arithmetic

  const HEADER := 24
  const MIN_SPLIT := 32

  datatype Block = Block(addr: nat, size: nat, free: bool) {
    function End(): nat { addr + HEADER + size }

    function Payload(): nat { addr + HEADER }
  }

  /** Requests are rounded up to sixteen, in 64-bit arithmetic. */
  function Rounded(n: nat): (r: nat)
    requires n < U64
    ensures r % 16 == 0
  {
    (n + 15) % U64 / 16 * 16
  }

  /** Rounding never shrinks a request, except the last fifteen, which wrap to 0. */
  lemma RoundedCovers(n: nat)
    requires n < U64
    ensures n <= Rounded(n) <==> n <= U64 - 16 || n == 0
    ensures n <= U64 - 16 ==> Rounded(n) < n + 16
  {}

  /** The largest request is rounded to nothing. */
  lemma LargestRequestIsLost()
    ensures Rounded(U64 - 1) == 0
  {}

  // ---------------------------------------------------------------- the block list

  /** Blocks follow one another without gap or overlap from `start` to `end`. */
  ghost predicate Tiles(bs: seq<Block>, start: nat, end: nat)
    decreases |bs|
  {
    if bs == [] then start == end
    else bs[0].addr == start && Tiles(bs[1..], bs[0].End(), end)
  }

  ghost predicate Coalesced(bs: seq<Block>) {
    forall k {:trigger bs[k]} | 0 <= k < |bs| - 1 :: !(bs[k].free && bs[k + 1].free)
  }

  lemma {:induction false} TilesSplit(a: seq<Block>, b: seq<Block>, start: nat, mid: nat, end: nat)
    requires Tiles(a, start, mid)
    ensures Tiles(a + b, start, end) <==> Tiles(b, mid, end)
    decreases |a|
  {
    if a == [] {
      assert a + b == b;
    } else {
      assert (a + b)[1..] == a[1..] + b;
      TilesSplit(a[1..], b, a[0].End(), mid, end);
    }
  }

  /** Every prefix of a tiling is a tiling up to the next block. */
  lemma {:induction false} TilesPrefix(bs: seq<Block>, start: nat, end: nat, k: nat)
    requires Tiles(bs, start, end) && k < |bs|
    ensures Tiles(bs[..k], start, bs[k].addr) && Tiles(bs[k + 1..], bs[k].End(), end) && start <= bs[k].addr
    decreases k
  {
    if k > 0 {
      TilesPrefix(bs[1..], bs[0].End(), end, k - 1);
      assert bs[1..][..k - 1] == bs[..k][1..];
      assert bs[1..][k..] == bs[k + 1..];
    }
  }

  lemma {:induction false} TilesBounded(bs: seq<Block>, start: nat, end: nat)
    requires Tiles(bs, start, end)
    ensures start + |bs| * HEADER <= end
    decreases |bs|
  {
    if bs != [] { TilesBounded(bs[1..], bs[0].End(), end); }
  }

  /** Blocks lie apart and inside the heap: so do headers and payloads. */
  lemma TilesApart(bs: seq<Block>, start: nat, end: nat, k: nat, l: nat)
    requires Tiles(bs, start, end) && k < l < |bs|
    ensures start <= bs[k].addr && bs[k].End() <= bs[l].addr && bs[l].End() <= end
  {
    TilesPrefix(bs, start, end, k);
    TilesPrefix(bs[k + 1..], bs[k].End(), end, l - k - 1);
    TilesBounded(bs[k + 1..][l - k..], bs[l].End(), end);
  }

  lemma TilesReplace(bs: seq<Block>, start: nat, end: nat, k: nat, mid: seq<Block>)
    requires Tiles(bs, start, end) && k < |bs| && Tiles(mid, bs[k].addr, bs[k].End())
    ensures Tiles(bs[..k] + mid + bs[k + 1..], start, end)
  {
    TilesPrefix(bs, start, end, k);
    TilesSplit(mid, bs[k + 1..], bs[k].addr, bs[k].End(), end);
    TilesSplit(bs[..k], mid + bs[k + 1..], start, bs[k].addr, end);
    assert bs[..k] + mid + bs[k + 1..] == bs[..k] + (mid + bs[k + 1..]);
  }

  // ---------------------------------------------------------------- allocation

  /** The first free block of at least this size, or the length of the list. */
  function FindFree(bs: seq<Block>, size: nat): (k: nat)
    ensures k <= |bs|
    ensures k < |bs| ==> bs[k].free && bs[k].size >= size
    ensures forall j | 0 <= j < k :: !(bs[j].free && bs[j].size >= size)
  {
    if bs == [] then 0 else if bs[0].free && bs[0].size >= size then 0 else 1 + FindFree(bs[1..], size)
  }

  predicate Splits(b: Block, size: nat) { b.size >= size + HEADER + MIN_SPLIT }

  /** What an allocation puts in place of the block it takes. */
  function Carved(b: Block, size: nat): (r: seq<Block>)
    requires b.size >= size
    ensures |r| == if Splits(b, size) then 2 else 1
  {
    if Splits(b, size)
    then [Block(b.addr, size, false), Block(b.addr + HEADER + size, b.size - size - HEADER, true)]
    else [Block(b.addr, b.size, false)]
  }

  function Allocated(bs: seq<Block>, k: nat, size: nat): seq<Block>
    requires k < |bs| && bs[k].size >= size
  {
    bs[..k] + Carved(bs[k], size) + bs[k + 1..]
  }

  /** A block of at least 56 bytes more than asked for is split: the rest, but for a header of 24, stays free. Any other
      is handed out whole. */
  lemma CarvedExactly(b: Block, size: nat)
    requires b.size >= size
    ensures b.size >= size + 56 ==>
      Carved(b, size) == [Block(b.addr, size, false), Block(b.addr + 24 + size, b.size - size - 24, true)]
    ensures b.size < size + 56 ==> Carved(b, size) == [Block(b.addr, b.size, false)]
    ensures size <= Carved(b, size)[0].size < size + 56
  {}

  /** The list after an allocation of `size` bytes at position `k`, in numbers. */
  ghost predicate TakesAt(bs: seq<Block>, bs': seq<Block>, k: nat, size: nat) {
    && k < |bs| && bs[k].free && bs[k].size >= size && k < |bs'| && bs'[..k] == bs[..k]
    && bs'[k].addr == bs[k].addr && !bs'[k].free && size <= bs'[k].size < size + 56
    && (bs[k].size >= size + 56 ==>
          && |bs'| == |bs| + 1 && bs'[k].size == size && bs'[k + 2..] == bs[k + 1..]
          && bs'[k + 1] == Block(bs[k].addr + 24 + size, bs[k].size - size - 24, true))
    && (bs[k].size < size + 56 ==> bs'[k].size == bs[k].size && bs'[k + 1..] == bs[k + 1..])
  }

  lemma AllocatedExactly(bs: seq<Block>, k: nat, size: nat)
    requires k < |bs| && bs[k].free && bs[k].size >= size
    ensures TakesAt(bs, Allocated(bs, k, size), k, size)
  {
    CarvedExactly(bs[k], size);
    var bs', c := Allocated(bs, k, size), Carved(bs[k], size);
    assert bs'[..k] == bs[..k] && bs'[k] == c[0] && bs'[k + |c|..] == bs[k + 1..];
  }

  lemma AllocateKeepsTiles(bs: seq<Block>, start: nat, end: nat, k: nat, size: nat)
    requires Tiles(bs, start, end) && k < |bs| && bs[k].size >= size
    ensures Tiles(Allocated(bs, k, size), start, end)
  {
    var c := Carved(bs[k], size);
    if Splits(bs[k], size) {
      assert c[1..][1..] == [];
      assert Tiles(c[1..], c[0].End(), bs[k].End());
    }
    TilesReplace(bs, start, end, k, c);
  }

  lemma AllocateKeepsCoalesced(bs: seq<Block>, k: nat, size: nat)
    requires Coalesced(bs) && k < |bs| && bs[k].free && bs[k].size >= size
    ensures Coalesced(Allocated(bs, k, size))
  {
    var r := Allocated(bs, k, size);
    var d := |Carved(bs[k], size)| - 1;
    forall j | 0 <= j < |r| - 1 ensures !(r[j].free && r[j + 1].free) {
      if j + 1 < k {
        assert !(bs[j].free && bs[j + 1].free);
      } else if j > k + d {
        assert !(bs[j - d].free && bs[j - d + 1].free);
      } else if j == k + d && d == 1 {
        assert !(bs[k].free && bs[k + 1].free);
      }
    }
  }

  // ---------------------------------------------------------------- merging

  function Join(a: Block, b: Block): Block { Block(a.addr, a.size + HEADER + b.size, true) }

  /** The single merge pass. */
  function Merged(bs: seq<Block>): (r: seq<Block>)
    ensures bs != [] ==> r != [] && r[0].addr == bs[0].addr && (r[0].free <==> bs[0].free)
    decreases |bs|
  {
    if |bs| <= 1 then bs
    else if bs[0].free && bs[1].free then Merged([Join(bs[0], bs[1])] + bs[2..])
    else [bs[0]] + Merged(bs[1..])
  }

  lemma {:induction false} MergeKeepsTiles(bs: seq<Block>, start: nat, end: nat)
    requires Tiles(bs, start, end)
    ensures Tiles(Merged(bs), start, end)
    decreases |bs|
  {
    if |bs| > 1 {
      if bs[0].free && bs[1].free {
        var j := Join(bs[0], bs[1]);
        assert bs[1..][1..] == bs[2..] && ([j] + bs[2..])[1..] == bs[2..];
        MergeKeepsTiles([j] + bs[2..], start, end);
      } else {
        MergeKeepsTiles(bs[1..], bs[0].End(), end);
        assert ([bs[0]] + Merged(bs[1..]))[1..] == Merged(bs[1..]);
      }
    }
  }

  /** One pass over any list coalesces fully. */
  lemma {:induction false} MergeCoalesces(bs: seq<Block>)
    ensures Coalesced(Merged(bs))
    decreases |bs|
  {
    if |bs| > 1 {
      if bs[0].free && bs[1].free {
        MergeCoalesces([Join(bs[0], bs[1])] + bs[2..]);
      } else {
        MergeCoalesces(bs[1..]);
        var r := Merged(bs[1..]);
        forall k | 0 <= k < |r| ensures !(([bs[0]] + r)[k].free && ([bs[0]] + r)[k + 1].free) {
          if k > 0 { assert !(r[k - 1].free && r[k].free); }
        }
      }
    }
  }

  lemma {:induction false} MergeNothing(bs: seq<Block>)
    requires Coalesced(bs)
    ensures Merged(bs) == bs
    decreases |bs|
  {
    if |bs| > 1 {
      assert !(bs[0].free && bs[1].free);
      forall k | 0 <= k < |bs[1..]| - 1 ensures !(bs[1..][k].free && bs[1..][k + 1].free) {
        assert !(bs[k + 1].free && bs[k + 2].free);
      }
      MergeNothing(bs[1..]);
    }
  }

  /** A list that is coalesced but for one pair is restored by joining that pair. */
  lemma {:induction false} MergeOnePair(a: seq<Block>, x: Block, y: Block, b: seq<Block>)
    requires x.free && y.free && Coalesced(a + [Join(x, y)] + b)
    ensures Merged(a + [x, y] + b) == a + [Join(x, y)] + b
    decreases |a|
  {
    var whole, goal := a + [x, y] + b, a + [Join(x, y)] + b;
    if a == [] {
      assert whole[2..] == b && [Join(x, y)] + whole[2..] == goal;
      MergeNothing(goal);
    } else {
      assert !(goal[0].free && goal[1].free);
      assert whole[1..] == a[1..] + [x, y] + b && goal[1..] == a[1..] + [Join(x, y)] + b;
      forall k | 0 <= k < |goal[1..]| - 1 ensures !(goal[1..][k].free && goal[1..][k + 1].free) {
        assert !(goal[k + 1].free && goal[k + 2].free);
      }
      assert whole[1].free == goal[1].free;
      MergeOnePair(a[1..], x, y, b);
    }
  }

  // ---------------------------------------------------------------- freeing

  function Freed(bs: seq<Block>, k: nat): seq<Block>
    requires k < |bs|
  {
    Merged(bs[k := bs[k].(free := true)])
  }

  lemma FreeKeepsTiles(bs: seq<Block>, start: nat, end: nat, k: nat)
    requires Tiles(bs, start, end) && k < |bs|
    ensures Tiles(Freed(bs, k), start, end)
  {
    var b := bs[k].(free := true);
    assert Tiles([b], bs[k].addr, bs[k].End());
    TilesReplace(bs, start, end, k, [b]);
    assert bs[..k] + [b] + bs[k + 1..] == bs[k := b];
    MergeKeepsTiles(bs[k := b], start, end);
  }

  /** Freeing what was just allocated gives back the very same list. */
  lemma FreeUndoesAllocate(bs: seq<Block>, k: nat, size: nat)
    requires Coalesced(bs) && k < |bs| && bs[k].free && bs[k].size >= size
    ensures Freed(Allocated(bs, k, size), k) == bs
  {
    var r := Allocated(bs, k, size);
    var c := Carved(bs[k], size);
    assert r[k] == c[0];
    assert bs == bs[..k] + [bs[k]] + bs[k + 1..];
    if Splits(bs[k], size) {
      var x := c[0].(free := true);
      assert r[k := x] == bs[..k] + [x, c[1]] + bs[k + 1..];
      assert Join(x, c[1]) == bs[k];
      MergeOnePair(bs[..k], x, c[1], bs[k + 1..]);
    } else {
      assert r[k := r[k].(free := true)] == bs;
      MergeNothing(bs);
    }
  }

  // ---------------------------------------------------------------- accounting

  function LiveBytes(bs: seq<Block>): nat {
    if bs == [] then 0 else (if bs[0].free then 0 else bs[0].size) + LiveBytes(bs[1..])
  }

  lemma {:induction false} LiveBytesConcat(a: seq<Block>, b: seq<Block>)
    ensures LiveBytes(a + b) == LiveBytes(a) + LiveBytes(b)
    decreases |a|
  {
    if a == [] {
      assert a + b == b;
    } else {
      assert (a + b)[1..] == a[1..] + b;
      LiveBytesConcat(a[1..], b);
    }
  }

  lemma LiveBytesAt(bs: seq<Block>, k: nat, mid: seq<Block>)
    requires k < |bs|
    ensures LiveBytes(bs[..k] + mid + bs[k + 1..]) - LiveBytes(mid) == LiveBytes(bs) - LiveBytes([bs[k]])
  {
    assert bs == bs[..k] + [bs[k]] + bs[k + 1..];
    LiveBytesConcat(bs[..k] + mid, bs[k + 1..]);
    LiveBytesConcat(bs[..k], mid);
    LiveBytesConcat(bs[..k] + [bs[k]], bs[k + 1..]);
    LiveBytesConcat(bs[..k], [bs[k]]);
  }

  lemma {:induction false} MergeKeepsLive(bs: seq<Block>)
    ensures LiveBytes(Merged(bs)) == LiveBytes(bs) && |Merged(bs)| <= |bs|
    decreases |bs|
  {
    if |bs| > 1 {
      if bs[0].free && bs[1].free {
        var j := [Join(bs[0], bs[1])] + bs[2..];
        assert j[1..] == bs[2..] && bs[1..][1..] == bs[2..];
        MergeKeepsLive(j);
      } else {
        MergeKeepsLive(bs[1..]);
        assert ([bs[0]] + Merged(bs[1..]))[1..] == Merged(bs[1..]);
      }
    }
  }

  // ---------------------------------------------------------------- whole runs

  /** The block list, the 64-bit usage counter, and the total of bytes handed out beyond their rounded
      request: that total only grows, because freeing subtracts the whole block. */
  datatype State = State(blocks: seq<Block>, used: nat, slack: nat)

  datatype Op = Allocate(n: nat) | Free(ptr: nat)

  ghost predicate Good(s: State, start: nat, end: nat) {
    && Tiles(s.blocks, start, end) && Coalesced(s.blocks)
    && s.used == (HEADER * |s.blocks| + LiveBytes(s.blocks) - s.slack) % U64
  }

  function Initial(start: nat, size: nat): State
    requires size >= HEADER
  {
    State([Block(start, size - HEADER, true)], HEADER, 0)
  }

  function Slack(b: Block, size: nat): nat
    requires b.size >= size
  {
    if Splits(b, size) then 0 else b.size - size
  }

  function Take(s: State, k: nat, size: nat): State
    requires k < |s.blocks| && s.blocks[k].size >= size
  {
    State(Allocated(s.blocks, k, size),
          (s.used + (if Splits(s.blocks[k], size) then HEADER else 0) + size) % U64,
          s.slack + Slack(s.blocks[k], size))
  }

  function GiveBack(s: State, k: nat): State
    requires k < |s.blocks|
  {
    MergeKeepsLive(s.blocks[k := s.blocks[k].(free := true)]);
    var bs := Freed(s.blocks, k);
    State(bs, (s.used - s.blocks[k].size - HEADER * (|s.blocks| - |bs|)) % U64, s.slack)
  }

  /** The block whose payload starts at `ptr` and is live. */
  ghost predicate IsLive(bs: seq<Block>, k: nat, ptr: nat) {
    k < |bs| && !bs[k].free && bs[k].Payload() == ptr
  }

  lemma Wraps(a: int, b: int)
    ensures (a % U64 + b) % U64 == (a + b) % U64
  {}

  lemma CarvedLive(b: Block, size: nat)
    requires b.size >= size
    ensures LiveBytes(Carved(b, size)) == Carved(b, size)[0].size
  {
    var c := Carved(b, size);
    if Splits(b, size) {
      assert c == [c[0]] + [c[1]];
      LiveBytesConcat([c[0]], [c[1]]);
    }
    OneBlock(c[0]);
    if |c| == 2 { OneBlock(c[1]); }
  }

  lemma OneBlock(b: Block)
    ensures LiveBytes([b]) == if b.free then 0 else b.size
  {
    assert [b][1..] == [];
    assert LiveBytes([b][1..]) == 0;
  }

  lemma TakeKeeps(s: State, start: nat, end: nat, k: nat, size: nat)
    requires Good(s, start, end) && k < |s.blocks| && s.blocks[k].free && s.blocks[k].size >= size
    ensures Good(Take(s, k, size), start, end)
  {
    var b, c := s.blocks[k], Carved(s.blocks[k], size);
    AllocateKeepsTiles(s.blocks, start, end, k, size);
    AllocateKeepsCoalesced(s.blocks, k, size);
    LiveBytesAt(s.blocks, k, c);
    CarvedLive(b, size);
    var was := HEADER * |s.blocks| + LiveBytes(s.blocks) - s.slack;
    var more := (if Splits(b, size) then HEADER else 0) + size;
    Wraps(was, more);
  }

  lemma GiveBackKeeps(s: State, start: nat, end: nat, k: nat)
    requires Good(s, start, end) && k < |s.blocks| && !s.blocks[k].free
    ensures Good(GiveBack(s, k), start, end)
  {
    var b := s.blocks[k].(free := true);
    var marked := s.blocks[k := b];
    FreeKeepsTiles(s.blocks, start, end, k);
    MergeCoalesces(marked);
    MergeKeepsLive(marked);
    assert marked == s.blocks[..k] + [b] + s.blocks[k + 1..];
    LiveBytesAt(s.blocks, k, [b]);
    var was := HEADER * |s.blocks| + LiveBytes(s.blocks) - s.slack;
    var less := s.blocks[k].size + HEADER * (|s.blocks| - |Merged(marked)|);
    Wraps(was, -less);
  }

  /** One operation; a free names a live payload or null. */
  ghost function Step(s: State, op: Op): State {
    match op
    case Allocate(n) =>
      if n == 0 || n >= U64 then s
      else
        var k := FindFree(s.blocks, Rounded(n));
        if k == |s.blocks| then s else Take(s, k, Rounded(n))
    case Free(ptr) =>
      if exists k: nat :: IsLive(s.blocks, k, ptr) then
        var k: nat :| IsLive(s.blocks, k, ptr);
        GiveBack(s, k)
      else s
  }

  ghost function Run(s: State, ops: seq<Op>): State
    decreases |ops|
  {
    if ops == [] then s else Run(Step(s, ops[0]), ops[1..])
  }

  /** Every run keeps the list a coalesced tiling of the heap and the counter in step with it. */
  lemma {:induction false} RunKeepsGood(s: State, start: nat, end: nat, ops: seq<Op>)
    requires Good(s, start, end)
    ensures Good(Run(s, ops), start, end)
    decreases |ops|
  {
    if ops != [] {
      match ops[0]
      case Allocate(n) =>
        if 0 < n < U64 {
          var k := FindFree(s.blocks, Rounded(n));
          if k < |s.blocks| { TakeKeeps(s, start, end, k, Rounded(n)); }
        }
        RunKeepsGood(Step(s, ops[0]), start, end, ops[1..]);
      case Free(ptr) =>
        if exists k: nat :: IsLive(s.blocks, k, ptr) {
          var k: nat :| IsLive(s.blocks, k, ptr) && Step(s, ops[0]) == GiveBack(s, k);
          GiveBackKeeps(s, start, end, k);
        }
        RunKeepsGood(Step(s, ops[0]), start, end, ops[1..]);
    }
  }

  lemma InitialGood(start: nat, size: nat)
    requires HEADER <= size
    ensures Good(Initial(start, size), start, start + size)
  {
    var b := Block(start, size - HEADER, true);
    OneBlock(b);
    assert [b][1..] == [] && Tiles([b][1..], b.End(), start + size);
  }

  /** A pointer names at most one live block, and null names none. */
  lemma FreeStep(s: State, start: nat, end: nat, ptr: nat, k: nat)
    requires Good(s, start, end) && (ptr == 0 || IsLive(s.blocks, k, ptr))
    ensures Step(s, Op.Free(ptr)) == if ptr == 0 then s else GiveBack(s, k)
  {
    forall l: nat | IsLive(s.blocks, l, ptr) ensures l == k {
      if l < k { TilesApart(s.blocks, start, end, l, k); }
      if k < l { TilesApart(s.blocks, start, end, k, l); }
    }
  }

  // ---------------------------------------------------------------- what callers hold

  ghost function Live(bs: seq<Block>): set<Block> { set b | b in bs && !b.free }

  /** The merge pass keeps every live block, unchanged, and makes no other. */
  lemma {:induction false} MergeKeepsBlocks(bs: seq<Block>)
    ensures Live(Merged(bs)) == Live(bs)
    decreases |bs|
  {
    if |bs| > 1 {
      if bs[0].free && bs[1].free {
        var joined := [Join(bs[0], bs[1])] + bs[2..];
        MergeKeepsBlocks(joined);
        forall b: Block | !b.free ensures b in bs <==> b in joined { InPair(bs, b); }
      } else {
        MergeKeepsBlocks(bs[1..]);
        forall b: Block | !b.free ensures b in bs <==> b == bs[0] || b in Live(bs[1..]) {
          assert bs == [bs[0]] + bs[1..];
        }
        assert Merged(bs) == [bs[0]] + Merged(bs[1..]);
        forall b: Block | !b.free ensures b in Merged(bs) <==> b == bs[0] || b in Live(Merged(bs[1..])) {}
      }
    }
  }

  lemma InPair(bs: seq<Block>, b: Block)
    requires |bs| > 1
    ensures b in bs <==> b == bs[0] || b == bs[1] || b in bs[2..]
  {
    assert bs == [bs[0], bs[1]] + bs[2..];
  }

  /** An allocation adds the block it carves and keeps every live one. */
  lemma AllocateKeepsBlocks(bs: seq<Block>, k: nat, size: nat)
    requires k < |bs| && bs[k].free && bs[k].size >= size
    ensures Live(Allocated(bs, k, size)) == Live(bs) + {Carved(bs[k], size)[0]}
  {
    var c := Carved(bs[k], size);
    forall b: Block | !b.free ensures b in Allocated(bs, k, size) <==> b in bs || b == c[0] {
      assert bs == bs[..k] + [bs[k]] + bs[k + 1..];
      assert b in c <==> b == c[0];
    }
  }

  /** Freeing a block of a tiling removes that one and keeps every other live one. */
  lemma FreeKeepsBlocks(bs: seq<Block>, start: nat, end: nat, k: nat)
    requires Tiles(bs, start, end) && k < |bs| && !bs[k].free
    ensures Live(Freed(bs, k)) == Live(bs) - {bs[k]}
  {
    var marked := bs[k := bs[k].(free := true)];
    MergeKeepsBlocks(marked);
    forall b: Block | !b.free ensures b in marked <==> b in bs && b != bs[k] {
      if b in marked {
        var l :| 0 <= l < |marked| && marked[l] == b;
        assert l != k && bs[l] == b;
        if l < k { TilesApart(bs, start, end, l, k); } else { TilesApart(bs, start, end, k, l); }
      }
      if b in bs && b != bs[k] {
        var l :| 0 <= l < |bs| && bs[l] == b;
        assert marked[l] == b;
      }
    }
  }

  /** What callers hold after an operation: each pointer with the rounded size it was asked for. */
  ghost function Held(s: State, held: map<nat, nat>, op: Op): map<nat, nat> {
    match op
    case Allocate(n) =>
      if n == 0 || n >= U64 || FindFree(s.blocks, Rounded(n)) == |s.blocks| then held
      else held[s.blocks[FindFree(s.blocks, Rounded(n))].Payload() := Rounded(n)]
    case Free(ptr) => held - {ptr}
  }

  ghost function RunHeld(s: State, held: map<nat, nat>, ops: seq<Op>): map<nat, nat>
    decreases |ops|
  {
    if ops == [] then held else RunHeld(Step(s, ops[0]), Held(s, held, ops[0]), ops[1..])
  }

  /** The pointers held are exactly the payloads of the live blocks, and each block is as large as asked for, and not
      56 bytes larger. */
  ghost predicate Serves(bs: seq<Block>, held: map<nat, nat>) {
    && (forall b | b in Live(bs) ::
          b.Payload() in held && held[b.Payload()] <= b.size < held[b.Payload()] + 56)
    && (forall ptr | ptr in held :: exists b :: b in Live(bs) && b.Payload() == ptr)
  }

  lemma PayloadsDiffer(bs: seq<Block>, start: nat, end: nat, k: nat, b: Block)
    requires Tiles(bs, start, end) && k < |bs| && b in bs && b != bs[k]
    ensures b.Payload() != bs[k].Payload()
  {
    var l :| 0 <= l < |bs| && bs[l] == b;
    if l < k { TilesApart(bs, start, end, l, k); } else { TilesApart(bs, start, end, k, l); }
  }

  /** One live block more. */
  lemma ServesMore(bs: seq<Block>, bs': seq<Block>, held: map<nat, nat>, c: Block, size: nat)
    requires Serves(bs, held) && Live(bs') == Live(bs) + {c} && size <= c.size < size + 56
    requires forall b | b in Live(bs) :: b.Payload() != c.Payload()
    ensures Serves(bs', held[c.Payload() := size])
  {
    var held' := held[c.Payload() := size];
    assert c in Live(bs');
    forall ptr | ptr in held' ensures exists b :: b in Live(bs') && b.Payload() == ptr {
      if ptr != c.Payload() {
        var b :| b in Live(bs) && b.Payload() == ptr;
        assert b in Live(bs');
      }
    }
  }

  /** One less. */
  lemma ServesLess(bs: seq<Block>, bs': seq<Block>, held: map<nat, nat>, c: Block)
    requires Serves(bs, held) && Live(bs') == Live(bs) - {c}
    requires forall b | b in Live(bs) && b != c :: b.Payload() != c.Payload()
    ensures Serves(bs', held - {c.Payload()})
  {
    forall ptr | ptr in held && ptr != c.Payload() ensures exists b :: b in Live(bs') && b.Payload() == ptr {
      var b :| b in Live(bs) && b.Payload() == ptr;
      assert b in Live(bs');
    }
  }

  lemma AllocateServes(s: State, start: nat, end: nat, held: map<nat, nat>, k: nat, size: nat)
    requires Good(s, start, end) && Serves(s.blocks, held) && k < |s.blocks| && s.blocks[k].free &&
        s.blocks[k].size >= size
    ensures Serves(Allocated(s.blocks, k, size), held[s.blocks[k].Payload() := size])
  {
    AllocateKeepsBlocks(s.blocks, k, size);
    forall b | b in Live(s.blocks) ensures b.Payload() != s.blocks[k].Payload() {
      PayloadsDiffer(s.blocks, start, end, k, b);
    }
    CarvedExactly(s.blocks[k], size);
    ServesMore(s.blocks, Allocated(s.blocks, k, size), held, Carved(s.blocks[k], size)[0], size);
  }

  lemma FreeServes(s: State, start: nat, end: nat, held: map<nat, nat>, k: nat, ptr: nat)
    requires Good(s, start, end) && Serves(s.blocks, held) && IsLive(s.blocks, k, ptr)
    ensures Serves(Freed(s.blocks, k), held - {ptr})
  {
    FreeKeepsBlocks(s.blocks, start, end, k);
    forall b | b in Live(s.blocks) && b != s.blocks[k] ensures b.Payload() != ptr {
      PayloadsDiffer(s.blocks, start, end, k, b);
    }
    ServesLess(s.blocks, Freed(s.blocks, k), held, s.blocks[k]);
  }

  /** One operation on what callers hold; a free of a pointer that is not held changes nothing. */
  lemma StepServes(s: State, start: nat, end: nat, held: map<nat, nat>, op: Op)
    requires Good(s, start, end) && Serves(s.blocks, held)
    ensures Good(Step(s, op), start, end) && Serves(Step(s, op).blocks, Held(s, held, op))
  {
    match op
    case Allocate(n) =>
      if 0 < n < U64 && FindFree(s.blocks, Rounded(n)) < |s.blocks| {
        var k := FindFree(s.blocks, Rounded(n));
        TakeKeeps(s, start, end, k, Rounded(n));
        AllocateServes(s, start, end, held, k, Rounded(n));
      }
    case Free(ptr) =>
      if exists k: nat :: IsLive(s.blocks, k, ptr) {
        var k: nat :| IsLive(s.blocks, k, ptr) && Step(s, op) == GiveBack(s, k);
        GiveBackKeeps(s, start, end, k);
        FreeServes(s, start, end, held, k, ptr);
      } else if ptr in held {
        var b :| b in Live(s.blocks) && b.Payload() == ptr;
        var l :| 0 <= l < |s.blocks| && s.blocks[l] == b;
        assert IsLive(s.blocks, l, ptr);
      } else {
        assert held - {ptr} == held;
      }
  }

  /** Every run keeps a coalesced tiling and serves what callers hold. */
  lemma {:induction false} RunServes(s: State, start: nat, end: nat, held: map<nat, nat>, ops: seq<Op>)
    requires Good(s, start, end) && Serves(s.blocks, held)
    ensures Good(Run(s, ops), start, end) && Serves(Run(s, ops).blocks, RunHeld(s, held, ops))
    decreases |ops|
  {
    if ops != [] {
      StepServes(s, start, end, held, ops[0]);
      RunServes(Step(s, ops[0]), start, end, Held(s, held, ops[0]), ops[1..]);
    }
  }

  /** One block alone. */
  lemma TilesInside(bs: seq<Block>, start: nat, end: nat, k: nat)
    requires Tiles(bs, start, end) && k < |bs|
    ensures start <= bs[k].addr && bs[k].End() <= end
  {
    TilesPrefix(bs, start, end, k);
    TilesBounded(bs[k + 1..], bs[k].End(), end);
  }

  lemma HeldInside(bs: seq<Block>, start: nat, end: nat, held: map<nat, nat>, p: nat)
    requires Tiles(bs, start, end) && Serves(bs, held) && p in held
    ensures start + HEADER <= p && p + held[p] <= end
  {
    var b :| b in Live(bs) && b.Payload() == p;
    var k :| 0 <= k < |bs| && bs[k] == b;
    TilesInside(bs, start, end, k);
  }

  lemma HeldApart(bs: seq<Block>, start: nat, end: nat, held: map<nat, nat>, p: nat, q: nat)
    requires Tiles(bs, start, end) && Serves(bs, held) && p in held && q in held && p < q
    ensures start + HEADER <= p && p + held[p] + HEADER <= q && q + held[q] <= end
  {
    var b :| b in Live(bs) && b.Payload() == p;
    var c :| c in Live(bs) && c.Payload() == q;
    var k :| 0 <= k < |bs| && bs[k] == b;
    var l :| 0 <= l < |bs| && bs[l] == c;
    if k < l { TilesApart(bs, start, end, k, l); } else { TilesApart(bs, start, end, l, k); }
  }

  /**
    From a fresh heap, after any run of allocations and frees: the pointers held are exactly the payloads of the
    live blocks, each as large as asked for, rounded; and the memory of each, from the pointer on for that many
    bytes, lies inside the heap and apart from that of every other.
  */
  lemma HeldMemoryIsApart(start: nat, size: nat, ops: seq<Op>)
    requires HEADER <= size
    ensures var bs, held := Run(Initial(start, size), ops).blocks, RunHeld(Initial(start, size), map[], ops);
      && Serves(bs, held)
      && (forall p | p in held :: start + HEADER <= p && p + held[p] <= start + size)
      && (forall p, q | p in held && q in held && p < q :: p + held[p] + HEADER <= q)
  {
    var s, held := Initial(start, size), RunHeld(Initial(start, size), map[], ops);
    FreshRun(start, size, ops, Run(s, ops).blocks, held);
    forall p | p in held ensures start + HEADER <= p && p + held[p] <= start + size {
      HeldInside(Run(s, ops).blocks, start, start + size, held, p);
    }
    forall p, q | p in held && q in held && p < q ensures p + held[p] + HEADER <= q {
      HeldApart(Run(s, ops).blocks, start, start + size, held, p, q);
    }
  }

  /**
    From a fresh heap, after any run: a request gets a pointer that nobody holds exactly when some free block has its
    rounded size, and otherwise nothing changes hands.
  */
  lemma RunAllocates(start: nat, size: nat, ops: seq<Op>, n: nat)
    requires HEADER <= size && 0 < n < U64
    ensures var s, held := Run(Initial(start, size), ops), RunHeld(Initial(start, size), map[], ops);
      var held' := Held(s, held, Op.Allocate(n));
      if exists j :: 0 <= j < |s.blocks| && s.blocks[j].free && s.blocks[j].size >= Rounded(n)
      then exists ptr: nat :: ptr !in held && held' == held[ptr := Rounded(n)]
      else held' == held
  {
    var s, held := Run(Initial(start, size), ops), RunHeld(Initial(start, size), map[], ops);
    FreshRun(start, size, ops, s.blocks, held);
    RequestServed(s, start, start + size, held, n);
  }

  lemma RequestServed(s: State, start: nat, end: nat, held: map<nat, nat>, n: nat)
    requires Tiles(s.blocks, start, end) && Serves(s.blocks, held) && 0 < n < U64
    ensures var held' := Held(s, held, Op.Allocate(n));
      if exists j :: 0 <= j < |s.blocks| && s.blocks[j].free && s.blocks[j].size >= Rounded(n)
      then exists ptr: nat :: ptr !in held && held' == held[ptr := Rounded(n)]
      else held' == held
  {
    var k := FindFree(s.blocks, Rounded(n));
    if k < |s.blocks| { FreeIsNotHeld(s.blocks, start, end, held, k); }
  }

  lemma FreeIsNotHeld(bs: seq<Block>, start: nat, end: nat, held: map<nat, nat>, k: nat)
    requires Tiles(bs, start, end) && Serves(bs, held) && k < |bs| && bs[k].free
    ensures bs[k].Payload() !in held
  {
    if bs[k].Payload() in held {
      var b :| b in Live(bs) && b.Payload() == bs[k].Payload();
      PayloadsDiffer(bs, start, end, k, b);
    }
  }

  /** On the kernel's heap of 16 MB two requests of 16 bytes get pointers 40 bytes apart, and the rest stays free. */
  lemma TwoRequests(start: nat)
    ensures Run(Initial(start, 0x100_0000), [Op.Allocate(16), Op.Allocate(16)]).blocks ==
      [Block(start, 16, false), Block(start + 40, 16, false), Block(start + 80, 0x100_0000 - 104, true)]
  {
    var s0, ops := Initial(start, 0x100_0000), [Op.Allocate(16), Op.Allocate(16)];
    var rest := Block(start + 40, 0x100_0000 - 64, true);
    CarvedExactly(s0.blocks[0], 16);
    var s1 := Step(s0, ops[0]);
    assert s1.blocks == [Block(start, 16, false), rest];
    assert FindFree(s1.blocks, 16) == 1 by { assert s1.blocks[1..] == [rest]; }
    CarvedExactly(rest, 16);
    assert ops[1..] == [Op.Allocate(16)] && ops[1..][1..] == [];
  }

  lemma PayloadsApart(bs: seq<Block>, start: nat, end: nat, k: nat, l: nat)
    requires Tiles(bs, start, end) && Coalesced(bs) && k < |bs|
    ensures start + HEADER <= bs[k].Payload() && bs[k].Payload() + bs[k].size <= end
    ensures k < l < |bs| ==> bs[k].Payload() + bs[k].size <= bs[l].addr && !(bs[l - 1].free && bs[l].free)
  {
    TilesInside(bs, start, end, k);
    if k < l < |bs| {
      TilesApart(bs, start, end, k, l);
      assert !(bs[l - 1].free && bs[l - 1 + 1].free);
    }
  }

  lemma FreshRun(start: nat, size: nat, ops: seq<Op>, bs: seq<Block>, held: map<nat, nat>)
    requires HEADER <= size
    requires bs == Run(Initial(start, size), ops).blocks && held == RunHeld(Initial(start, size), map[], ops)
    ensures Tiles(bs, start, start + size) && Coalesced(bs) && Serves(bs, held)
  {
    InitialGood(start, size);
    RunServes(Initial(start, size), start, start + size, map[], ops);
  }

  /** From a fresh heap, after any run: payloads lie inside the heap, apart from each other and from every header,
      and no two neighbours are both free. */
  lemma RunFromFresh(start: nat, size: nat, ops: seq<Op>, k: nat, l: nat)
    requires HEADER <= size && k < |Run(Initial(start, size), ops).blocks|
    ensures var bs := Run(Initial(start, size), ops).blocks;
      && start + HEADER <= bs[k].Payload() && bs[k].Payload() + bs[k].size <= start + size
      && (k < l < |bs| ==> bs[k].Payload() + bs[k].size <= bs[l].addr && !(bs[l - 1].free && bs[l].free))
  {
    var s := Initial(start, size);
    InitialGood(start, size);
    RunKeepsGood(s, start, start + size, ops);
    PayloadsApart(Run(s, ops).blocks, start, start + size, k, l);
  }

  /** Allocating and freeing at once restores the list; the counter comes back exactly when the block was
      split or fitted, and otherwise loses the slack. */
  lemma AllocateThenFree(s: State, start: nat, end: nat, k: nat, size: nat)
    requires Good(s, start, end) && k < |s.blocks| && s.blocks[k].free && s.blocks[k].size >= size
    ensures GiveBack(Take(s, k, size), k).blocks == s.blocks
    ensures GiveBack(Take(s, k, size), k).used == (s.used - Slack(s.blocks[k], size)) % U64
    ensures GiveBack(Take(s, k, size), k).used == s.used <==> Splits(s.blocks[k], size) || s.blocks[k].size == size
  {
    var t := Take(s, k, size);
    FreeUndoesAllocate(s.blocks, k, size);
    assert t.blocks[k] == Carved(s.blocks[k], size)[0];
    var slack := Slack(s.blocks[k], size);
    var more := (if Splits(s.blocks[k], size) then HEADER else 0) + size;
    var less := t.blocks[k].size + HEADER * (|t.blocks| - |s.blocks|);
    assert less == more + slack;
    Wraps(s.used + more, -less);
  }

  /** On a fresh heap with one block of 32 bytes, allocating 16 and freeing them loses 16 bytes of the counter. */
  lemma SlackIsLost()
    ensures var fresh0 := Initial(0x1000, 56); var s := Run(fresh0, [Op.Allocate(16), Op.Free(0x1018)]);
      s.blocks == fresh0.blocks && fresh0.used == 24 && s.used == 8
  {
    var s0, b := Initial(0x1000, 56), Block(0x1000, 32, true);
    InitialGood(0x1000, 56);
    assert FindFree([b], 16) == 0;
    var s1 := Take(s0, 0, 16);
    assert Step(s0, Op.Allocate(16)) == s1;
    assert s1.blocks == [Block(0x1000, 32, false)] && s1.used == 40;
    TakeKeeps(s0, 0x1000, 0x1000 + 56, 0, 16);
    assert IsLive(s1.blocks, 0, 0x1018);
    FreeStep(s1, 0x1000, 0x1000 + 56, 0x1018, 0);
    AllocateThenFree(s0, 0x1000, 0x1000 + 56, 0, 16);
    var ops := [Op.Allocate(16), Op.Free(0x1018)];
    assert ops[1..] == [Op.Free(0x1018)] && ops[1..][1..] == [];
  }

  // ---------------------------------------------------------------- headers in memory

  datatype Header = Header(size: nat, free: bool, next: nat)

  /** The header that block `k` of the list has in memory; the last one links to null. */
  function HeaderOf(bs: seq<Block>, k: nat): Header
    requires k < |bs|
  {
    Header(bs[k].size, bs[k].free, if k + 1 < |bs| then bs[k + 1].addr else 0)
  }

  ghost predicate Linked(memory: map<nat, Header>, bs: seq<Block>) {
    forall k: nat {:trigger HeaderOf(bs, k)} | k < |bs| :: bs[k].addr in memory && memory[bs[k].addr] == HeaderOf(bs, k)
  }

  lemma HeaderAt(memory: map<nat, Header>, bs: seq<Block>, k: nat)
    requires Linked(memory, bs) && k < |bs|
    ensures bs[k].addr in memory && memory[bs[k].addr] == HeaderOf(bs, k)
  {
    var h := HeaderOf(bs, k);
  }

  /** Two neighbours replaced by their join, as the merge step does in place. */
  function JoinedAt(bs: seq<Block>, k: nat): seq<Block>
    requires k + 1 < |bs|
  {
    bs[..k] + [Join(bs[k], bs[k + 1])] + bs[k + 2..]
  }

  lemma LinkedMarked(memory: map<nat, Header>, bs: seq<Block>, start: nat, end: nat, k: nat, free: bool)
    requires Linked(memory, bs) && Tiles(bs, start, end) && k < |bs|
    ensures Linked(memory[bs[k].addr := HeaderOf(bs, k).(free := free)], bs[k := bs[k].(free := free)])
  {
    var bs' := bs[k := bs[k].(free := free)];
    var memory' := memory[bs[k].addr := HeaderOf(bs, k).(free := free)];
    forall j: nat | j < |bs'| ensures bs'[j].addr in memory' && memory'[bs'[j].addr] == HeaderOf(bs', j) {
      HeaderAt(memory, bs, j);
      if j != k { AddressesDiffer(bs, start, end, j, k); }
    }
  }

  lemma AddressesDiffer(bs: seq<Block>, start: nat, end: nat, j: nat, k: nat)
    requires Tiles(bs, start, end) && j < |bs| && k < |bs| && j != k
    ensures bs[j].addr != bs[k].addr
  {
    if j < k { TilesApart(bs, start, end, j, k); } else { TilesApart(bs, start, end, k, j); }
  }

  /** The header of block `j` once block `k` is split. */
  lemma SplitHeaderAt(memory: map<nat, Header>, memory': map<nat, Header>, bs: seq<Block>, r: seq<Block>,
                      start: nat, end: nat, k: nat, size: nat, rest: nat, j: nat)
    requires Linked(memory, bs) && Tiles(bs, start, end) && k < |bs| && Splits(bs[k], size)
    requires rest == bs[k].addr + HEADER + size && r == Allocated(bs, k, size) && j < |r|
    requires memory' == memory[rest := Header(bs[k].size - size - HEADER, true, HeaderOf(bs, k).next)]
                              [bs[k].addr := Header(size, false, rest)]
    ensures r[j].addr in memory' && memory'[r[j].addr] == HeaderOf(r, j)
  {
    if j < k {
      assert r[j] == bs[j];
      HeaderAt(memory, bs, j);
      TilesApart(bs, start, end, j, k);
    } else if j > k + 1 {
      assert r[j] == bs[j - 1];
      HeaderAt(memory, bs, j - 1);
      TilesApart(bs, start, end, k, j - 1);
    }
  }

  lemma LinkedSplit(memory: map<nat, Header>, bs: seq<Block>, start: nat, end: nat, k: nat, size: nat)
    requires Linked(memory, bs) && Tiles(bs, start, end) && k < |bs| && Splits(bs[k], size)
    ensures var rest := bs[k].addr + HEADER + size;
            var memory' := memory[rest := Header(bs[k].size - size - HEADER, true, HeaderOf(bs, k).next)]
                                 [bs[k].addr := Header(size, false, rest)];
            Linked(memory', Allocated(bs, k, size))
  {
    var rest := bs[k].addr + HEADER + size;
    var memory' := memory[rest := Header(bs[k].size - size - HEADER, true, HeaderOf(bs, k).next)]
                         [bs[k].addr := Header(size, false, rest)];
    var r := Allocated(bs, k, size);
    forall j: nat | j < |r| ensures r[j].addr in memory' && memory'[r[j].addr] == HeaderOf(r, j) {
      SplitHeaderAt(memory, memory', bs, r, start, end, k, size, rest, j);
    }
  }

  lemma LinkedJoined(memory: map<nat, Header>, bs: seq<Block>, start: nat, end: nat, k: nat)
    requires Linked(memory, bs) && Tiles(bs, start, end) && k + 1 < |bs|
    ensures var memory' := memory[bs[k].addr := Header(Join(bs[k], bs[k + 1]).size, true, HeaderOf(bs, k + 1).next)];
            Linked(memory', JoinedAt(bs, k))
    ensures Tiles(JoinedAt(bs, k), start, end)
  {
    var memory' := memory[bs[k].addr := Header(Join(bs[k], bs[k + 1]).size, true, HeaderOf(bs, k + 1).next)];
    var r := JoinedAt(bs, k);
    forall j: nat | j < |r| ensures r[j].addr in memory' && memory'[r[j].addr] == HeaderOf(r, j) {
      if j < k {
        assert r[j] == bs[j];
        HeaderAt(memory, bs, j);
        AddressesDiffer(bs, start, end, j, k);
      } else if j > k {
        assert r[j] == bs[j + 1];
        HeaderAt(memory, bs, j + 1);
        AddressesDiffer(bs, start, end, j + 1, k);
      }
    }
    JoinedTiles(bs, start, end, k);
  }

  lemma JoinedTiles(bs: seq<Block>, start: nat, end: nat, k: nat)
    requires Tiles(bs, start, end) && k + 1 < |bs|
    ensures Tiles(JoinedAt(bs, k), start, end)
  {
    var r := JoinedAt(bs, k);
    TilesPrefix(bs, start, end, k);
    var tail := bs[k + 1..];
    assert tail[1..] == bs[k + 2..];
    var mid := [Join(bs[k], bs[k + 1])];
    assert mid[1..] == [] && Tiles(mid, bs[k].addr, bs[k + 1].End());
    TilesSplit(mid, bs[k + 2..], bs[k].addr, bs[k + 1].End(), end);
    TilesSplit(bs[..k], mid + bs[k + 2..], start, bs[k].addr, end);
    assert r == bs[..k] + (mid + bs[k + 2..]);
  }

  /** The counter after `n` headers have been merged away. */
  function CountDown(used: nat, n: nat): nat {
    if n == 0 then used else (CountDown(used, n - 1) - HEADER) % U64
  }

  lemma {:induction false} CountDownValue(used: nat, n: nat)
    requires used < U64
    ensures CountDown(used, n) == (used - HEADER * n) % U64
  {
    if n > 0 {
      CountDownValue(used, n - 1);
      Wraps(used - HEADER * (n - 1), -HEADER);
    }
  }

  class HeapAllocator {
    var memory: map<nat, Header>
    var firstBlock: nat
    var totalSize: nat
    var usedMemory: nat

    ghost var blocks: seq<Block>
    ghost var slack: nat

    ghost function Current(): State
      reads this
    {
      State(blocks, usedMemory, slack)
    }

    ghost predicate Chained()
      reads this
    {
      && firstBlock > 0 && blocks != [] && Linked(memory, blocks)
      && Tiles(blocks, firstBlock, firstBlock + totalSize)
    }

    ghost predicate Valid()
      reads this
    {
      Chained() && Good(Current(), firstBlock, firstBlock + totalSize)
    }

    constructor (start: nat, size: nat)
      requires start > 0 && size >= HEADER
      ensures Valid() && firstBlock == start && totalSize == size && Current() == Initial(start, size)
    {
      memory := map[start := Header(size - HEADER, true, 0)];
      firstBlock, totalSize, usedMemory := start, size, HEADER;
      blocks, slack := [Block(start, size - HEADER, true)], 0;
      InitialGood(start, size);
    }

    /** First fit along the links; null when nothing fits. */
    method FindFreeBlock(size: nat) returns (block: nat, ghost k: nat)
      requires Chained()
      ensures k == FindFree(blocks, size)
      ensures block == if FindFree(blocks, size) < |blocks| then blocks[FindFree(blocks, size)].addr else 0
      ensures block > 0 <==> FindFree(blocks, size) < |blocks|
    {
      TilesStart(blocks, firstBlock, firstBlock + totalSize);
      block, k := firstBlock, 0;
      while block != 0
        invariant k <= |blocks| && block == (if k < |blocks| then blocks[k].addr else 0)
        invariant k < |blocks| ==> block > 0
        invariant FindFree(blocks, size) == k + FindFree(blocks[k..], size)
        decreases |blocks| - k
      {
        HeaderAt(memory, blocks, k);
        if memory[block].free && memory[block].size >= size { return; }
        assert blocks[k..][1..] == blocks[k + 1..];
        if k + 1 < |blocks| { TilesPrefix(blocks, firstBlock, firstBlock + totalSize, k + 1); }
        block, k := memory[block].next, k + 1;
      }
    }

    /** The payload of the block taken, or null; frames behind the heap are taken to be there. */
    method Allocate(n: nat) returns (ptr: nat)
      requires Valid() && n < U64
      modifies this
      ensures Valid() && firstBlock == old(firstBlock) && totalSize == old(totalSize)
      ensures Current() == Step(old(Current()), Op.Allocate(n))
      ensures ptr == 0 <==> n == 0 || FindFree(old(blocks), Rounded(n)) == |old(blocks)|
      ensures ptr != 0 <==>
        n > 0 && exists j :: 0 <= j < |old(blocks)| && old(blocks)[j].free && old(blocks)[j].size >= Rounded(n)
      ensures ptr != 0 ==>
        var k := FindFree(old(blocks), Rounded(n));
        IsLive(blocks, k, ptr) && ptr == old(blocks)[k].addr + 24 && TakesAt(old(blocks), blocks, k, Rounded(n))
    {
      if n == 0 {
        return 0;
      }
      var size := Rounded(n);
      var block;
      ghost var k;
      block, k := FindFreeBlock(size);
      if block == 0 {
        return 0;
      }
      TakeKeeps(Current(), firstBlock, firstBlock + totalSize, k, size);
      TakeBlock(block, size, k);
      assert IsLive(blocks, k, block + HEADER);
      return block + HEADER;
    }

    /** Split off what is not needed, mark the block used, and count. */
    method TakeBlock(block: nat, size: nat, ghost k: nat)
      requires Chained() && k < |blocks| && block == blocks[k].addr && blocks[k].free && blocks[k].size >= size
      requires usedMemory < U64
      modifies this
      ensures Linked(memory, blocks) && Current() == Take(old(Current()), k, size)
      ensures TakesAt(old(blocks), blocks, k, size)
      ensures firstBlock == old(firstBlock) && totalSize == old(totalSize)
    {
      HeaderAt(memory, blocks, k);
      AllocatedExactly(blocks, k, size);
      var h := memory[block];
      if h.size >= size + HEADER + MIN_SPLIT {
        LinkedSplit(memory, blocks, firstBlock, firstBlock + totalSize, k, size);
        var rest := block + HEADER + size;
        memory := memory[rest := Header(h.size - size - HEADER, true, h.next)];
        memory := memory[block := Header(size, false, rest)];
        usedMemory := (usedMemory + HEADER + size) % U64;
      } else {
        LinkedMarked(memory, blocks, firstBlock, firstBlock + totalSize, k, false);
        assert blocks[k := blocks[k].(free := false)] == Allocated(blocks, k, size);
        memory := memory[block := h.(free := false)];
        usedMemory := (usedMemory + size) % U64;
        slack := slack + (blocks[k].size - size);
      }
      blocks := Allocated(blocks, k, size);
    }

    /** The merge pass, joining a free block with its free successor in place. */
    method MergeFreeBlocks()
      requires Chained()
      modifies this
      ensures Chained() && firstBlock == old(firstBlock) && totalSize == old(totalSize) && slack == old(slack)
      ensures blocks == Merged(old(blocks)) && |blocks| <= |old(blocks)|
      ensures usedMemory == CountDown(old(usedMemory), |old(blocks)| - |blocks|)
    {
      assert blocks[..0] + Merged(blocks[0..]) == Merged(blocks);
      ghost var k, joins := MergeLoop(usedMemory, Merged(blocks));
      LastBlock(memory, blocks, firstBlock, firstBlock + totalSize, k);
    }

    /** The loop of the pass, which is to end with the list `goal` and has the counter `used` to start with. */
    method MergeLoop(ghost used: nat, ghost goal: seq<Block>) returns (ghost k: nat, ghost joins: nat)
      requires Chained() && usedMemory == used && blocks[..0] + Merged(blocks[0..]) == goal
      modifies this
      ensures Chained() && firstBlock == old(firstBlock) && totalSize == old(totalSize) && slack == old(slack)
      ensures joins + |blocks| == |old(blocks)| && usedMemory == CountDown(used, joins)
      ensures k < |blocks| && blocks[k].addr in memory && memory[blocks[k].addr].next == 0
      ensures blocks[..k] + Merged(blocks[k..]) == goal
    {
      var current := firstBlock;
      k, joins := 0, 0;
      Begins(memory, blocks, firstBlock, firstBlock + totalSize);
      while memory[current].next != 0
        invariant Chained() && firstBlock == old(firstBlock) && totalSize == old(totalSize) && slack == old(slack)
        invariant k < |blocks| && joins + |blocks| == |old(blocks)| && current == blocks[k].addr && current in memory
        invariant blocks[..k] + Merged(blocks[k..]) == goal && usedMemory == CountDown(used, joins)
        decreases |blocks| - k
      {
        Continues(memory, blocks, k);
        current, k, joins := MergeStep(current, k, used, joins);
      }
    }

    /** One round of the pass: join with the next block, or move on to it. The counter was `used` before `joins`
        blocks were joined. */
    method MergeStep(current: nat, ghost k: nat, ghost used: nat, ghost joins: nat)
      returns (current': nat, ghost k': nat, ghost joins': nat)
      requires Chained() && k + 1 < |blocks| && current == blocks[k].addr && current in memory
      requires usedMemory == CountDown(used, joins)
      modifies this`memory, this`usedMemory, this`blocks
      ensures Chained() && k' < |blocks| && current' == blocks[k'].addr && current' in memory
      ensures blocks[..k'] + Merged(blocks[k'..]) == old(blocks[..k] + Merged(blocks[k..]))
      ensures joins' + |blocks| == joins + |old(blocks)| && |blocks| - k' < |old(blocks)| - k
      ensures usedMemory == CountDown(used, joins')
    {
      HeaderAt(memory, blocks, k);
      HeaderAt(memory, blocks, k + 1);
      var next := memory[current].next;
      if memory[current].free && memory[next].free {
        JoinProgress(blocks, k);
        JoinWithNext(current, k);
        current', k', joins' := current, k, joins + 1;
      } else {
        SkipProgress(blocks, k);
        current', k', joins' := next, k + 1, joins;
      }
    }

    method JoinWithNext(current: nat, ghost k: nat)
      requires Chained() && k + 1 < |blocks| && current == blocks[k].addr && blocks[k].free && blocks[k + 1].free
      modifies this`memory, this`usedMemory, this`blocks
      ensures Chained() && blocks == JoinedAt(old(blocks), k) && usedMemory == (old(usedMemory) - HEADER) % U64
      ensures current in memory
    {
      HeaderAt(memory, blocks, k);
      HeaderAt(memory, blocks, k + 1);
      LinkedJoined(memory, blocks, firstBlock, firstBlock + totalSize, k);
      var h, n := memory[current], memory[memory[current].next];
      memory := memory[current := h.(size := h.size + HEADER + n.size, next := n.next)];
      usedMemory := (usedMemory - HEADER) % U64;
      blocks := JoinedAt(blocks, k);
    }

    /** Mark the block free, take its whole size off the counter, and merge. */
    method Free(ptr: nat, ghost k: nat)
      requires Valid() && (ptr == 0 || IsLive(blocks, k, ptr))
      modifies this
      ensures Valid() && firstBlock == old(firstBlock) && totalSize == old(totalSize)
      ensures Current() == Step(old(Current()), Op.Free(ptr))
    {
      FreeStep(Current(), firstBlock, firstBlock + totalSize, ptr, k);
      if ptr != 0 {
        ghost var s := Current();
        GiveBackKeeps(s, firstBlock, firstBlock + totalSize, k);
        MarkFree(ptr - HEADER, k);
        ghost var used := usedMemory;
        MergeFreeBlocks();
        GivenBack(s, k, used, Current());
      }
    }

    /** Mark a block free and take its whole size off the counter. */
    method MarkFree(block: nat, ghost k: nat)
      requires Chained() && k < |blocks| && block == blocks[k].addr
      modifies this`memory, this`usedMemory, this`blocks
      ensures Chained() && blocks == old(blocks)[k := old(blocks)[k].(free := true)]
      ensures usedMemory == (old(usedMemory) - old(blocks)[k].size) % U64
    {
      HeaderAt(memory, blocks, k);
      LinkedMarked(memory, blocks, firstBlock, firstBlock + totalSize, k, true);
      MarkKeepsTiles(blocks, firstBlock, firstBlock + totalSize, k, true);
      usedMemory := (usedMemory - memory[block].size) % U64;
      memory := memory[block := memory[block].(free := true)];
      blocks := blocks[k := blocks[k].(free := true)];
    }
  }

  /** A block linked to null is the last, and nothing after it is left to merge. */
  lemma Begins(memory: map<nat, Header>, bs: seq<Block>, start: nat, end: nat)
    requires Linked(memory, bs) && Tiles(bs, start, end) && bs != []
    ensures bs[0].addr == start && start in memory
  {
    TilesStart(bs, start, end);
    HeaderAt(memory, bs, 0);
  }

  lemma Continues(memory: map<nat, Header>, bs: seq<Block>, k: nat)
    requires Linked(memory, bs) && k < |bs| && bs[k].addr in memory && memory[bs[k].addr].next != 0
    ensures k + 1 < |bs|
  {
    HeaderAt(memory, bs, k);
  }

  lemma LastBlock(memory: map<nat, Header>, bs: seq<Block>, start: nat, end: nat, k: nat)
    requires Linked(memory, bs) && Tiles(bs, start, end) && start > 0 && k < |bs|
    requires bs[k].addr in memory && memory[bs[k].addr].next == 0
    ensures k + 1 == |bs| && bs[..k] + Merged(bs[k..]) == bs
  {
    HeaderAt(memory, bs, k);
    if k + 1 < |bs| { TilesPrefix(bs, start, end, k + 1); }
    assert bs == bs[..k] + bs[k..];
  }

  /** Marking, merging and counting down is the specified step. */
  lemma GivenBack(s: State, k: nat, used: nat, t: State)
    requires k < |s.blocks| && used == (s.used - s.blocks[k].size) % U64
    requires t.blocks == Freed(s.blocks, k) && |t.blocks| <= |s.blocks| && t.slack == s.slack
    requires t.used == CountDown(used, |s.blocks| - |t.blocks|)
    ensures t == GiveBack(s, k)
  {
    CountDownValue(used, |s.blocks| - |t.blocks|);
    Wraps(s.used - s.blocks[k].size, -HEADER * (|s.blocks| - |t.blocks|));
  }

  lemma JoinProgress(bs: seq<Block>, k: nat)
    requires k + 1 < |bs| && bs[k].free && bs[k + 1].free
    ensures bs[..k] + Merged(bs[k..]) == JoinedAt(bs, k)[..k] + Merged(JoinedAt(bs, k)[k..])
    ensures JoinedAt(bs, k)[k].addr == bs[k].addr
  {
    assert [Join(bs[k], bs[k + 1])] + bs[k..][2..] == JoinedAt(bs, k)[k..];
    assert JoinedAt(bs, k)[..k] == bs[..k];
  }

  lemma SkipProgress(bs: seq<Block>, k: nat)
    requires k + 1 < |bs| && !(bs[k].free && bs[k + 1].free)
    ensures bs[..k] + Merged(bs[k..]) == bs[..k + 1] + Merged(bs[k + 1..])
  {
    assert bs[k..][1..] == bs[k + 1..];
    assert bs[..k + 1] == bs[..k] + [bs[k]];
  }

  lemma MarkKeepsTiles(bs: seq<Block>, start: nat, end: nat, k: nat, free: bool)
    requires Tiles(bs, start, end) && k < |bs|
    ensures Tiles(bs[k := bs[k].(free := free)], start, end)
  {
    var b := bs[k].(free := free);
    assert [b][1..] == [] && Tiles([b], bs[k].addr, bs[k].End());
    TilesReplace(bs, start, end, k, [b]);
    assert bs[..k] + [b] + bs[k + 1..] == bs[k := b];
  }

  lemma TilesStart(bs: seq<Block>, start: nat, end: nat)
    requires Tiles(bs, start, end) && bs != []
    ensures bs[0].addr == start
  {}
}
