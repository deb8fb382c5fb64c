/**
  The physical frame allocator: a bitmap of 32-bit words, one bit per 4096-byte frame, with a separate
  count of clear bits. The set of free frames is what the bitmap means.
*/
module Frames {
  import opened Arithmetic

  const PAGE_SIZE := 4096
  const WORDS := 16384
  const WORD_BITS := 32

  const LOW_FRAMES := 256        // the first megabyte
  const TABLE_FRAMES := 5        // boot page tables, right after it
  const HEAP_FRAMES := 4096      // sixteen megabytes at the end

  // ---------------------------------------------------------------- bits

  /** The one-bit mask `1u << b`. */
  function Mask(b: nat): bv32 { if b == 0 then 1 else Mask(b - 1) << 1 }

  /** The test `w & m`. */
  predicate Hits(w: bv32, m: bv32) { w & m != 0 }

  /** The bit tested by `w & (1u << b)`. */
  predicate BitOf(w: bv32, b: nat) { Hits(w, Mask(b)) }

  lemma ShiftOnce(x: bv5, y: bv5)
    requires x == y + 1 && x != 0
    ensures ((1 as bv32) << y) << 1 == (1 as bv32) << x
  {}

  lemma NextPosition(b: nat)
    requires 0 < b < WORD_BITS
    ensures (b as bv5) == ((b - 1) as bv5) + 1 && (b as bv5) != 0
  {}

  lemma PositionsDiffer(b: nat, c: nat)
    requires b < WORD_BITS && c < WORD_BITS && b != c
    ensures (b as bv5) != (c as bv5)
  {
    assert (b as bv5) as int == b && (c as bv5) as int == c;
  }

  lemma {:induction false} MaskIsShift(b: nat)
    requires b < WORD_BITS
    ensures Mask(b) == (1 as bv32) << (b as bv5)
  {
    if b > 0 {
      MaskIsShift(b - 1);
      NextPosition(b);
      ShiftOnce(b as bv5, (b - 1) as bv5);
    }
  }

  lemma ShiftsApart(x: bv5, y: bv5)
    ensures ((1 as bv32) << x) != 0 && (x != y ==> ((1 as bv32) << x) & ((1 as bv32) << y) == 0)
  {}

  lemma MaskNotZero(b: nat)
    requires b < WORD_BITS
    ensures Mask(b) != 0
  {
    MaskIsShift(b);
    ShiftsApart(b as bv5, b as bv5);
  }

  lemma MasksApart(b: nat, c: nat)
    requires b < WORD_BITS && c < WORD_BITS && b != c
    ensures Mask(b) & Mask(c) == 0
  {
    MaskIsShift(b);
    MaskIsShift(c);
    PositionsDiffer(b, c);
    ShiftsApart(b as bv5, c as bv5);
  }

  lemma SameMask(w: bv32, m: bv32)
    requires m != 0
    ensures Hits(w | m, m) && !Hits(w & !m, m)
  {}

  lemma OrMisses(w: bv32, m: bv32, n: bv32)
    requires m & n == 0
    ensures (w | m) & n == w & n
  {}

  lemma AndMisses(w: bv32, m: bv32, n: bv32)
    requires m & n == 0
    ensures (w & !m) & n == w & n
  {}

  lemma OrHits(w: bv32, m: bv32, n: bv32)
    requires m & n == 0
    ensures Hits(w | m, n) == Hits(w, n)
  {
    OrMisses(w, m, n);
  }

  lemma AndHits(w: bv32, m: bv32, n: bv32)
    requires m & n == 0
    ensures Hits(w & !m, n) == Hits(w, n)
  {
    AndMisses(w, m, n);
  }

  lemma HitsIsBit(w: bv32, r: bv32, c: nat)
    requires Hits(r, Mask(c)) == Hits(w, Mask(c))
    ensures BitOf(r, c) == BitOf(w, c)
  {}

  lemma OrSpares(w: bv32, r: bv32, m: bv32, n: bv32, c: nat)
    requires m & n == 0 && n == Mask(c) && r == w | m
    ensures BitOf(r, c) == BitOf(w, c)
  {
    OrHits(w, m, n);
    HitsIsBit(w, r, c);
  }

  lemma AndSpares(w: bv32, r: bv32, m: bv32, n: bv32, c: nat)
    requires m & n == 0 && n == Mask(c) && r == w & !m
    ensures BitOf(r, c) == BitOf(w, c)
  {
    AndHits(w, m, n);
    HitsIsBit(w, r, c);
  }

  lemma OwnBitSet(w: bv32, b: nat)
    requires Mask(b) != 0
    ensures BitOf(w | Mask(b), b)
  {
    SameMask(w, Mask(b));
  }

  lemma OwnBitCleared(w: bv32, r: bv32, m: bv32, b: nat)
    requires m != 0 && m == Mask(b) && r == w & !m
    ensures !BitOf(r, b)
  {
    SameMask(w, m);
  }

  lemma OrSetsBit(w: bv32, b: nat, r: bv32)
    requires b < WORD_BITS && r == w | Mask(b)
    ensures BitOf(r, b)
  {
    MaskNotZero(b);
    OwnBitSet(w, b);
  }

  lemma AndClearsBit(w: bv32, b: nat, r: bv32)
    requires b < WORD_BITS && r == w & !Mask(b)
    ensures !BitOf(r, b)
  {
    MaskNotZero(b);
    OwnBitCleared(w, r, Mask(b), b);
  }

  lemma OrKeepsBit(w: bv32, b: nat, c: nat, r: bv32)
    requires b < WORD_BITS && c < WORD_BITS && b != c && r == w | Mask(b)
    ensures BitOf(r, c) == BitOf(w, c)
  {
    MasksApart(b, c);
    OrSpares(w, r, Mask(b), Mask(c), c);
  }

  lemma AndKeepsBit(w: bv32, b: nat, c: nat, r: bv32)
    requires b < WORD_BITS && c < WORD_BITS && b != c && r == w & !Mask(b)
    ensures BitOf(r, c) == BitOf(w, c)
  {
    MasksApart(b, c);
    AndSpares(w, r, Mask(b), Mask(c), c);
  }

  /** Or-ing a one-bit mask into a word sets that bit and no other, */
  lemma OrSetsOneBit(w: bv32, b: nat, c: nat, r: bv32)
    requires b < WORD_BITS && c < WORD_BITS && r == w | Mask(b)
    ensures BitOf(r, c) <==> c == b || BitOf(w, c)
  {
    if b == c { OrSetsBit(w, b, r); } else { OrKeepsBit(w, b, c, r); }
  }

  /** and and-ing its complement clears that bit and no other. */
  lemma AndClearsOneBit(w: bv32, b: nat, c: nat, r: bv32)
    requires b < WORD_BITS && c < WORD_BITS && r == w & !Mask(b)
    ensures BitOf(r, c) <==> c != b && BitOf(w, c)
  {
    if b == c { AndClearsBit(w, b, r); } else { AndKeepsBit(w, b, c, r); }
  }

  lemma ZeroHasNoBit(c: nat)
    ensures !BitOf(0, c)
  {}

  method SetBit(w: bv32, b: nat) returns (r: bv32)
    requires b < WORD_BITS
    ensures forall c: nat | c < WORD_BITS :: BitOf(r, c) <==> c == b || BitOf(w, c)
  {
    r := w | Mask(b);
    forall c: nat | c < WORD_BITS ensures BitOf(r, c) <==> c == b || BitOf(w, c) { OrSetsOneBit(w, b, c, r); }
  }

  method ClearBit(w: bv32, b: nat) returns (r: bv32)
    requires b < WORD_BITS
    ensures forall c: nat | c < WORD_BITS :: BitOf(r, c) <==> c != b && BitOf(w, c)
  {
    r := w & !Mask(b);
    forall c: nat | c < WORD_BITS ensures BitOf(r, c) <==> c != b && BitOf(w, c) { AndClearsOneBit(w, b, c, r); }
  }

  /** Bit `i` of the bitmap, which says that frame `i` is in use. */
  predicate Bit(words: seq<bv32>, i: nat)
    requires i < |words| * WORD_BITS
  {
    BitOf(words[i / WORD_BITS], i % WORD_BITS)
  }

  // ---------------------------------------------------------------- sets of frames

  ghost predicate Between(i: int, a: int, b: int) { a <= i < b }

  ghost function Interval(a: int, b: int): set<int> { set i | a <= i < b && Between(i, a, b) }

  lemma {:induction false} IntervalSize(a: int, b: int)
    ensures |Interval(a, b)| == if a < b then b - a else 0
    decreases b - a
  {
    if a < b {
      assert Interval(a, b) == Interval(a, b - 1) + {b - 1} by { assert Between(b - 1, a, b); }
      IntervalSize(a, b - 1);
    } else {
      assert Interval(a, b) == {};
    }
  }

  lemma RangesLeft(total: int)
    requires HEAP_FRAMES <= total
    ensures Interval(0, total) - Interval(0, LOW_FRAMES) - Interval(total - HEAP_FRAMES, total)
            - Interval(LOW_FRAMES, LOW_FRAMES + TABLE_FRAMES)
            == Interval(LOW_FRAMES + TABLE_FRAMES, total - HEAP_FRAMES)
  {
    forall i | 0 <= i < total ensures Between(i, 0, total) {}
  }

  /** The wrapping count after the three reservations is the number of frames left, unless they overlap. */
  lemma CountLeft(total: int, count: int)
    requires HEAP_FRAMES <= total < U64
    requires count == (((total - LOW_FRAMES) % U64 - HEAP_FRAMES) % U64 - TABLE_FRAMES) % U64
    ensures count == |Interval(LOW_FRAMES + TABLE_FRAMES, total - HEAP_FRAMES)| <==>
            LOW_FRAMES + TABLE_FRAMES + HEAP_FRAMES <= total
  {
    IntervalSize(LOW_FRAMES + TABLE_FRAMES, total - HEAP_FRAMES);
    var left := total - (LOW_FRAMES + HEAP_FRAMES + TABLE_FRAMES);
    assert count == if left < 0 then left + U64 else left;
  }

  ghost predicate IsLowest(i: int, s: set<int>) { i in s && forall j | j in s :: i <= j }

  // ---------------------------------------------------------------- the allocator

  class PhysicalMemory {
    const bitmap: array<bv32>
    var memoryStart: nat
    var totalFrames: nat
    var freeFrames: nat

    /** The frames whose bit is clear. */
    ghost var free: set<int>

    ghost predicate Shaped()
      reads this, bitmap
    {
      && bitmap.Length == WORDS && totalFrames <= WORDS * WORD_BITS
      && (forall i | i in free :: 0 <= i < totalFrames)
      && (forall i: nat {:trigger Bit(bitmap[..], i)} | i < totalFrames :: i in free <==> !Bit(bitmap[..], i))
    }

    ghost predicate Valid()
      reads this, bitmap
    {
      Shaped() && freeFrames == |free|
    }

    constructor ()
      ensures fresh(bitmap) && bitmap.Length == WORDS
    {
      bitmap := new bv32[WORDS](_ => 0);
    }

    method TestFrame(i: nat) returns (used: bool)
      requires Shaped() && i < totalFrames
      ensures used <==> i !in free
    {
      used := bitmap[i / WORD_BITS] & Mask(i % WORD_BITS) != 0;
      assert used == Bit(bitmap[..], i);
    }

    method MarkUsed(i: nat)
      requires Shaped() && i < totalFrames
      modifies this`free, bitmap
      ensures Shaped() && free == old(free) - {i}
    {
      ghost var was := bitmap[..];
      var w := SetBit(bitmap[i / WORD_BITS], i % WORD_BITS);
      bitmap[i / WORD_BITS] := w;
      free := free - {i};
      forall j: nat | j < totalFrames ensures j in free <==> !Bit(bitmap[..], j) {
        assert j in old(free) <==> !Bit(was, j);
      }
    }

    method MarkFree(i: nat)
      requires Shaped() && i < totalFrames
      modifies this`free, bitmap
      ensures Shaped() && free == old(free) + {i}
    {
      ghost var was := bitmap[..];
      var w := ClearBit(bitmap[i / WORD_BITS], i % WORD_BITS);
      bitmap[i / WORD_BITS] := w;
      free := free + {i};
      forall j: nat | j < totalFrames ensures j in free <==> !Bit(bitmap[..], j) {
        assert j in old(free) <==> !Bit(was, j);
      }
    }

    /** The reserving loops of initialization: mark a range used, counting every frame down. */
    method Reserve(from: nat, to: nat)
      requires Shaped() && from < to <= totalFrames
      modifies this`freeFrames, this`free, bitmap
      ensures Shaped() && free == old(free) - Interval(from, to)
      ensures freeFrames == (old(freeFrames) - (to - from)) % U64
    {
      var i := from;
      while i < to
        invariant from <= i <= to && Shaped() && free == old(free) - Interval(from, i)
        invariant i == from ==> freeFrames == old(freeFrames)
        invariant i > from ==> freeFrames == (old(freeFrames) - (i - from)) % U64
      {
        MarkUsed(i);
        freeFrames := (freeFrames - 1) % U64;
        assert Interval(from, i + 1) == Interval(from, i) + {i} by { assert Between(i, from, i + 1); }
        i := i + 1;
      }
    }

    /** Everything free but the first megabyte, five table frames and the heap at the end. The count agrees
        with the bitmap exactly when the reserved ranges do not overlap. */
    method Initialize(start: nat, size: nat)
      requires bitmap.Length == WORDS && HEAP_FRAMES * PAGE_SIZE <= size && size / PAGE_SIZE <= WORDS * WORD_BITS
      modifies this, bitmap
      ensures memoryStart == start && totalFrames == size / PAGE_SIZE
      ensures Shaped() && free == Interval(LOW_FRAMES + TABLE_FRAMES, totalFrames - HEAP_FRAMES)
      ensures freeFrames == (((totalFrames - LOW_FRAMES) % U64 - HEAP_FRAMES) % U64 - TABLE_FRAMES) % U64
      ensures Valid() <==> LOW_FRAMES + TABLE_FRAMES + HEAP_FRAMES <= totalFrames
    {
      memoryStart := start;
      totalFrames := size / PAGE_SIZE;
      freeFrames := totalFrames;
      ClearWords((totalFrames + 31) / WORD_BITS);
      free := Interval(0, totalFrames);
      forall j: nat | j < totalFrames ensures j in free && !Bit(bitmap[..], j) {
        assert Between(j, 0, totalFrames);
        ZeroHasNoBit(j % WORD_BITS);
      }
      ReserveRanges((size - HEAP_FRAMES * PAGE_SIZE) / PAGE_SIZE);
      CountLeft(totalFrames, freeFrames);
    }

    method ReserveRanges(heap: nat)
      requires Shaped() && HEAP_FRAMES <= totalFrames && heap == totalFrames - HEAP_FRAMES
      requires free == Interval(0, totalFrames)
      modifies this`freeFrames, this`free, bitmap
      ensures Shaped() && free == Interval(LOW_FRAMES + TABLE_FRAMES, totalFrames - HEAP_FRAMES)
      ensures freeFrames == (((old(freeFrames) - LOW_FRAMES) % U64 - HEAP_FRAMES) % U64 - TABLE_FRAMES) % U64
    {
      Reserve(0, LOW_FRAMES);
      Reserve(heap, heap + HEAP_FRAMES);
      Reserve(LOW_FRAMES, LOW_FRAMES + TABLE_FRAMES);
      RangesLeft(totalFrames);
    }

    method ClearWords(n: nat)
      requires n <= bitmap.Length
      modifies bitmap
      ensures forall k | 0 <= k < n :: bitmap[k] == 0
    {
      for i := 0 to n
        invariant forall k | 0 <= k < i :: bitmap[k] == 0
      {
        bitmap[i] := 0;
      }
    }

    /** The lowest free frame, or null when none is free; the scan cannot fall through. */
    method AllocateFrame() returns (frame: nat)
      requires Valid()
      modifies this`freeFrames, this`free, bitmap
      ensures Valid()
      ensures old(free) == {} ==> frame == 0 && free == {}
      ensures old(free) != {} ==>
        exists i :: IsLowest(i, old(free)) && frame == memoryStart + i * PAGE_SIZE && free == old(free) - {i}
    {
      frame := 0;
      if freeFrames == 0 { return; }
      var i := 0;
      while i < totalFrames
        invariant i <= totalFrames && Valid() && free == old(free)
        invariant forall j | 0 <= j < i :: j !in free
      {
        var used := TestFrame(i);
        if !used {
          MarkUsed(i);
          freeFrames := freeFrames - 1;
          assert IsLowest(i, old(free));
          return memoryStart + i * PAGE_SIZE;
        }
        i := i + 1;
      }
    }

    /** Frames outside the managed range are ignored, and freeing a free frame changes nothing. */
    method FreeFrame(frame: nat)
      requires Valid()
      modifies this`freeFrames, this`free, bitmap
      ensures Valid()
      ensures free ==
              old(free) + if memoryStart <= frame < memoryStart + totalFrames * PAGE_SIZE
                          then {(frame - memoryStart) / PAGE_SIZE} else {}
    {
      if frame < memoryStart { return; }
      var i := (frame - memoryStart) / PAGE_SIZE;
      if i >= totalFrames { return; }
      var used := TestFrame(i);
      if used {
        MarkFree(i);
        freeFrames := freeFrames + 1;
      }
    }
  }

  /** Sixteen megabytes: no frame is free, and the counter says 2^64 - 261. */
  method OverlapMiscounts() returns (pmm: PhysicalMemory)
    ensures fresh(pmm) && pmm.free == {} && pmm.freeFrames == U64 - 261 && !pmm.Valid()
  {
    pmm := new PhysicalMemory();
    pmm.Initialize(0, 0x100_0000);
  }
}
