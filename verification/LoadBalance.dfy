/**
  Load balancing between run queues: processes leave the first longest queue for the first shortest one until
  half the difference has moved or nothing more may move.
*/
module LoadBalance {
  import opened Arithmetic
  import opened Scheduler

  const SIZE_MAX := 0xFFFF_FFFF_FFFF_FFFF

  /** The run queue of one CPU; the CPU's id is the queue's position. */
  datatype RunQueue = RunQueue(tasks: seq<Pid>, index: nat)

  predicate Migratable(procs: Procs, p: Pid) { p in procs && procs[p].state != Running && procs[p].priority < 8 }

  function Less(a: nat, b: nat): nat { if a < b then a else b }

  // ---------------------------------------------------------------- what leaves and what stays

  /** The first `m` migratable processes of `q`. */
  function Moved(procs: Procs, q: seq<Pid>, m: nat): seq<Pid> {
    if q == [] || m == 0 then []
    else if Migratable(procs, q[0]) then [q[0]] + Moved(procs, q[1..], m - 1)
    else Moved(procs, q[1..], m)
  }

  /** The rest of `q`. */
  function Kept(procs: Procs, q: seq<Pid>, m: nat): seq<Pid> {
    if q == [] || m == 0 then q
    else if Migratable(procs, q[0]) then Kept(procs, q[1..], m - 1)
    else [q[0]] + Kept(procs, q[1..], m)
  }

  /** The members of `q` that may move, or those that may not, in order. */
  function Those(procs: Procs, q: seq<Pid>, movable: bool): seq<Pid> {
    if q == [] then []
    else (if Migratable(procs, q[0]) == movable then [q[0]] else []) + Those(procs, q[1..], movable)
  }

  ghost predicate Subsequence(a: seq<Pid>, b: seq<Pid>) {
    a == [] || (b != [] && ((a[0] == b[0] && Subsequence(a[1..], b[1..])) || Subsequence(a, b[1..])))
  }

  lemma {:induction false} SubsequenceOfSelf(q: seq<Pid>)
    ensures Subsequence(q, q)
  {
    if q != [] { SubsequenceOfSelf(q[1..]); }
  }

  /** Exactly min(m, number of migratable processes) move, and they are the first ones. */
  lemma {:induction false} MovedAreFirst(procs: Procs, q: seq<Pid>, m: nat)
    ensures var may := Those(procs, q, true); var k := Less(m, |may|);
      && Moved(procs, q, m) == may[..k] && Those(procs, Kept(procs, q, m), true) == may[k..]
  {
    if q != [] && m > 0 {
      var moves := Migratable(procs, q[0]);
      MovedAreFirst(procs, q[1..], if moves then m - 1 else m);
      if !moves { assert ([q[0]] + Kept(procs, q[1..], m))[1..] == Kept(procs, q[1..], m); }
    }
  }

  /** The others keep their order. */
  lemma {:induction false} OthersKeepOrder(procs: Procs, q: seq<Pid>, m: nat)
    ensures Those(procs, Kept(procs, q, m), false) == Those(procs, q, false)
    ensures Subsequence(Kept(procs, q, m), q)
  {
    SubsequenceOfSelf(q);
    if q != [] && m > 0 {
      var moves := Migratable(procs, q[0]);
      OthersKeepOrder(procs, q[1..], if moves then m - 1 else m);
      if !moves { assert ([q[0]] + Kept(procs, q[1..], m))[1..] == Kept(procs, q[1..], m); }
    }
  }

  /** Together they are the queue. */
  lemma {:induction false} SplitLosesNothing(procs: Procs, q: seq<Pid>, m: nat)
    ensures multiset(Moved(procs, q, m)) + multiset(Kept(procs, q, m)) == multiset(q)
    ensures |Moved(procs, q, m)| + |Kept(procs, q, m)| == |q|
  {
    if q != [] && m > 0 {
      SplitLosesNothing(procs, q[1..], if Migratable(procs, q[0]) then m - 1 else m);
      assert q == [q[0]] + q[1..];
    }
  }

  // ---------------------------------------------------------------- draining one queue

  function Retreat(index: nat, i: nat): nat { if index >= i && index > 0 then index - 1 else index }

  /** Let up to `m` migratable processes at positions `i` and later leave, one at a time. */
  function Drained(procs: Procs, r: RunQueue, i: nat, m: nat): RunQueue
    requires i <= |r.tasks|
    decreases |r.tasks| - i
  {
    if i == |r.tasks| || m == 0 then r
    else if Migratable(procs, r.tasks[i])
    then Drained(procs, RunQueue(Without(r.tasks, i), Retreat(r.index, i)), i, m - 1)
    else Drained(procs, r, i + 1, m)
  }

  /** The index is in range, or zero in an empty queue. */
  ghost predicate IndexFits(r: RunQueue) { r.index < |r.tasks| || (r.tasks == [] && r.index == 0) }

  /** Draining keeps exactly the processes that do not move. */
  lemma {:induction false} DrainKeepsTheRest(procs: Procs, r: RunQueue, i: nat, m: nat)
    requires i <= |r.tasks|
    ensures Drained(procs, r, i, m).tasks == r.tasks[..i] + Kept(procs, r.tasks[i..], m)
    decreases |r.tasks| - i
  {
    if i < |r.tasks| && m > 0 {
      assert r.tasks[i..][1..] == r.tasks[i + 1..];
      if Migratable(procs, r.tasks[i]) {
        var next := RunQueue(Without(r.tasks, i), Retreat(r.index, i));
        assert next.tasks[i..] == r.tasks[i + 1..] && next.tasks[..i] == r.tasks[..i];
        DrainKeepsTheRest(procs, next, i, m - 1);
      } else {
        DrainKeepsTheRest(procs, r, i + 1, m);
        assert r.tasks[..i + 1] == r.tasks[..i] + [r.tasks[i]];
      }
    }
  }

  /** If none moves, the queue stays as it is. */
  lemma {:induction false} DrainOfNone(procs: Procs, r: RunQueue, i: nat, m: nat)
    requires i <= |r.tasks| && Moved(procs, r.tasks[i..], m) == []
    ensures Drained(procs, r, i, m) == r
    decreases |r.tasks| - i
  {
    if i < |r.tasks| && m > 0 {
      assert r.tasks[i..][0] == r.tasks[i] && r.tasks[i..][1..] == r.tasks[i + 1..];
      DrainOfNone(procs, r, i + 1, m);
    }
  }

  /** The index is in range in both, and on the same process if that process may not move. */
  ghost predicate Holds(procs: Procs, r: RunQueue, t: RunQueue) {
    IndexFits(r) && IndexFits(t) && (r.tasks != [] && !Migratable(procs, r.tasks[r.index]) ==>
      t.tasks != [] && t.tasks[t.index] == r.tasks[r.index])
  }

  lemma {:induction false} DrainKeepsIndex(procs: Procs, r: RunQueue, i: nat, m: nat)
    requires i <= |r.tasks| && IndexFits(r)
    ensures Holds(procs, r, Drained(procs, r, i, m))
    decreases |r.tasks| - i
  {
    if i < |r.tasks| && m > 0 {
      if Migratable(procs, r.tasks[i]) {
        var next := RunQueue(Without(r.tasks, i), Retreat(r.index, i));
        assert Holds(procs, r, next);
        DrainKeepsIndex(procs, next, i, m - 1);
      } else {
        DrainKeepsIndex(procs, r, i + 1, m);
      }
    }
  }

  // ---------------------------------------------------------------- one round

  function Size(r: RunQueue): nat { |r.tasks| }

  /** The first longest of the first `n` queues. */
  function Longest(rs: seq<RunQueue>, n: nat): (k: nat)
    requires 1 <= n <= |rs|
    ensures k < n
  {
    if n == 1 then 0 else var k := Longest(rs, n - 1); if Size(rs[n - 1]) > Size(rs[k]) then n - 1 else k
  }

  /** The first shortest of the first `n` queues. */
  function Shortest(rs: seq<RunQueue>, n: nat): (k: nat)
    requires 1 <= n <= |rs|
    ensures k < n
  {
    if n == 1 then 0 else var k := Shortest(rs, n - 1); if Size(rs[n - 1]) < Size(rs[k]) then n - 1 else k
  }

  lemma {:induction false} LongestIsFirst(rs: seq<RunQueue>, n: nat, j: nat)
    requires 1 <= n <= |rs| && j < n
    ensures var k := Longest(rs, n); Size(rs[j]) <= Size(rs[k]) && (j < k ==> Size(rs[j]) < Size(rs[k]))
  {
    if n > 1 { LongestIsFirst(rs, n - 1, if j < n - 1 then j else 0); }
  }

  lemma {:induction false} ShortestIsFirst(rs: seq<RunQueue>, n: nat, j: nat)
    requires 1 <= n <= |rs| && j < n
    ensures var k := Shortest(rs, n); Size(rs[k]) <= Size(rs[j]) && (j < k ==> Size(rs[k]) < Size(rs[j]))
  {
    if n > 1 { ShortestIsFirst(rs, n - 1, if j < n - 1 then j else 0); }
  }

  function Gap(rs: seq<RunQueue>): nat
    requires rs != []
  {
    var hi, lo := Longest(rs, |rs|), Shortest(rs, |rs|);
    LongestIsFirst(rs, |rs|, lo);
    Size(rs[hi]) - Size(rs[lo])
  }

  /** Move one process: its first occurrence leaves queue `from`. */
  function Migrated(rs: seq<RunQueue>, p: Pid, from: nat, to: nat): seq<RunQueue> {
    if from == to || from >= |rs| || to >= |rs| then rs
    else
      var r, j := rs[from], IndexOf(rs[from].tasks, p);
      rs[from := if j == |r.tasks| then r else RunQueue(Without(r.tasks, j), Retreat(r.index, j))]
        [to := rs[to].(tasks := rs[to].tasks + [p])]
  }

  /** Up to `m` migratable processes go from queue `hi` to the end of queue `lo`. */
  function MoveBetween(procs: Procs, rs: seq<RunQueue>, hi: nat, lo: nat, m: nat): (t: seq<RunQueue>)
    requires hi < |rs| && lo < |rs|
    ensures |t| == |rs|
  {
    rs[hi := Drained(procs, rs[hi], 0, m)]
      [lo := rs[lo].(tasks := rs[lo].tasks + Moved(procs, rs[hi].tasks, m))]
  }

  function Balanced(procs: Procs, rs: seq<RunQueue>): (t: seq<RunQueue>)
    ensures |t| == |rs|
  {
    if rs == [] || Gap(rs) <= 1 then rs
    else MoveBetween(procs, rs, Longest(rs, |rs|), Shortest(rs, |rs|), Gap(rs) / 2)
  }

  ghost predicate AllFit(rs: seq<RunQueue>) { forall k | 0 <= k < |rs| :: IndexFits(rs[k]) }

  /** Nothing to do: lengths within one of each other, or nothing in the first longest queue may move. */
  ghost predicate Quiet(procs: Procs, rs: seq<RunQueue>) {
    rs == [] || Gap(rs) <= 1 || Those(procs, rs[Longest(rs, |rs|)].tasks, true) == []
  }

  /** How often `p` is queued, over all queues. */
  ghost function Queued(rs: seq<RunQueue>, p: Pid): nat {
    if rs == [] then 0 else multiset(rs[0].tasks)[p] + Queued(rs[1..], p)
  }

  function Square(n: nat): nat { n * n }

  ghost function SumSquares(rs: seq<RunQueue>): nat {
    if rs == [] then 0 else Square(Size(rs[0])) + SumSquares(rs[1..])
  }

  lemma {:induction false} ReplaceTasks(rs: seq<RunQueue>, k: nat, r: RunQueue, p: Pid)
    requires k < |rs|
    ensures Queued(rs[k := r], p) + multiset(rs[k].tasks)[p] == Queued(rs, p) + multiset(r.tasks)[p]
  {
    if k == 0 {
      assert rs[k := r][1..] == rs[1..];
    } else {
      ReplaceTasks(rs[1..], k - 1, r, p);
      assert rs[k := r][1..] == rs[1..][k - 1 := r];
    }
  }

  lemma {:induction false} ReplaceSquare(rs: seq<RunQueue>, k: nat, r: RunQueue)
    requires k < |rs|
    ensures SumSquares(rs[k := r]) + Square(Size(rs[k])) == SumSquares(rs) + Square(Size(r))
  {
    if k == 0 {
      assert rs[k := r][1..] == rs[1..];
    } else {
      ReplaceSquare(rs[1..], k - 1, r);
      assert rs[k := r][1..] == rs[1..][k - 1 := r];
    }
  }

  lemma SquareOfSum(x: nat, m: nat)
    ensures Square(x + m) == Square(x) + 2 * (x * m) + Square(m)
  {
  }

  lemma SquaresDrop(x: nat, b: nat, m: nat)
    requires 0 < m && b < x
    ensures Square(x) + Square(b + m) < Square(x + m) + Square(b)
  {
    SquareOfSum(x, m);
    SquareOfSum(b, m);
    MulGap(b, x, m);
  }

  lemma DrainedWhole(procs: Procs, r: RunQueue, m: nat)
    ensures var d := Drained(procs, r, 0, m);
      d.tasks == Kept(procs, r.tasks, m) && (Moved(procs, r.tasks, m) == [] ==> d == r)
  {
    assert r.tasks[0..] == r.tasks;
    DrainKeepsTheRest(procs, r, 0, m);
    if Moved(procs, r.tasks, m) == [] { DrainOfNone(procs, r, 0, m); }
  }

  lemma MoveConserves(procs: Procs, rs: seq<RunQueue>, hi: nat, lo: nat, m: nat, p: Pid)
    requires hi < |rs| && lo < |rs| && hi != lo
    ensures Queued(MoveBetween(procs, rs, hi, lo, m), p) == Queued(rs, p)
  {
    var d := Drained(procs, rs[hi], 0, m);
    var moved: seq<Pid> := Moved(procs, rs[hi].tasks, m);
    var t := rs[lo].(tasks := rs[lo].tasks + moved);
    DrainedWhole(procs, rs[hi], m);
    SplitLosesNothing(procs, rs[hi].tasks, m);
    ReplaceTasks(rs, hi, d, p);
    ReplaceTasks(rs[hi := d], lo, t, p);
    assert multiset(rs[hi].tasks)[p] == multiset(moved)[p] + multiset(d.tasks)[p];
    assert multiset(t.tasks) == multiset(rs[lo].tasks) + multiset(moved);
  }

  lemma TransferLowers(rs: seq<RunQueue>, hi: nat, d: RunQueue, lo: nat, t: RunQueue, n: nat)
    requires hi < |rs| && lo < |rs| && hi != lo && n > 0
    requires Size(rs[hi]) == Size(d) + n && Size(t) == Size(rs[lo]) + n && Size(rs[lo]) < Size(d)
    ensures SumSquares(rs[hi := d][lo := t]) < SumSquares(rs)
  {
    ReplaceSquare(rs, hi, d);
    ReplaceSquare(rs[hi := d], lo, t);
    SquaresDrop(Size(d), Size(rs[lo]), n);
  }

  lemma MoveNothing(procs: Procs, rs: seq<RunQueue>, hi: nat, lo: nat, m: nat)
    requires hi < |rs| && lo < |rs| && Those(procs, rs[hi].tasks, true) == []
    ensures MoveBetween(procs, rs, hi, lo, m) == rs
  {
    DrainedWhole(procs, rs[hi], m);
    MovedAreFirst(procs, rs[hi].tasks, m);
    assert rs[lo].tasks + [] == rs[lo].tasks;
  }

  lemma MoveLowers(procs: Procs, rs: seq<RunQueue>, hi: nat, lo: nat, m: nat)
    requires hi < |rs| && lo < |rs| && Size(rs[lo]) + 2 * m <= Size(rs[hi]) && m > 0
    requires Those(procs, rs[hi].tasks, true) != []
    ensures SumSquares(MoveBetween(procs, rs, hi, lo, m)) < SumSquares(rs)
  {
    var d, moved := Drained(procs, rs[hi], 0, m), Moved(procs, rs[hi].tasks, m);
    DrainedWhole(procs, rs[hi], m);
    MovedAreFirst(procs, rs[hi].tasks, m);
    SplitLosesNothing(procs, rs[hi].tasks, m);
    TransferLowers(rs, hi, d, lo, rs[lo].(tasks := rs[lo].tasks + moved), |moved|);
  }

  /** `t` is `rs` with the first `n` migratable processes of queue `hi` appended to queue `lo`. */
  ghost predicate Transferred(procs: Procs, rs: seq<RunQueue>, t: seq<RunQueue>, hi: nat, lo: nat, n: nat)
    requires |t| == |rs| && hi < |rs| && lo < |rs|
  {
    var may := Those(procs, rs[hi].tasks, true);
    && n <= |may|
    && (forall k | 0 <= k < |rs| && k != hi && k != lo :: t[k] == rs[k])
    && t[lo] == rs[lo].(tasks := rs[lo].tasks + may[..n])
    && Subsequence(t[hi].tasks, rs[hi].tasks) && Size(t[hi]) == Size(rs[hi]) - n
    && Those(procs, t[hi].tasks, true) == may[n..]
    && Those(procs, t[hi].tasks, false) == Those(procs, rs[hi].tasks, false)
  }

  lemma MoveIsExact(procs: Procs, rs: seq<RunQueue>, hi: nat, lo: nat, m: nat)
    requires hi < |rs| && lo < |rs| && hi != lo
    ensures Transferred(procs, rs, MoveBetween(procs, rs, hi, lo, m), hi, lo,
        Less(m, |Those(procs, rs[hi].tasks, true)|))
  {
    DrainedWhole(procs, rs[hi], m);
    MovedAreFirst(procs, rs[hi].tasks, m);
    OthersKeepOrder(procs, rs[hi].tasks, m);
    SplitLosesNothing(procs, rs[hi].tasks, m);
  }

  /**
    One round touches only the first longest and first shortest queue, moves exactly
    min(half the gap, number of migratable processes) in order, and leaves the order of the rest.
  */
  lemma RoundIsExact(procs: Procs, rs: seq<RunQueue>)
    requires rs != [] && Gap(rs) > 1
    ensures var hi, lo := Longest(rs, |rs|), Shortest(rs, |rs|);
      Transferred(procs, rs, Balanced(procs, rs), hi, lo, Less(Gap(rs) / 2, |Those(procs, rs[hi].tasks, true)|))
  {
    MoveIsExact(procs, rs, Longest(rs, |rs|), Shortest(rs, |rs|), Gap(rs) / 2);
  }

  /** No process is lost or duplicated. */
  lemma RoundConserves(procs: Procs, rs: seq<RunQueue>, p: Pid)
    ensures Queued(Balanced(procs, rs), p) == Queued(rs, p)
  {
    if rs != [] && Gap(rs) > 1 { MoveConserves(procs, rs, Longest(rs, |rs|), Shortest(rs, |rs|), Gap(rs) / 2, p); }
  }

  /** A round changes nothing exactly in a quiet state; otherwise the sum of the squared lengths drops. */
  lemma RoundLowers(procs: Procs, rs: seq<RunQueue>)
    ensures Quiet(procs, rs) ==> Balanced(procs, rs) == rs
    ensures !Quiet(procs, rs) ==> SumSquares(Balanced(procs, rs)) < SumSquares(rs)
  {
    if rs != [] && Gap(rs) > 1 {
      var hi, lo := Longest(rs, |rs|), Shortest(rs, |rs|);
      if Quiet(procs, rs) {
        MoveNothing(procs, rs, hi, lo, Gap(rs) / 2);
      } else {
        MoveLowers(procs, rs, hi, lo, Gap(rs) / 2);
      }
    }
  }

  /** Running, or of priority eight or more. */
  predicate Pinned(procs: Procs, p: Pid) { p in procs && (procs[p].state == Running || procs[p].priority >= 8) }

  lemma {:induction false} PinnedNotMoved(procs: Procs, q: seq<Pid>, m: nat, p: Pid)
    requires Pinned(procs, p)
    ensures p !in Moved(procs, q, m)
  {
    if q != [] && m > 0 { PinnedNotMoved(procs, q[1..], if Migratable(procs, q[0]) then m - 1 else m, p); }
  }

  lemma MoveSparesPinned(procs: Procs, rs: seq<RunQueue>, hi: nat, lo: nat, m: nat, k: nat, p: Pid)
    requires hi < |rs| && lo < |rs| && hi != lo && k < |rs| && Pinned(procs, p)
    ensures multiset(MoveBetween(procs, rs, hi, lo, m)[k].tasks)[p] == multiset(rs[k].tasks)[p]
  {
    var moved: seq<Pid> := Moved(procs, rs[hi].tasks, m);
    PinnedNotMoved(procs, rs[hi].tasks, m, p);
    DrainedWhole(procs, rs[hi], m);
    SplitLosesNothing(procs, rs[hi].tasks, m);
    var kept: seq<Pid> := Kept(procs, rs[hi].tasks, m);
    assert multiset(rs[hi].tasks)[p] == multiset(moved)[p] + multiset(kept)[p];
    assert multiset(rs[lo].tasks + moved) == multiset(rs[lo].tasks) + multiset(moved);
  }

  /** A running process, or one of priority eight or more, never changes its queue, over any number of rounds. */
  lemma {:induction false} PinnedStay(procs: Procs, rs: seq<RunQueue>, n: nat, k: nat, p: Pid)
    requires k < |rs| && Pinned(procs, p)
    ensures |Rounds(procs, rs, n)| == |rs|
    ensures multiset(Rounds(procs, rs, n)[k].tasks)[p] == multiset(rs[k].tasks)[p]
    decreases n
  {
    if n > 0 {
      if rs != [] && Gap(rs) > 1 {
        MoveSparesPinned(procs, rs, Longest(rs, |rs|), Shortest(rs, |rs|), Gap(rs) / 2, k, p);
      }
      PinnedStay(procs, Balanced(procs, rs), n - 1, k, p);
    }
  }

  lemma {:induction false} NoneMayMove(procs: Procs, q: seq<Pid>)
    ensures Those(procs, q, true) == [] <==> forall j | 0 <= j < |q| :: q[j] !in procs || Pinned(procs, q[j])
  {
    if q != [] {
      NoneMayMove(procs, q[1..]);
      if forall j | 0 <= j < |q| :: q[j] !in procs || Pinned(procs, q[j]) {
        assert forall j | 0 <= j < |q[1..]| :: q[1..][j] == q[j + 1];
      }
      if Those(procs, q, true) == [] {
        forall j | 0 <= j < |q| ensures q[j] !in procs || Pinned(procs, q[j]) {
          if j > 0 { assert q[j] == q[1..][j - 1]; }
        }
      }
    }
  }

  /** A round changes something exactly if the lengths differ by two or more and some process of the first longest queue
      is neither running nor of priority eight or more. */
  lemma RoundMoves(procs: Procs, rs: seq<RunQueue>)
    requires rs != []
    ensures Balanced(procs, rs) != rs <==>
      && Size(rs[Longest(rs, |rs|)]) - Size(rs[Shortest(rs, |rs|)]) >= 2
      && exists j :: 0 <= j < Size(rs[Longest(rs, |rs|)]) &&
           var p := rs[Longest(rs, |rs|)].tasks[j]; p in procs && !Pinned(procs, p)
  {
    RoundLowers(procs, rs);
    NoneMayMove(procs, rs[Longest(rs, |rs|)].tasks);
  }

  lemma MoveKeepsIndices(procs: Procs, rs: seq<RunQueue>, hi: nat, lo: nat, m: nat)
    requires AllFit(rs) && hi < |rs| && lo < |rs| && hi != lo
    ensures forall k | 0 <= k < |rs| :: Holds(procs, rs[k], MoveBetween(procs, rs, hi, lo, m)[k])
  {
    DrainKeepsIndex(procs, rs[hi], 0, m);
  }

  /** Every index stays in range and on the process it was on, if that one may not move (a running one, say). */
  lemma RoundKeepsIndices(procs: Procs, rs: seq<RunQueue>)
    requires AllFit(rs)
    ensures forall k | 0 <= k < |rs| :: Holds(procs, rs[k], Balanced(procs, rs)[k])
    ensures AllFit(Balanced(procs, rs))
  {
    if rs != [] && Gap(rs) > 1 { MoveKeepsIndices(procs, rs, Longest(rs, |rs|), Shortest(rs, |rs|), Gap(rs) / 2); }
  }

  // ---------------------------------------------------------------- repeated rounds

  function Rounds(procs: Procs, rs: seq<RunQueue>, n: nat): seq<RunQueue>
    decreases n
  {
    if n == 0 then rs else Rounds(procs, Balanced(procs, rs), n - 1)
  }

  /** Once quiet, always quiet. */
  lemma {:induction false} QuietStays(procs: Procs, rs: seq<RunQueue>, n: nat)
    requires Quiet(procs, rs)
    ensures Rounds(procs, rs, n) == rs
    decreases n
  {
    if n > 0 {
      RoundLowers(procs, rs);
      QuietStays(procs, rs, n - 1);
    }
  }

  /** Rounds settle: after as many as the squared lengths add up to, the state is quiet. */
  lemma {:induction false} RoundsSettle(procs: Procs, rs: seq<RunQueue>, n: nat)
    requires n >= SumSquares(rs)
    ensures Quiet(procs, Rounds(procs, rs, n))
    decreases n
  {
    RoundLowers(procs, rs);
    if Quiet(procs, rs) {
      QuietStays(procs, rs, n);
    } else {
      RoundsSettle(procs, Balanced(procs, rs), n - 1);
    }
  }

  /** And no number of rounds loses or duplicates a process. */
  lemma {:induction false} RoundsConserve(procs: Procs, rs: seq<RunQueue>, n: nat, p: Pid)
    ensures Queued(Rounds(procs, rs, n), p) == Queued(rs, p)
    decreases n
  {
    if n > 0 {
      RoundConserves(procs, rs, p);
      RoundsConserve(procs, Balanced(procs, rs), n - 1, p);
    }
  }

  // ---------------------------------------------------------------- the balancer in place

  /** What two queues come to when up to `left` processes from position `i` of `f` on still go to `t`. */
  ghost function Outcome(procs: Procs, f: RunQueue, t: RunQueue, i: nat, left: nat): (RunQueue, RunQueue)
    requires i <= |f.tasks|
  {
    (Drained(procs, f, i, left), t.(tasks := t.tasks + Moved(procs, f.tasks[i..], left)))
  }

  ghost predicate NoneBefore(procs: Procs, q: seq<Pid>, i: nat)
    requires i <= |q|
  {
    forall k | 0 <= k < i :: !Migratable(procs, q[k])
  }

  lemma OutcomeSkips(procs: Procs, f: RunQueue, t: RunQueue, i: nat, left: nat)
    requires i < |f.tasks| && left > 0 && !Migratable(procs, f.tasks[i])
    ensures Outcome(procs, f, t, i + 1, left) == Outcome(procs, f, t, i, left)
  {
    assert f.tasks[i..] == [f.tasks[i]] + f.tasks[i + 1..];
  }

  /** The first migratable process from `i` on is the first occurrence of its pid. */
  lemma FirstOccurrence(procs: Procs, q: seq<Pid>, i: nat)
    requires i < |q| && Migratable(procs, q[i]) && NoneBefore(procs, q, i)
    ensures IndexOf(q, q[i]) == i
  {}

  function Departed(f: RunQueue, i: nat): RunQueue
    requires i < |f.tasks|
  {
    RunQueue(Without(f.tasks, i), Retreat(f.index, i))
  }

  function Joined(t: RunQueue, p: Pid): RunQueue { t.(tasks := t.tasks + [p]) }

  lemma OutcomeMigrates(procs: Procs, f: RunQueue, t: RunQueue, i: nat, left: nat)
    requires i < |f.tasks| && left > 0 && Migratable(procs, f.tasks[i])
    ensures Outcome(procs, Departed(f, i), Joined(t, f.tasks[i]), i, left - 1) == Outcome(procs, f, t, i, left)
    ensures NoneBefore(procs, f.tasks, i) ==> NoneBefore(procs, Departed(f, i).tasks, i)
  {
    var p, later := f.tasks[i], f.tasks[i + 1..];
    assert f.tasks[i..] == [p] + later;
    assert Without(f.tasks, i)[i..] == later;
    var rest := Moved(procs, later, left - 1);
    assert Moved(procs, f.tasks[i..], left) == [p] + rest;
    assert t.tasks + ([p] + rest) == (t.tasks + [p]) + rest;
  }

  /** One migration between the two queues. */
  lemma MigratedIs(rs: seq<RunQueue>, cur: seq<RunQueue>, hi: nat, lo: nat, f: RunQueue, t: RunQueue, i: nat, p: Pid)
    requires hi < |rs| && lo < |rs| && hi != lo && cur == rs[hi := f][lo := t]
    requires i < |f.tasks| && p == f.tasks[i] && IndexOf(f.tasks, p) == i
    ensures Migrated(cur, p, hi, lo) == rs[hi := Departed(f, i)][lo := Joined(t, p)]
  {
    assert cur[hi] == f && cur[lo] == t;
    var u, goal := Migrated(cur, p, hi, lo), rs[hi := Departed(f, i)][lo := Joined(t, p)];
    assert |u| == |goal| && forall k | 0 <= k < |u| :: u[k] == goal[k];
  }

  lemma OutcomeEnds(procs: Procs, f: RunQueue, t: RunQueue, i: nat, left: nat)
    requires i <= |f.tasks| && (i == |f.tasks| || left == 0)
    ensures Outcome(procs, f, t, i, left) == (f, t)
  {
    assert Moved(procs, f.tasks[i..], left) == [];
    assert t.tasks + [] == t.tasks;
  }

  class Balancer {
    var procs: Procs
    var runqueues: seq<RunQueue>

    /** A vector's length is a machine word. */
    ghost predicate Sized() reads this { forall k | 0 <= k < |runqueues| :: Size(runqueues[k]) < SIZE_MAX }

    /** Take the first occurrence of `p` off queue `from` and append it to queue `to`. */
    method MigrateProcess(p: Pid, from: nat, to: nat)
      modifies this`runqueues
      ensures runqueues == Migrated(old(runqueues), p, from, to)
    {
      if from == to || from >= |runqueues| || to >= |runqueues| { return; }
      var r := runqueues[from];
      var i := 0;
      while i < |r.tasks| && r.tasks[i] != p
        invariant 0 <= i <= |r.tasks| && forall k | 0 <= k < i :: r.tasks[k] != p
      {
        i := i + 1;
      }
      assert i == IndexOf(r.tasks, p);
      if i < |r.tasks| {
        var rest := ShiftedOut(r.tasks, i);
        runqueues := runqueues[from := RunQueue(rest, Retreat(r.index, i))];
      }
      runqueues := runqueues[to := runqueues[to].(tasks := runqueues[to].tasks + [p])];
    }

    /** The first longest and first shortest queue with their lengths; with no queue, the initial values. */
    method Extremes() returns (max: nat, min: nat, hi: nat, lo: nat)
      requires Sized()
      ensures runqueues == [] ==> max == 0 && min == SIZE_MAX
      ensures runqueues != [] ==>
        && hi == Longest(runqueues, |runqueues|) && lo == Shortest(runqueues, |runqueues|)
        && max == Size(runqueues[hi]) && min == Size(runqueues[lo])
    {
      max, min, hi, lo := 0, SIZE_MAX, 0, 0;
      var i := 0;
      while i < |runqueues|
        invariant 0 <= i <= |runqueues|
        invariant i == 0 ==> max == 0 && min == SIZE_MAX && hi == 0 && lo == 0
        invariant i > 0 ==> hi == Longest(runqueues, i) && lo == Shortest(runqueues, i)
        invariant i > 0 ==> max == Size(runqueues[hi]) && min == Size(runqueues[lo])
      {
        var size := |runqueues[i].tasks|;
        assert size == Size(runqueues[i]);
        if size > max { max, hi := size, i; }
        assert hi == Longest(runqueues, i + 1);
        if size < min { min, lo := size, i; }
        assert lo == Shortest(runqueues, i + 1);
        i := i + 1;
      }
    }

    method LoadBalance()
      requires Sized()
      modifies this`runqueues
      ensures runqueues == Balanced(procs, old(runqueues))
    {
      var max, min, hi, lo := Extremes();
      var gap := (max - min) % (SIZE_MAX + 1);
      if gap <= 1 { return; }
      assert runqueues != [];
      MoveSome(hi, lo, gap / 2);
    }

    method MoveSome(hi: nat, lo: nat, toMove: nat)
      requires hi != lo && hi < |runqueues| && lo < |runqueues| && Size(runqueues[hi]) < SIZE_MAX
      modifies this`runqueues
      ensures runqueues == MoveBetween(procs, old(runqueues), hi, lo, toMove)
    {
      ghost var rs := runqueues;
      ghost var f, t, j: nat, left := rs[hi], rs[lo], 0, toMove;
      ghost var outcome := Outcome(procs, f, t, 0, toMove);
      assert f.tasks[0..] == f.tasks;
      var moved: nat, i: nat := 0, 0;
      while i < |runqueues[hi].tasks| && moved < toMove
        invariant i == j <= |f.tasks| < SIZE_MAX && moved + left == toMove && runqueues == rs[hi := f][lo := t]
        invariant Outcome(procs, f, t, j, left) == outcome && NoneBefore(procs, f.tasks, j)
        decreases |f.tasks| - j
      {
        assert runqueues[hi] == f;
        var p := runqueues[hi].tasks[i];
        if Migratable(procs, p) {
          OutcomeMigrates(procs, f, t, j, left);
          MoveOne(p, hi, lo, rs, f, t, j);
          f, t, left := Departed(f, j), Joined(t, p), left - 1;
          moved := moved + 1;
          i := if i == 0 then SIZE_MAX else i - 1;
        } else {
          OutcomeSkips(procs, f, t, j, left);
          j := j + 1;
        }
        i := if i == SIZE_MAX then 0 else i + 1;
      }
      OutcomeEnds(procs, f, t, j, left);
    }

    /** Migrate the process at position `j` of queue `hi`, before which none may move. */
    method MoveOne(p: Pid, hi: nat, lo: nat, ghost rs: seq<RunQueue>, ghost f: RunQueue, ghost t: RunQueue,
        ghost j: nat)
      requires hi != lo && hi < |rs| && lo < |rs| && runqueues == rs[hi := f][lo := t]
      requires j < |f.tasks| && p == f.tasks[j] && Migratable(procs, p) && NoneBefore(procs, f.tasks, j)
      modifies this`runqueues
      ensures runqueues == rs[hi := Departed(f, j)][lo := Joined(t, p)]
    {
      FirstOccurrence(procs, f.tasks, j);
      MigratedIs(rs, runqueues, hi, lo, f, t, j, p);
      MigrateProcess(p, hi, lo);
    }
  }
}
