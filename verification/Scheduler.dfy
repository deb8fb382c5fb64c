/**
  The round-robin scheduler of one CPU and the process table it serves: a run queue with a rotating index, a
  time slice, the process the queue runs and the process the table calls current.
*/
module Scheduler {
  import opened Options

  const DEFAULT_TIME_SLICE := 5

  type Pid = nat
  datatype RunState = Running | Stopped | Zombie | Ready | Waiting
  datatype Proc = Proc(state: RunState, priority: nat, runtime: nat)
  type Procs = map<Pid, Proc>

  /**
    The process table (newest first) with its current process, and the run queue with its index, slice and
    running process.
  */
  datatype Sys = Sys(
    procs: Procs, list: seq<Pid>, running: Option<Pid>, nextPid: nat,
    queue: seq<Pid>, index: nat, slice: nat, current: Option<Pid>, resched: bool)

  predicate IsReady(procs: Procs, p: Pid) { p in procs && procs[p].state == Ready }

  function SetState(procs: Procs, p: Pid, st: RunState): (r: Procs)
    ensures r.Keys == procs.Keys
  {
    if p in procs then procs[p := procs[p].(state := st)] else procs
  }

  // ---------------------------------------------------------------- the rotating scan

  /** Position `d` steps after `i` around a queue of `n`. */
  function Ahead(i: nat, d: nat, n: nat): nat { if i + d < n then i + d else i + d - n }

  /** The first of the steps `d` to `n` from `i` that meets a ready process, or n + 1. */
  function FirstReady(procs: Procs, q: seq<Pid>, i: nat, d: nat): (r: nat)
    requires i < |q| && 1 <= d <= |q| + 1
    ensures d <= r <= |q| + 1
    ensures r <= |q| ==> IsReady(procs, q[Ahead(i, r, |q|)])
    ensures forall e {:trigger Ahead(i, e, |q|)} | d <= e < r && e <= |q| :: !IsReady(procs, q[Ahead(i, e, |q|)])
    decreases |q| + 1 - d
  {
    if d == |q| + 1 then d
    else if IsReady(procs, q[Ahead(i, d, |q|)]) then d
    else FirstReady(procs, q, i, d + 1)
  }

  /** How many steps from `i` to position `j`, at least one. */
  function Distance(i: nat, j: nat, n: nat): (d: nat)
    requires i < n && j < n
    ensures 1 <= d <= n && Ahead(i, d, n) == j
  {
    if i < j then j - i else j + n - i
  }

  /** The scan finds nothing exactly when nothing in the queue is ready. */
  lemma ScanFindsReady(procs: Procs, q: seq<Pid>, i: nat)
    requires i < |q|
    ensures FirstReady(procs, q, i, 1) == |q| + 1 <==> forall j | 0 <= j < |q| :: !IsReady(procs, q[j])
  {
    var r := FirstReady(procs, q, i, 1);
    if r == |q| + 1 {
      forall j: nat | j < |q| ensures !IsReady(procs, q[j]) {
        var d := Distance(i, j, |q|);
        assert Ahead(i, d, |q|) == j;
      }
    }
  }

  // ---------------------------------------------------------------- scheduling

  /** Only the processes' states and the choice of process differ. */
  predicate SameTable(s: Sys, t: Sys) {
    t.procs.Keys == s.procs.Keys && t.list == s.list && t.queue == s.queue && t.nextPid == s.nextPid
  }

  /** Make `p` the table's current process; the old one, if still running, becomes ready. */
  function SwitchTo(s: Sys, p: Pid): (t: Sys)
    ensures SameTable(s, t) && t.index == s.index && t.slice == s.slice && t.current == s.current
  {
    if p !in s.procs || (s.procs[p].state != Running && s.procs[p].state != Ready) || s.running == Some(p) then s
    else
      var demoted := if s.running.Some? && s.running.value in s.procs && s.procs[s.running.value].state == Running
                     then SetState(s.procs, s.running.value, Ready) else s.procs;
      s.(running := Some(p), procs := SetState(demoted, p, Running))
  }

  /** Give the CPU to `p` for a whole slice; the process it had becomes ready. */
  function Dispatch(s: Sys, p: Pid): (t: Sys)
    ensures SameTable(s, t) && t.index == s.index && t.slice == DEFAULT_TIME_SLICE && t.current == Some(p)
  {
    var demoted := if s.current.Some? then SetState(s.procs, s.current.value, Ready) else s.procs;
    SwitchTo(s.(slice := DEFAULT_TIME_SLICE, current := Some(p), procs := SetState(demoted, p, Running)), p)
  }

  function Schedule(s: Sys): (t: Sys)
    requires s.index < |s.queue| || s.queue == []
    ensures SameTable(s, t) && (t.index < |t.queue| || t.queue == [])
  {
    if s.queue == [] then s
    else
      var d := FirstReady(s.procs, s.queue, s.index, 1);
      if d == |s.queue| + 1 then s
      else
        var i := Ahead(s.index, d, |s.queue|);
        var p := s.queue[i];
        if s.current == Some(p) then s.(index := i) else Dispatch(s.(index := i), p)
  }

  /** One more tick of CPU time on the account of `c`. */
  function Charged(procs: Procs, c: Pid): (r: Procs)
    requires c in procs
    ensures r.Keys == procs.Keys
    ensures forall p | p in procs :: r[p].state == procs[p].state && r[p].priority == procs[p].priority
  {
    procs[c := procs[c].(runtime := procs[c].runtime + 1)]
  }

  /** One timer tick, with interrupts enabled or not. */
  function Tick(s: Sys, interrupts: bool): (t: Sys)
    requires s.index < |s.queue| || s.queue == []
    ensures SameTable(s, t) && (t.index < |t.queue| || t.queue == [])
  {
    if !interrupts || s.current.None? || s.current.value !in s.procs then s
    else
      var c := s.current.value;
      var t := s.(procs := Charged(s.procs, c));
      if s.procs[c].priority >= 9 then t
      else
        var slice := if s.slice > 0 then s.slice - 1 else 0;
        if slice > 0 then t.(slice := slice) else Schedule(t.(slice := 0, resched := true))
  }

  // ---------------------------------------------------------------- bounded waiting

  function Ticks(s: Sys, n: nat): Sys
    requires s.index < |s.queue| || s.queue == []
    ensures Ticks(s, n).index < |Ticks(s, n).queue| || Ticks(s, n).queue == []
    decreases n
  {
    if n == 0 then s else Ticks(Tick(s, true), n - 1)
  }

  ghost predicate NoDuplicates(q: seq<Pid>) { forall i, j | 0 <= i < j < |q| :: q[i] != q[j] }

  /** Process `p` waits at position `j`: it is ready, and another process is running. */
  ghost predicate Waits(s: Sys, p: Pid, j: nat) {
    && j < |s.queue| && s.queue[j] == p && IsReady(s.procs, p) && s.index < |s.queue| && NoDuplicates(s.queue)
    && s.slice <= DEFAULT_TIME_SLICE
    && s.current.Some? && s.current.value in s.procs && s.procs[s.current.value].state == Running
    && s.running == s.current
  }

  /** A tick leaves a process of this priority on the CPU. */
  predicate Stubborn(procs: Procs, p: Pid) { p in procs && procs[p].priority >= 9 }

  /** The process `e` steps after the index, if the scan would stop there. */
  ghost predicate BlocksAt(s: Sys, e: nat)
    requires s.index < |s.queue| && 1 <= e <= |s.queue|
  {
    var q := s.queue[Ahead(s.index, e, |s.queue|)];
    IsReady(s.procs, q) && Stubborn(s.procs, q)
  }

  /** Neither the running process nor a ready one ahead of position `j` keeps the CPU for good. */
  ghost predicate ClearWay(s: Sys, j: nat)
    requires s.index < |s.queue| && j < |s.queue| && s.current.Some?
  {
    && !Stubborn(s.procs, s.current.value)
    && forall e: nat | 1 <= e < Distance(s.index, j, |s.queue|) :: !BlocksAt(s, e)
  }

  /** Ticks until `p` at position `j` must have run. */
  function Patience(s: Sys, j: nat): nat
    requires s.index < |s.queue| && j < |s.queue|
  {
    DEFAULT_TIME_SLICE * (Distance(s.index, j, |s.queue|) - 1) + if s.slice > 1 then s.slice else 1
  }

  /** Steps around the queue add up. */
  lemma AheadAdds(i: nat, r: nat, e: nat, n: nat)
    requires i < n && 1 <= r && 1 <= e && r + e <= n
    ensures Ahead(i, r, n) < n && Ahead(Ahead(i, r, n), e, n) == Ahead(i, r + e, n)
    ensures Ahead(i, r, n) != Ahead(i, r + e, n)
  {}

  /** What a scheduling does when `p` waits: the process `r` steps ahead runs, and only it and the one that ran
      change state. */
  lemma ScheduleWhenWaiting(s: Sys, p: Pid, j: nat, r: nat)
    requires Waits(s, p, j) && r == FirstReady(s.procs, s.queue, s.index, 1)
    ensures r <= Distance(s.index, j, |s.queue|)
    ensures var t, c, q := Schedule(s), s.current.value, s.queue[Ahead(s.index, r, |s.queue|)];
      && t.queue == s.queue && t.index == Ahead(s.index, r, |s.queue|) && t.current == Some(q) && q in s.procs && q != c
      && t.slice == DEFAULT_TIME_SLICE && t.procs.Keys == s.procs.Keys
      && (forall x | x in s.procs :: t.procs[x].priority == s.procs[x].priority)
      && t.procs[q].state == Running && t.running == t.current
      && (forall x | x in s.procs && x != q && x != c :: t.procs[x].state == s.procs[x].state)
  {
    var d := Distance(s.index, j, |s.queue|);
    assert Ahead(s.index, d, |s.queue|) == j;
  }

  /** If that process is before `p`, then `p` goes on waiting, as much nearer. */
  lemma ScheduleKeepsWaiting(s: Sys, p: Pid, j: nat, r: nat)
    requires Waits(s, p, j) && r == FirstReady(s.procs, s.queue, s.index, 1) < Distance(s.index, j, |s.queue|)
    ensures var t := Schedule(s);
      && t.current != Some(p) && Waits(t, p, j)
      && Distance(t.index, j, |s.queue|) == Distance(s.index, j, |s.queue|) - r
  {
    ScheduleWhenWaiting(s, p, j, r);
    AheadAdds(s.index, r, Distance(s.index, j, |s.queue|) - r, |s.queue|);
  }

  lemma ScheduleBringsNearer(s: Sys, p: Pid, j: nat)
    requires Waits(s, p, j) && ClearWay(s, j)
    ensures var t := Schedule(s);
      || t.current == Some(p)
      || (Waits(t, p, j) && ClearWay(t, j) && t.queue == s.queue && t.slice == DEFAULT_TIME_SLICE &&
          Distance(t.index, j, |t.queue|) < Distance(s.index, j, |s.queue|))
  {
    var n, r, d := |s.queue|, FirstReady(s.procs, s.queue, s.index, 1), Distance(s.index, j, |s.queue|);
    var t := Schedule(s);
    ScheduleWhenWaiting(s, p, j, r);
    if r < d {
      ScheduleKeepsWaiting(s, p, j, r);
      assert !BlocksAt(s, r);
      forall e: nat | 1 <= e < d - r ensures !BlocksAt(t, e) {
        AheadAdds(s.index, r, e, n);
        assert !BlocksAt(s, r + e);
      }
    }
  }

  /** Each tick either runs `p` or brings it nearer. */
  lemma TickBringsNearer(s: Sys, p: Pid, j: nat)
    requires Waits(s, p, j) && ClearWay(s, j)
    ensures var t := Tick(s, true);
      || t.current == Some(p)
      || (Waits(t, p, j) && ClearWay(t, j) && t.queue == s.queue && Patience(t, j) < Patience(s, j))
  {
    if s.slice <= 1 {
      var u := Charge(s).(slice := 0, resched := true);
      ChargeKeepsWaiting(s, p, j, u);
      ScheduleBringsNearer(u, p, j);
    } else {
      ChargeKeepsWaiting(s, p, j, Charge(s).(slice := s.slice - 1));
    }
  }

  /** The tick's bookkeeping before any scheduling. */
  function Charge(s: Sys): Sys
    requires s.current.Some? && s.current.value in s.procs
  {
    s.(procs := Charged(s.procs, s.current.value))
  }

  lemma ChargeKeepsWaiting(s: Sys, p: Pid, j: nat, u: Sys)
    requires Waits(s, p, j) && u.slice <= DEFAULT_TIME_SLICE
    requires u == Charge(s).(slice := u.slice, resched := u.resched)
    ensures Waits(u, p, j) && (ClearWay(u, j) <==> ClearWay(s, j))
  {
    assert forall e: nat | 1 <= e <= |s.queue| :: BlocksAt(u, e) <==> BlocksAt(s, e);
  }

  /** Bounded waiting: with a clear way, `p` is running within five ticks for every place in the queue. */
  lemma {:induction false} EveryReadyProcessRuns(s: Sys, p: Pid, j: nat)
    requires Waits(s, p, j) && ClearWay(s, j)
    ensures Patience(s, j) <= DEFAULT_TIME_SLICE * |s.queue|
    ensures exists k: nat :: 1 <= k <= Patience(s, j) && Ticks(s, k).current == Some(p)
    decreases Patience(s, j)
  {
    var t := Tick(s, true);
    TickBringsNearer(s, p, j);
    if t.current == Some(p) {
      assert Ticks(s, 1) == Ticks(t, 0) == t;
    } else {
      EveryReadyProcessRuns(t, p, j);
      var k: nat :| 1 <= k <= Patience(t, j) && Ticks(t, k).current == Some(p);
      assert Ticks(s, k + 1) == Ticks(t, k);
    }
  }

  /** A stubborn process ahead is still ahead after a scheduling, or runs. */
  lemma BlockerStays(s: Sys, p: Pid, j: nat, r: nat, e: nat)
    requires Waits(s, p, j) && r == FirstReady(s.procs, s.queue, s.index, 1)
    requires 1 <= e < Distance(s.index, j, |s.queue|) && BlocksAt(s, e)
    ensures var t := Schedule(s);
      && r <= e && t.index < |t.queue| == |s.queue| && t.current.Some?
      && (r == e ==> Stubborn(t.procs, t.current.value))
      && (r < e ==> BlocksAt(t, e - r))
  {
    assert Ahead(s.index, e, |s.queue|) < |s.queue|;
    ScheduleWhenWaiting(s, p, j, r);
    if r < e { AheadAdds(s.index, r, e - r, |s.queue|); }
  }

  lemma ScheduleKeepsBlocked(s: Sys, p: Pid, j: nat)
    requires Waits(s, p, j) && !ClearWay(s, j) && !Stubborn(s.procs, s.current.value)
    ensures var t := Schedule(s); t.current != Some(p) && Waits(t, p, j) && !ClearWay(t, j)
  {
    var r := FirstReady(s.procs, s.queue, s.index, 1);
    var e: nat :| 1 <= e < Distance(s.index, j, |s.queue|) && BlocksAt(s, e);
    BlockerStays(s, p, j, r, e);
    ScheduleKeepsWaiting(s, p, j, r);
  }

  /** Without one, no tick brings it any nearer to running. */
  lemma TickKeepsBlocked(s: Sys, p: Pid, j: nat)
    requires Waits(s, p, j) && !ClearWay(s, j)
    ensures var t := Tick(s, true); t.current != Some(p) && Waits(t, p, j) && !ClearWay(t, j)
  {
    if Stubborn(s.procs, s.current.value) {
      ChargeKeepsWaiting(s, p, j, Charge(s));
    } else if s.slice > 1 {
      ChargeKeepsWaiting(s, p, j, Charge(s).(slice := s.slice - 1));
    } else {
      var u := Charge(s).(slice := 0, resched := true);
      ChargeKeepsWaiting(s, p, j, u);
      ScheduleKeepsBlocked(u, p, j);
    }
  }

  lemma {:induction false} BlockedNeverRuns(s: Sys, p: Pid, j: nat, k: nat)
    requires Waits(s, p, j) && !ClearWay(s, j)
    ensures Ticks(s, k).current != Some(p) && IsReady(Ticks(s, k).procs, p)
    decreases k
  {
    if k > 0 {
      TickKeepsBlocked(s, p, j);
      BlockedNeverRuns(Tick(s, true), p, j, k - 1);
    }
  }

  // ---------------------------------------------------------------- the process table

  const DEFAULT_PRIORITY := 5

  const BOOT: Sys := Sys(map[], [], None, 1, [], 0, DEFAULT_TIME_SLICE, None, false)

  function Without<T>(q: seq<T>, j: nat): seq<T> requires j < |q| { q[..j] + q[j + 1..] }

  function IndexOf(q: seq<Pid>, p: Pid): (j: nat)
    ensures j <= |q| && (j < |q| ==> q[j] == p)
    ensures forall k | 0 <= k < j :: q[k] != p
    ensures j < |q| <==> p in q
  {
    if q == [] || q[0] == p then 0 else 1 + IndexOf(q[1..], p)
  }

  /** Queue a process once. */
  function Added(s: Sys, p: Pid): Sys {
    if p in s.queue then s else s.(procs := SetState(s.procs, p, Ready), queue := s.queue + [p])
  }

  /** Take a process off the queue; the index steps back with the processes it counted. */
  function Removed(s: Sys, p: Pid): (t: Sys)
    requires s.index < |s.queue| || s.queue == []
    ensures t.index < |t.queue| || t.queue == []
  {
    var j := IndexOf(s.queue, p);
    if j == |s.queue| then s
    else
      s.(queue := Without(s.queue, j),
         index := if s.index >= j && s.index > 0 then s.index - 1 else s.index,
         current := if s.current == Some(p) then None else s.current,
         resched := s.resched || s.current == Some(p))
  }

  function Create(s: Sys): Sys {
    var p := s.nextPid;
    Added(s.(procs := s.procs[p := Proc(Ready, DEFAULT_PRIORITY, 0)], list := [p] + s.list, nextPid := p + 1,
             running := if s.running.None? then Some(p) else s.running), p)
  }

  /** The process leaves the list, the queue and the table. */
  function Reaped(s: Sys, p: Pid): (t: Sys)
    requires s.index < |s.queue| || s.queue == []
    requires p in s.list
    ensures t.index < |t.queue| || t.queue == []
  {
    var u := Removed(s.(list := Without(s.list, IndexOf(s.list, p))), p);
    u.(procs := u.procs - {p})
  }

  /** The table's current process, if it leaves, is replaced by the newest. */
  function Reassigned(s: Sys, p: Pid): (t: Sys)
    requires s.index < |s.queue| || s.queue == []
    requires p in s.list
    ensures t.index < |t.queue| || t.queue == []
  {
    var t := Reaped(s, p);
    t.(running := if s.running != Some(p) then s.running else if t.list == [] then None else Some(t.list[0]))
  }

  function Terminate(s: Sys, p: Pid): Sys
    requires s.index < |s.queue| || s.queue == []
  {
    if p !in s.list then s
    else
      var t := Reassigned(s, p);
      if s.running == Some(p) && t.running.Some? then Schedule(t) else t
  }

  function Prioritised(s: Sys, p: Pid, priority: nat): Sys {
    if p !in s.procs then s
    else s.(procs := s.procs[p := s.procs[p].(priority := if priority > 10 then 10 else priority)])
  }

  // ---------------------------------------------------------------- every run

  datatype Op =
    | CreateProcess | TerminateProcess(pid: Pid) | ScheduleNow | TimerTick(interrupts: bool)
    | SetPriority(pid: Pid, priority: nat)

  ghost predicate Mirrors(queue: seq<Pid>, list: seq<Pid>) {
    |queue| == |list| && forall k | 0 <= k < |queue| :: queue[k] == list[|list| - 1 - k]
  }

  /** The queue is the table reversed, and its index is in range. */
  ghost predicate Listed(s: Sys) {
    && Mirrors(s.queue, s.list) && NoDuplicates(s.queue)
    && (forall p :: p in s.procs.Keys <==> p in s.queue)
    && (forall p | p in s.procs.Keys :: p < s.nextPid)
    && (s.index < |s.queue| || (s.queue == [] && s.index == 0))
    && s.slice <= DEFAULT_TIME_SLICE
  }

  /** At most one process is running: the queue's, which is the table's current process. */
  ghost predicate OneRuns(s: Sys) {
    && (s.running.None? <==> s.queue == [])
    && (s.running.Some? ==> s.running.value in s.procs)
    && (s.current.Some? ==> s.current == s.running)
    && (forall p | p in s.procs :: s.procs[p].state == if s.current == Some(p) then Running else Ready)
  }

  ghost predicate Coherent(s: Sys) { Listed(s) && OneRuns(s) }

  function Step(s: Sys, op: Op): Sys
    requires s.index < |s.queue| || s.queue == []
  {
    match op
    case CreateProcess => Create(s)
    case TerminateProcess(p) => Terminate(s, p)
    case ScheduleNow => Schedule(s)
    case TimerTick(interrupts) => Tick(s, interrupts)
    case SetPriority(p, priority) => Prioritised(s, p, priority)
  }

  ghost function Run(s: Sys, ops: seq<Op>): (t: Sys)
    requires Coherent(s)
    ensures Coherent(t)
    decreases |ops|
  {
    if ops == [] then s else StepKeeps(s, ops[0]); Run(Step(s, ops[0]), ops[1..])
  }

  lemma CreateKeeps(s: Sys)
    requires Coherent(s)
    ensures Coherent(Create(s))
  {
    assert s.nextPid !in s.procs;
  }

  lemma DispatchKeeps(s: Sys, p: Pid)
    requires OneRuns(s) && s.queue != [] && p in s.procs && s.current != Some(p)
    ensures OneRuns(Dispatch(s, p))
  {
  }

  /** Scheduling keeps the table, and runs something whenever anything is ready. */
  lemma ScheduleKeeps(s: Sys)
    requires Coherent(s)
    ensures Coherent(Schedule(s))
    ensures s.queue != [] ==> Schedule(s).current.Some?
    ensures Schedule(s).current == s.current <==> forall j | 0 <= j < |s.queue| :: !IsReady(s.procs, s.queue[j])
  {
    if s.queue != [] {
      ScanFindsReady(s.procs, s.queue, s.index);
      assert s.queue[0] in s.procs;
      var d := FirstReady(s.procs, s.queue, s.index, 1);
      if d <= |s.queue| {
        var i := Ahead(s.index, d, |s.queue|);
        DispatchKeeps(s.(index := i), s.queue[i]);
      }
    }
  }

  lemma WithoutOne(q: seq<Pid>, j: nat)
    requires j < |q| && NoDuplicates(q)
    ensures NoDuplicates(Without(q, j))
    ensures forall x :: x in Without(q, j) <==> x in q && x != q[j]
  {
    forall x | x in q && x != q[j] ensures x in Without(q, j) {
      var k :| 0 <= k < |q| && q[k] == x;
      assert Without(q, j)[if k < j then k else k - 1] == x;
    }
  }

  lemma RemovalKeepsMirror(q: seq<Pid>, l: seq<Pid>, p: Pid)
    requires Mirrors(q, l) && NoDuplicates(q)
    ensures p in l <==> p in q
    ensures p in q ==> Mirrors(Without(q, IndexOf(q, p)), Without(l, IndexOf(l, p)))
  {
    var i, j := IndexOf(l, p), IndexOf(q, p);
    assert j < |q| ==> l[|l| - 1 - j] == p;
    assert i < |l| ==> q[|l| - 1 - i] == p;
    if j < |q| { MirrorWithout(q, l, j, i); }
  }

  lemma MirrorWithout(q: seq<Pid>, l: seq<Pid>, j: nat, i: nat)
    requires Mirrors(q, l) && j < |q| && i + j + 1 == |l|
    ensures Mirrors(Without(q, j), Without(l, i))
  {}

  lemma ReapKeeps(s: Sys, p: Pid)
    requires Coherent(s) && p in s.list
    ensures Listed(Reaped(s, p)) && Reaped(s, p).procs == s.procs - {p}
    ensures Reaped(s, p).current == if s.current == Some(p) then None else s.current
    ensures Reaped(s, p).running == s.running
  {
    RemovalKeepsMirror(s.queue, s.list, p);
    WithoutOne(s.queue, IndexOf(s.queue, p));
  }

  lemma ReassignRuns(s: Sys, p: Pid, t: Sys, u: Sys)
    requires Coherent(s) && p in s.list && t == Reaped(s, p) && u == Reassigned(s, p)
    requires Listed(t) && t.procs == s.procs - {p} && t.running == s.running
    requires t.current == if s.current == Some(p) then None else s.current
    ensures OneRuns(u)
  {
    assert t.list != [] ==> t.list[0] == t.queue[|t.queue| - 1];
    assert t.list == [] <==> t.queue == [];
  }

  lemma ReassignKeeps(s: Sys, p: Pid)
    requires Coherent(s) && p in s.list
    ensures Coherent(Reassigned(s, p)) && Reassigned(s, p).procs.Keys == s.procs.Keys - {p}
  {
    var t, u := Reaped(s, p), Reassigned(s, p);
    ReapKeeps(s, p);
    ReassignRuns(s, p, t, u);
    assert u == t.(running := u.running);
  }

  lemma TerminateKeeps(s: Sys, p: Pid)
    requires Coherent(s)
    ensures Coherent(Terminate(s, p))
    ensures Terminate(s, p).procs.Keys == s.procs.Keys - {p}
  {
    RemovalKeepsMirror(s.queue, s.list, p);
    if p in s.list {
      ReassignKeeps(s, p);
      ScheduleKeeps(Reassigned(s, p));
    }
  }

  lemma TickKeeps(s: Sys, interrupts: bool)
    requires Coherent(s)
    ensures Coherent(Tick(s, interrupts))
  {
    if interrupts && s.current.Some? {
      var c := s.current.value;
      var t := s.(procs := Charged(s.procs, c));
      assert Coherent(t);
      if s.procs[c].priority < 9 && s.slice <= 1 {
        ScheduleKeeps(t.(slice := 0, resched := true));
        assert Tick(s, interrupts) == Schedule(t.(slice := 0, resched := true));
      } else {
        assert Tick(s, interrupts) == t || Tick(s, interrupts) == t.(slice := s.slice - 1);
      }
    }
  }

  lemma StepKeeps(s: Sys, op: Op)
    requires Coherent(s)
    ensures Coherent(Step(s, op))
  {
    match op
    case CreateProcess => CreateKeeps(s);
    case TerminateProcess(p) => TerminateKeeps(s, p);
    case ScheduleNow => ScheduleKeeps(s);
    case TimerTick(interrupts) => TickKeeps(s, interrupts);
    case SetPriority(p, priority) =>
  }

  /**
    After any history of creations, terminations, schedulings and ticks: at most one process is running and it
    is the table's current one; the queue is the process list reversed, without repetition.
  */
  lemma RunFromBoot(ops: seq<Op>)
    ensures var s := Run(BOOT, ops);
      && (forall p | p in s.procs && s.procs[p].state == Running :: s.running == Some(p) && s.current == Some(p))
      && Mirrors(s.queue, s.list) && NoDuplicates(s.queue)
      && (s.current.Some? ==> s.current.value in s.queue)
      && (s.index < |s.queue| || (s.queue == [] && s.index == 0))
  {
    assert Coherent(BOOT);
  }

  /**
    Fairness in every reachable state in which another process runs: with ticks alone, `p` comes to run if and
    only if neither the running process nor a ready one ahead of it has priority nine or more; and then within
    five ticks for every process queued.
  */
  lemma EveryProcessGetsItsTurn(ops: seq<Op>, p: Pid)
    requires var s := Run(BOOT, ops); p in s.procs && s.current.Some? && s.current != Some(p)
    ensures var s := Run(BOOT, ops); var j := IndexOf(s.queue, p);
      && j < |s.queue|
      && ((exists k: nat :: Ticks(s, k).current == Some(p)) <==> ClearWay(s, j))
      && (ClearWay(s, j) ==>
            exists k: nat :: 1 <= k <= DEFAULT_TIME_SLICE * |s.queue| && Ticks(s, k).current == Some(p))
  {
    var s := Run(BOOT, ops);
    var j := IndexOf(s.queue, p);
    assert Waits(s, p, j);
    if ClearWay(s, j) {
      EveryReadyProcessRuns(s, p, j);
    } else {
      forall k: nat ensures Ticks(s, k).current != Some(p) { BlockedNeverRuns(s, p, j, k); }
    }
  }

  // ---------------------------------------------------------------- accounts

  /** The tick that an operation charges to `p`. */
  function Charge1(s: Sys, op: Op, p: Pid): nat { if op == TimerTick(true) && s.current == Some(p) then 1 else 0 }

  /** The same processes with the same priorities and runtimes. */
  ghost predicate SameAccounts(procs: Procs, procs': Procs) {
    && procs'.Keys == procs.Keys
    && forall p | p in procs :: procs'[p].priority == procs[p].priority && procs'[p].runtime == procs[p].runtime
  }

  lemma ScheduleKeepsAccounts(s: Sys)
    requires s.index < |s.queue| || s.queue == []
    ensures SameAccounts(s.procs, Schedule(s).procs)
  {}

  lemma ScheduleChooses(s: Sys)
    requires s.index < |s.queue| || s.queue == []
    ensures var t := Schedule(s);
      && t.resched == s.resched
      && ((exists j :: 0 <= j < |s.queue| && IsReady(s.procs, s.queue[j])) ==>
            t.index < |t.queue| && t.current == Some(t.queue[t.index]) && IsReady(s.procs, t.queue[t.index]))
      && ((forall j | 0 <= j < |s.queue| :: !IsReady(s.procs, s.queue[j])) ==> t == s)
      && (t.current != s.current ==>
            t.slice == 5 && t.current.Some? && t.current.value in t.procs && t.procs[t.current.value].state == Running)
  {
    if s.queue != [] { ScanFindsReady(s.procs, s.queue, s.index); }
  }

  lemma TickExpires(s: Sys, c: Pid)
    requires (s.index < |s.queue| || s.queue == []) && s.current == Some(c) && c in s.procs
    requires s.procs[c].priority < 9 && s.slice <= 1
    ensures Charged1(s, Tick(s, true), c)
  {
    var t := s.(procs := Charged(s.procs, c), slice := 0, resched := true);
    ScheduleKeepsAccounts(t);
    ScheduleChooses(t);
    assert Tick(s, true) == Schedule(t);
  }

  /** A tick without interrupts, or with nothing running, does nothing. */
  lemma TickOnce(s: Sys, interrupts: bool)
    requires s.index < |s.queue| || s.queue == []
    ensures !interrupts || s.current.None? ==> Tick(s, interrupts) == s
    ensures interrupts && s.current.Some? && s.current.value in s.procs ==> Charged1(s, Tick(s, true), s.current.value)
  {
    if interrupts && s.current.Some? && s.current.value in s.procs {
      var c := s.current.value;
      if s.procs[c].priority < 9 && s.slice <= 1 { TickExpires(s, c); }
    }
  }

  /**
    What a tick with interrupts does while `c` runs: `c` is charged one tick and no one else. A process of priority
    nine or more keeps the CPU and its slice; any other keeps the CPU while more than one tick of its slice is left,
    and loses it at the last one to the next ready process, which gets five ticks.
  */
  ghost predicate Charged1(s: Sys, t: Sys, c: Pid)
    requires c in s.procs
  {
    && t.procs.Keys == s.procs.Keys && t.queue == s.queue && t.list == s.list
    && (forall p | p in s.procs ::
          && t.procs[p].runtime == s.procs[p].runtime + (if p == c then 1 else 0)
          && t.procs[p].priority == s.procs[p].priority)
    && (s.procs[c].priority >= 9 || s.slice > 1 ==>
          && t.current == s.current && t.index == s.index && t.resched == s.resched && t.running == s.running
          && t.slice == (if s.procs[c].priority >= 9 then s.slice else s.slice - 1)
          && forall p | p in s.procs :: t.procs[p].state == s.procs[p].state)
    && (s.procs[c].priority < 9 && s.slice <= 1 ==>
          && t.resched
          && ((exists j :: 0 <= j < |s.queue| && IsReady(s.procs, s.queue[j])) ==>
                t.index < |t.queue| && t.current == Some(t.queue[t.index]) && IsReady(s.procs, t.queue[t.index]))
          && ((forall j | 0 <= j < |s.queue| :: !IsReady(s.procs, s.queue[j])) ==>
                t.current == s.current && t.index == s.index))
    && (s.procs[c].priority < 9 && s.slice <= 1 && t.current != s.current ==>
          t.slice == 5 && t.current.Some? && t.current.value in t.procs && t.procs[t.current.value].state == Running)
  }

  /** Creation leaves every other process alone and gives the new one priority five. */
  lemma CreateOnce(s: Sys)
    requires Coherent(s)
    ensures var t, p := Create(s), s.nextPid;
      && p !in s.procs && t.procs == s.procs[p := Proc(Ready, 5, 0)]
      && t.queue == s.queue + [p] && t.list == [p] + s.list
      && t.current == s.current && t.index == s.index && t.slice == s.slice && t.nextPid == p + 1
  {}

  /** Termination takes one process off the queue and the list, and keeps the others' accounts. */
  lemma TerminateOnce(s: Sys, p: Pid)
    requires Coherent(s)
    ensures var t := Terminate(s, p);
      && (p !in s.procs ==> t == s) && SameAccounts(s.procs - {p}, t.procs)
      && (p in s.procs ==> IndexOf(s.queue, p) < |s.queue| && t.queue == Without(s.queue, IndexOf(s.queue, p)))
      && (s.running != Some(p) ==> t.running == s.running && t.current == s.current)
  {
    RemovalKeepsMirror(s.queue, s.list, p);
    if p in s.list {
      ReassignKeeps(s, p);
      ScheduleKeepsAccounts(Reassigned(s, p));
    }
  }

  /** When a process leaves the queue, the index stays on its process, or steps back if its own left. */
  lemma RemovalKeepsPlace(s: Sys, p: Pid, j: nat)
    requires s.index < |s.queue| && j == IndexOf(s.queue, p) < |s.queue| && |s.queue| > 1
    ensures var t := Removed(s, p);
      && t.index < |t.queue| == |s.queue| - 1
      && (s.index != j ==> t.queue[t.index] == s.queue[s.index])
      && (s.index == j && j > 0 ==> t.queue[t.index] == s.queue[j - 1])
      && (t.current == if s.current == Some(p) then None else s.current)
  {}

  /** Each operation by what it does to the accounts of the processes that stay. */
  lemma StepAccounts(s: Sys, op: Op, p: Pid)
    requires Coherent(s) && p in s.procs && p in Step(s, op).procs
    ensures var q := Step(s, op).procs[p];
      && q.runtime == s.procs[p].runtime + Charge1(s, op, p)
      && (op.SetPriority? && op.pid == p ==> q.priority == if op.priority > 10 then 10 else op.priority)
      && (!(op.SetPriority? && op.pid == p) ==> q.priority == s.procs[p].priority)
  {
    match op
    case CreateProcess => CreateOnce(s);
    case TerminateProcess(r) => TerminateOnce(s, r);
    case ScheduleNow => ScheduleKeepsAccounts(s);
    case TimerTick(interrupts) => TickOnce(s, interrupts);
    case SetPriority(r, priority) =>
  }

  /** No process comes back. */
  lemma StepIsFinal(s: Sys, op: Op)
    requires Coherent(s)
    ensures Step(s, op).procs.Keys <= s.procs.Keys + {s.nextPid} && s.nextPid <= Step(s, op).nextPid
  {
    match op
    case CreateProcess => CreateOnce(s);
    case TerminateProcess(r) => TerminateOnce(s, r);
    case ScheduleNow =>
    case TimerTick(interrupts) =>
    case SetPriority(r, priority) =>
  }

  lemma {:induction false} RunIsFinal(s: Sys, ops: seq<Op>, p: Pid)
    requires Coherent(s) && p < s.nextPid && p in Run(s, ops).procs
    ensures p in s.procs
    decreases |ops|
  {
    if ops != [] {
      StepKeeps(s, ops[0]);
      StepIsFinal(s, ops[0]);
      RunIsFinal(Step(s, ops[0]), ops[1..], p);
    }
  }

  /** The ticks of a run that find `p` running with interrupts enabled. */
  ghost function Charges(s: Sys, ops: seq<Op>, p: Pid): nat
    requires Coherent(s)
    decreases |ops|
  {
    if ops == [] then 0
    else StepKeeps(s, ops[0]); Charge1(s, ops[0], p) + Charges(Step(s, ops[0]), ops[1..], p)
  }

  /** Over every run a process that stays is charged for exactly those ticks. */
  lemma {:induction false} RunAccounts(s: Sys, ops: seq<Op>, p: Pid)
    requires Coherent(s) && p in s.procs && p in Run(s, ops).procs
    ensures Run(s, ops).procs[p].runtime == s.procs[p].runtime + Charges(s, ops, p)
    decreases |ops|
  {
    if ops != [] {
      var t := Step(s, ops[0]);
      StepKeeps(s, ops[0]);
      StepIsFinal(s, ops[0]);
      RunIsFinal(t, ops[1..], p);
      StepAccounts(s, ops[0], p);
      RunAccounts(t, ops[1..], p);
    }
  }

  /** Any number of ticks without interrupts leaves everything as it was. */
  lemma {:induction false} IdleTicks(s: Sys, ops: seq<Op>)
    requires Coherent(s) && forall k | 0 <= k < |ops| :: ops[k] == TimerTick(false)
    ensures Run(s, ops) == s
    decreases |ops|
  {
    if ops != [] {
      TickOnce(s, false);
      IdleTicks(s, ops[1..]);
    }
  }

  lemma TwoCreated(s: Sys)
    requires s == Step(Step(BOOT, CreateProcess), CreateProcess)
    ensures s.queue == [1, 2] && s.index == 0 && s.current == None && s.running == Some(1)
    ensures s.procs == map[1 := Proc(Ready, DEFAULT_PRIORITY, 0), 2 := Proc(Ready, DEFAULT_PRIORITY, 0)]
  {}

  lemma SecondRaised(s: Sys, t: Sys)
    requires s == Step(Step(BOOT, CreateProcess), CreateProcess)
    requires s.index < |s.queue| && t == Step(Step(s, ScheduleNow), SetPriority(2, 9))
    ensures t.current == Some(2) && Waits(t, 1, 0) && !ClearWay(t, 0)
  {
    TwoCreated(s);
    assert FirstReady(s.procs, s.queue, 0, 1) == 1;
  }

  /** The second of two processes runs and is raised to priority nine: the first stays ready and never runs. */
  lemma RaisedProcessStarves(k: nat)
    ensures var s := Run(BOOT, [CreateProcess, CreateProcess, ScheduleNow, SetPriority(2, 9)]);
      IsReady(Ticks(s, k).procs, 1) && s.current == Some(2) && Ticks(s, k).current != Some(1)
  {
    var ops := [CreateProcess, CreateProcess, ScheduleNow, SetPriority(2, 9)];
    var s := Step(Step(BOOT, CreateProcess), CreateProcess);
    TwoCreated(s);
    SecondRaised(s, Step(Step(s, ScheduleNow), SetPriority(2, 9)));
    assert ops[1..][1..][1..] == [SetPriority(2, 9)];
    BlockedNeverRuns(Run(BOOT, ops), 1, 0, k);
  }

  // ---------------------------------------------------------------- the scheduler and process manager in place

  /** Shift everything after position `j` down by one and drop the last slot. */
  method ShiftedOut(q: seq<Pid>, j: nat) returns (r: seq<Pid>)
    requires j < |q|
    ensures r == Without(q, j)
  {
    r := q;
    var k := j;
    ghost var w := Without(q, j);
    while k < |r| - 1
      invariant j <= k <= |q| - 1 && |r| == |q|
      invariant forall i | 0 <= i < k :: r[i] == w[i]
      invariant forall i | k <= i < |q| :: r[i] == q[i]
    {
      assert w[k] == q[k + 1] == r[k + 1];
      r := r[k := r[k + 1]];
      k := k + 1;
    }
    r := r[..|r| - 1];
  }

  class Machine {
    var procs: Procs
    var list: seq<Pid>
    var running: Option<Pid>
    var nextPid: nat
    var queue: seq<Pid>
    var index: nat
    var slice: nat
    var current: Option<Pid>
    var resched: bool

    function View(): Sys reads this { Sys(procs, list, running, nextPid, queue, index, slice, current, resched) }

    ghost predicate InRange() reads this { index < |queue| || queue == [] }

    constructor ()
      ensures View() == BOOT && Coherent(View())
    {
      procs, list, running, nextPid := map[], [], None, 1;
      queue, index, slice, current, resched := [], 0, DEFAULT_TIME_SLICE, None, false;
    }

    /** The round-robin scan: at most one turn of the queue, starting after the index. */
    method SelectNextProcess() returns (next: Option<Pid>)
      requires InRange()
      modifies this`index
      ensures InRange()
      ensures next.Some? ==> 0 <= index < |queue| && next.value == queue[index] && IsReady(procs, next.value) &&
                             index == Ahead(old(index), FirstReady(procs, queue, old(index), 1), |queue|)
      ensures next.None? ==> index == old(index) && forall j | 0 <= j < |queue| :: !IsReady(procs, queue[j])
    {
      if queue == [] { return None; }
      var start, n := index, |queue|;
      ghost var d := 0;
      while true
        invariant n == |queue| && 0 <= d < n && index < n && index == Ahead(start, d, n)
        invariant FirstReady(procs, queue, start, 1) == FirstReady(procs, queue, start, d + 1)
        decreases n - d
      {
        index := if index + 1 == n then 0 else index + 1;
        d := d + 1;
        if queue[index] in procs && procs[queue[index]].state == Ready { return Some(queue[index]); }
        if index == start {
          assert d == n;
          ScanFindsReady(procs, queue, start);
          return None;
        }
      }
    }

    method SwitchToProcess(p: Pid)
      modifies this`procs, this`running
      ensures View() == SwitchTo(old(View()), p)
      ensures running != old(running) ==>
        && running == Some(p) && procs[p].state == Running
        && (old(running).Some? && old(running).value in procs ==> procs[old(running).value].state != Running)
    {
      if p !in procs || (procs[p].state != Running && procs[p].state != Ready) { return; }
      if running != Some(p) {
        var was := running;
        running := Some(p);
        if was.Some? && was.value in procs && procs[was.value].state == Running {
          procs := procs[was.value := procs[was.value].(state := Ready)];
        }
        procs := procs[p := procs[p].(state := Running)];
      }
    }

    method ScheduleOnCpu()
      requires InRange()
      modifies this`procs, this`running, this`index, this`slice, this`current
      ensures View() == Schedule(old(View()))
      ensures old(Coherent(View())) ==> Coherent(View())
    {
      ghost var was := View();
      if Coherent(was) { ScheduleKeeps(was); }
      if queue != [] { ScanFindsReady(procs, queue, index); }
      var next := SelectNextProcess();
      if next.Some? && current != next {
        DispatchTo(next.value);
        assert View() == Dispatch(was.(index := index), next.value);
      }
    }

    method DispatchTo(p: Pid)
      modifies this`procs, this`running, this`slice, this`current
      ensures View() == Dispatch(old(View()), p)
    {
      var before := current;
      slice := DEFAULT_TIME_SLICE;
      current := Some(p);
      if before.Some? { procs := SetState(procs, before.value, Ready); }
      procs := SetState(procs, p, Running);
      SwitchToProcess(p);
    }

    method TickOnCpu(interrupts: bool)
      requires InRange()
      modifies this
      ensures View() == Tick(old(View()), interrupts)
      ensures old(Coherent(View())) ==> Coherent(View())
      ensures !interrupts || old(current).None? ==> View() == old(View())
      ensures interrupts && old(current).Some? && old(current).value in old(procs) ==>
        Charged1(old(View()), View(), old(current).value)
    {
      TickOnce(View(), interrupts);
      if Coherent(View()) { TickKeeps(View(), interrupts); }
      ChargeAndPreempt(interrupts);
    }

    method ChargeAndPreempt(interrupts: bool)
      requires InRange()
      modifies this
      ensures View() == Tick(old(View()), interrupts)
    {
      if !interrupts || current.None? || current.value !in procs { return; }
      var c := current.value;
      procs := Charged(procs, c);
      if procs[c].priority >= 9 { return; }
      if slice > 0 { slice := slice - 1; }
      if slice == 0 {
        resched := true;
        ScheduleOnCpu();
      }
    }

    method SetProcessPriority(p: Pid, priority: nat)
      modifies this`procs
      ensures View() == Prioritised(old(View()), p, priority)
      ensures p in old(procs) ==>
        procs == old(procs)[p := old(procs)[p].(priority := if priority > 10 then 10 else priority)]
      ensures p !in old(procs) ==> procs == old(procs)
    {
      if p in procs {
        var capped := priority;
        if capped > 10 { capped := 10; }
        procs := procs[p := procs[p].(priority := capped)];
      }
    }

    method AddProcess(p: Pid)
      modifies this`procs, this`queue
      ensures View() == Added(old(View()), p)
      ensures queue == if p in old(queue) then old(queue) else old(queue) + [p]
    {
      var i := 0;
      while i < |queue|
        invariant 0 <= i <= |queue| && forall k | 0 <= k < i :: queue[k] != p
      {
        if queue[i] == p { return; }
        i := i + 1;
      }
      procs := SetState(procs, p, Ready);
      queue := queue + [p];
    }

    method RemoveProcess(p: Pid)
      requires InRange()
      modifies this`queue, this`index, this`current, this`resched
      ensures View() == Removed(old(View()), p)
    {
      var j := 0;
      while j < |queue|
        invariant 0 <= j <= |queue| && forall k | 0 <= k < j :: queue[k] != p
      {
        if queue[j] == p {
          assert j == IndexOf(queue, p);
          if index >= j && index > 0 { index := index - 1; }
          queue := ShiftedOut(queue, j);
          if current == Some(p) { current, resched := None, true; }
          return;
        }
        j := j + 1;
      }
    }

    method CreateProcess() returns (pid: Pid)
      modifies this
      ensures View() == Create(old(View())) && pid == old(nextPid)
      ensures old(Coherent(View())) ==>
        && Coherent(View()) && procs == old(procs)[pid := Proc(Ready, 5, 0)]
        && queue == old(queue) + [pid] && current == old(current)
    {
      if Coherent(View()) {
        CreateKeeps(View());
        CreateOnce(View());
      }
      pid := nextPid;
      nextPid := nextPid + 1;
      procs := procs[pid := Proc(Ready, DEFAULT_PRIORITY, 0)];
      list := [pid] + list;
      if running.None? { running := Some(pid); }
      AddProcess(pid);
    }

    method TerminateProcess(p: Pid)
      requires InRange()
      modifies this
      ensures View() == Terminate(old(View()), p)
      ensures old(Coherent(View())) ==> Coherent(View()) && SameAccounts(old(procs) - {p}, procs)
    {
      if Coherent(View()) {
        TerminateKeeps(View(), p);
        TerminateOnce(View(), p);
      }
      var i := 0;
      while i < |list| && list[i] != p
        invariant 0 <= i <= |list| && forall k | 0 <= k < i :: list[k] != p
        modifies {}
      {
        i := i + 1;
      }
      if i < |list| { Unlink(i, p); }
    }

    /** The process at position `i` of the list goes; if it was the current one, it is replaced. */
    method Unlink(i: nat, p: Pid)
      requires InRange() && i < |list| && i == IndexOf(list, p)
      modifies this
      ensures View() == Terminate(old(View()), p)
    {
      Reap(i, p);
      var gone := running == Some(p);
      if gone { running := if list == [] then None else Some(list[0]); }
      assert View() == Reassigned(old(View()), p);
      if gone && running.Some? { ScheduleOnCpu(); }
    }

    /** Take it off the list, the queue and the table. */
    method Reap(i: nat, p: Pid)
      requires InRange() && i < |list| && i == IndexOf(list, p)
      modifies this`list, this`queue, this`index, this`current, this`resched, this`procs
      ensures InRange() && View() == Reaped(old(View()), p)
    {
      list := list[..i] + list[i + 1..];
      RemoveProcess(p);
      procs := procs - {p};
    }
  }
}
