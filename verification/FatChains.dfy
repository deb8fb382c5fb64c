/**
  The file allocation table as a linked forest. `fat[c]` is the 28-bit entry of cluster `c`:
  0 is free, a value from `EOC` up ends a chain, anything else links to the next cluster.

  A file is known by its first cluster; `live` gives the whole chain of every live file.
*/
module FatChains {
  import opened FatDisk

  type Fat = seq<nat>
  type Chain = seq<nat>

  // ---------------------------------------------------------------- chains

  ghost predicate IsChain(fat: Fat, s: Chain) {
    && |s| > 0
    && (forall k | 0 <= k < |s| :: 2 <= s[k] < |fat|)
    && (forall k {:trigger fat[s[k]]} | 0 <= k < |s| - 1 :: fat[s[k]] == s[k + 1])
    && EOC <= fat[s[|s| - 1]]
  }

  /** Links smaller than the bad-cluster mark: no volume has that many clusters. */
  ghost predicate Small(fat: Fat) { 2 < |fat| <= BAD }

  /** A chain never meets a cluster twice: equal clusters have equal continuations, and only one of
      them can be the end. */
  lemma {:induction false} ChainAcyclic(fat: Fat, s: Chain, i: nat, j: nat)
    requires Small(fat) && IsChain(fat, s) && i < j < |s|
    ensures s[i] != s[j]
    decreases |s| - j
  {
    assert fat[s[i]] == s[i + 1] < EOC;
    if j < |s| - 1 {
      assert fat[s[j]] == s[j + 1];
      ChainAcyclic(fat, s, i + 1, j + 1);
    }
  }

  /** The chain that starts at a cluster is determined by the table. */
  lemma {:induction false} ChainUnique(fat: Fat, s: Chain, t: Chain)
    requires Small(fat) && IsChain(fat, s) && IsChain(fat, t) && s[0] == t[0]
    ensures s == t
    decreases |s|
  {
    assert |s| > 1 ==> fat[s[0]] == s[1] < EOC;
    assert |t| > 1 ==> fat[t[0]] == t[1] < EOC;
    if |s| > 1 && |t| > 1 {
      assert IsChain(fat, s[1..]) && IsChain(fat, t[1..]);
      ChainUnique(fat, s[1..], t[1..]);
      assert s == [s[0]] + s[1..] && t == [t[0]] + t[1..];
    }
  }

  lemma ChainNonZero(fat: Fat, s: Chain, c: nat)
    requires IsChain(fat, s) && c in s
    ensures 2 <= c < |fat| && fat[c] != 0
  {
    var k :| 0 <= k < |s| && s[k] == c;
    assert k < |s| - 1 ==> fat[s[k]] == s[k + 1];
  }

  lemma ChainFrame(fat: Fat, fat': Fat, s: Chain)
    requires IsChain(fat, s) && |fat'| == |fat| && forall c | c in s :: c < |fat| && fat'[c] == fat[c]
    ensures IsChain(fat', s)
  {}

  // ---------------------------------------------------------------- allocation

  /** The first free cluster at or after `c`, or 0. */
  function FirstFree(fat: Fat, c: nat): (r: nat)
    requires 2 <= c
    ensures r != 0 ==> c <= r < |fat| && fat[r] == 0 && forall d | c <= d < r :: fat[d] != 0
    ensures r == 0 ==> forall d | c <= d < |fat| :: fat[d] != 0
    decreases |fat| - c
  {
    if c >= |fat| then 0 else if fat[c] == 0 then c else FirstFree(fat, c + 1)
  }

  // ---------------------------------------------------------------- writing

  datatype Written = Written(fat: Fat, chain: Chain, ok: bool)

  /** Grow the chain, first fit, until it has `n` clusters; stop when the table is full. */
  function Extend(fat: Fat, s: Chain, n: nat): (w: Written)
    requires |s| > 0 && forall k | 0 <= k < |s| :: 2 <= s[k] < |fat|
    ensures |w.fat| == |fat| && |w.chain| > 0 && s <= w.chain
    ensures forall k | 0 <= k < |w.chain| :: 2 <= w.chain[k] < |w.fat|
    ensures w.ok ==> |w.chain| == if |s| < n then n else |s|
    ensures !w.ok ==> |w.chain| < n && FirstFree(w.fat, 2) == 0
    decreases n - |s|
  {
    if |s| >= n then Written(fat, s, true)
    else
      var c := FirstFree(fat, 2);
      if c == 0 then Written(fat, s, false)
      else Extend(fat[c := EOC][s[|s| - 1] := c], s + [c], n)
  }

  /** A write of `n` clusters' worth: grow to `n` clusters if shorter; then cut after the cluster
      *following* the last one written, when there is one, else after the last. A write that runs
      out of clusters keeps what it got. */
  function WriteChain(fat: Fat, s: Chain, n: nat): (w: Written)
    requires |s| > 0 && forall k | 0 <= k < |s| :: 2 <= s[k] < |fat|
    ensures |w.fat| == |fat| && |w.chain| > 0
    ensures forall k | 0 <= k < |w.chain| :: 2 <= w.chain[k] < |w.fat|
  {
    var w := Extend(fat, s, n);
    if !w.ok then w
    else
      var t := if |w.chain| <= n then w.chain else w.chain[..n + 1];
      Written(w.fat[t[|t| - 1] := EOC], t, true)
  }

  /** Linking a free cluster after the end of a chain makes a longer chain. */
  lemma LinkKeepsChain(fat: Fat, s: Chain, c: nat)
    requires Small(fat) && IsChain(fat, s) && 2 <= c < |fat| && fat[c] == 0
    ensures c !in s && IsChain(fat[c := EOC][s[|s| - 1] := c], s + [c])
  {
    if c in s { ChainNonZero(fat, s, c); }
    var e := s[|s| - 1];
    var fat1 := fat[c := EOC][e := c];
    var s1 := s + [c];
    forall k | 0 <= k < |s1| - 1 ensures fat1[s1[k]] == s1[k + 1] {
      if k < |s| - 1 {
        ChainAcyclic(fat, s, k, |s| - 1);
        assert fat[s[k]] == s[k + 1];
      }
    }
  }

  /** Growing keeps a chain a chain. */
  lemma {:induction false} ExtendKeepsChain(fat: Fat, s: Chain, n: nat)
    requires Small(fat) && IsChain(fat, s)
    ensures IsChain(Extend(fat, s, n).fat, Extend(fat, s, n).chain)
    decreases n - |s|
  {
    var c := FirstFree(fat, 2);
    if |s| < n && c != 0 {
      LinkKeepsChain(fat, s, c);
      ExtendKeepsChain(fat[c := EOC][s[|s| - 1] := c], s + [c], n);
    }
  }

  /** Growing takes only free clusters, and touches no cluster outside the grown chain. */
  lemma {:induction false} ExtendAt(fat: Fat, s: Chain, n: nat, x: nat)
    requires Small(fat) && IsChain(fat, s) && x < |fat|
    ensures var w := Extend(fat, s, n);
      && (x in w.chain && x !in s ==> 2 <= x && fat[x] == 0)
      && (x !in w.chain ==> w.fat[x] == fat[x])
    decreases n - |s|
  {
    var c := FirstFree(fat, 2);
    if |s| < n && c != 0 {
      LinkKeepsChain(fat, s, c);
      var e := s[|s| - 1];
      ExtendAt(fat[c := EOC][e := c], s + [c], n, x);
      var w := Extend(fat, s, n);
      assert w.chain[|s| - 1] == e && w.chain[|s|] == c;
      assert x in s + [c] <==> x in s || x == c;
    }
  }

  /** Ending a chain early leaves a chain. */
  lemma CutKeepsChain(fat: Fat, s: Chain, m: nat)
    requires Small(fat) && IsChain(fat, s) && 0 < m <= |s|
    ensures IsChain(fat[s[m - 1] := EOC], s[..m])
  {
    var t := s[..m];
    var fat' := fat[s[m - 1] := EOC];
    forall k | 0 <= k < |t| - 1 ensures fat'[t[k]] == t[k + 1] {
      ChainAcyclic(fat, s, k, m - 1);
      assert fat[s[k]] == s[k + 1];
    }
  }

  /** The chain `s` became `s'`: whatever is new in it was free, and nothing outside it changed. */
  ghost predicate Grows(fat: Fat, s: Chain, fat': Fat, s': Chain) {
    && |fat'| == |fat|
    && IsChain(fat', s')
    && (forall c | c in s' && c !in s :: c < |fat| && fat[c] == 0)
    && (forall c: nat | c < |fat| && c !in s' :: fat'[c] == fat[c])
  }

  lemma ExtendGrows(fat: Fat, s: Chain, n: nat)
    requires Small(fat) && IsChain(fat, s)
    ensures Grows(fat, s, Extend(fat, s, n).fat, Extend(fat, s, n).chain)
  {
    ExtendKeepsChain(fat, s, n);
    var w := Extend(fat, s, n);
    forall x: nat | x < |fat|
      ensures x in w.chain && x !in s ==> fat[x] == 0
      ensures x !in w.chain ==> w.fat[x] == fat[x]
    {
      ExtendAt(fat, s, n, x);
    }
  }

  /** Marking the end of a chain as its end again. */
  lemma SealGrows(fat: Fat, s: Chain, fat': Fat, s': Chain)
    requires Small(fat) && Grows(fat, s, fat', s')
    ensures Grows(fat, s, fat'[s'[|s'| - 1] := EOC], s')
  {
    CutKeepsChain(fat', s', |s'|);
    assert s'[..|s'|] == s';
  }

  lemma ShortWriteGrows(fat: Fat, s: Chain, n: nat)
    requires Small(fat) && IsChain(fat, s) && n < |s|
    ensures WriteChain(fat, s, n).ok && WriteChain(fat, s, n).chain == s[..n + 1]
    ensures Grows(fat, s, WriteChain(fat, s, n).fat, s[..n + 1])
  {
    CutKeepsChain(fat, s, n + 1);
    assert s[..n + 1][n] == s[n];
  }

  /** A write of at least the chain's length ends where growing does. */
  lemma LongWrite(fat: Fat, s: Chain, n: nat, e: Written, w: Written)
    requires Small(fat) && IsChain(fat, s) && n >= |s| && e == Extend(fat, s, n) && w == WriteChain(fat, s, n)
    ensures w == if e.ok then Written(e.fat[e.chain[|e.chain| - 1] := EOC], e.chain, true) else e
    ensures s <= e.chain && (e.ok ==> |e.chain| == n)
  {}

  lemma LongWriteGrows(fat: Fat, s: Chain, n: nat)
    requires Small(fat) && IsChain(fat, s) && n >= |s|
    ensures var w := WriteChain(fat, s, n);
      Grows(fat, s, w.fat, w.chain) && s <= w.chain && (w.ok ==> |w.chain| == n)
  {
    var e := Extend(fat, s, n);
    ExtendGrows(fat, s, n);
    LongWrite(fat, s, n, e, WriteChain(fat, s, n));
    if e.ok { SealGrows(fat, s, e.fat, e.chain); }
  }

  /** A write leaves a chain with the same first cluster; the clusters it added were free, and only
      clusters of the new chain change. */
  lemma WriteGrows(fat: Fat, s: Chain, n: nat)
    requires Small(fat) && IsChain(fat, s)
    ensures var w := WriteChain(fat, s, n);
      && Grows(fat, s, w.fat, w.chain) && w.chain[0] == s[0]
      && (n < |s| ==> w.ok && w.chain == s[..n + 1])
      && (n >= |s| ==> s <= w.chain && (w.ok ==> |w.chain| == n))
  {
    if n < |s| { ShortWriteGrows(fat, s, n); } else { LongWriteGrows(fat, s, n); }
  }

  // ---------------------------------------------------------------- freeing

  /** Zero exactly the entries of one chain. */
  function FreeChain(fat: Fat, s: Chain): (r: Fat)
    ensures |r| == |fat|
  {
    seq(|fat|, c requires 0 <= c < |fat| => if c in s then 0 else fat[c])
  }

  // ---------------------------------------------------------------- the forest

  datatype Volume = Volume(fat: Fat, live: map<nat, Chain>)

  ghost predicate Disjoint(s: Chain, t: Chain) { forall c | c in s :: c !in t }

  ghost predicate Forest(v: Volume) {
    && Small(v.fat)
    && (forall c | c in v.live :: IsChain(v.fat, v.live[c]) && v.live[c][0] == c)
    && (forall c, d | c in v.live && d in v.live && c != d :: Disjoint(v.live[c], v.live[d]))
  }

  ghost predicate Reachable(v: Volume, x: nat) { exists c :: c in v.live && x in v.live[c] }

  /** Allocated clusters that no live file reaches. */
  ghost function Leaked(v: Volume): set<nat> {
    set x: nat | 2 <= x < |v.fat| && v.fat[x] != 0 && !Reachable(v, x)
  }

  datatype Op = Create | Write(start: nat, clusters: nat) | Delete(start: nat)

  /** One operation; a write or delete names a live file. */
  ghost function Step(v: Volume, op: Op): Volume
    requires Forest(v)
  {
    match op
    case Create =>
      var c := FirstFree(v.fat, 2);
      if c == 0 then v else Volume(v.fat[c := EOC], v.live[c := [c]])
    case Write(start, n) =>
      if start !in v.live then v
      else
        var w := WriteChain(v.fat, v.live[start], n);
        Volume(w.fat, v.live[start := w.chain])
    case Delete(start) =>
      if start !in v.live then v
      else Volume(FreeChain(v.fat, v.live[start]), v.live - {start})
  }

  /** No step touches the table entries of a file it does not name. */
  ghost predicate OthersUntouched(v: Volume, v': Volume, start: nat) {
    && |v'.fat| == |v.fat|
    && forall c | c in v.live && c != start ::
         c in v'.live && v'.live[c] == v.live[c] &&
         forall x | x in v.live[c] :: x < |v.fat| && v'.fat[x] == v.fat[x]
  }

  ghost function At(v: Volume, start: nat): Chain { if start in v.live then v.live[start] else [] }

  /** Only the chain at `start` changed, and it grew only into free clusters. */
  ghost predicate Edits(v: Volume, v': Volume, start: nat) {
    && |v'.fat| == |v.fat|
    && (forall d | d != start :: (d in v.live <==> d in v'.live) && (d in v.live ==> v'.live[d] == v.live[d]))
    && (start in v'.live ==> IsChain(v'.fat, v'.live[start]) && v'.live[start][0] == start)
    && (forall c | c in At(v', start) && c !in At(v, start) :: c < |v.fat| && v.fat[c] == 0)
    && (forall c: nat | c < |v.fat| && c !in At(v, start) && c !in At(v', start) :: v'.fat[c] == v.fat[c])
  }

  lemma EditSpares(v: Volume, v': Volume, start: nat, d: nat)
    requires Forest(v) && Edits(v, v', start) && d in v.live && d != start
    ensures d in v'.live && v'.live[d] == v.live[d] && IsChain(v'.fat, v.live[d])
    ensures Disjoint(At(v', start), v.live[d])
    ensures forall x | x in v.live[d] :: x < |v.fat| && v'.fat[x] == v.fat[x]
  {
    forall x | x in v.live[d]
      ensures x !in At(v, start) && x !in At(v', start) && x < |v.fat| && v'.fat[x] == v.fat[x]
    {
      ChainNonZero(v.fat, v.live[d], x);
    }
    ChainFrame(v.fat, v'.fat, v.live[d]);
  }

  lemma EditKeepsForest(v: Volume, v': Volume, start: nat)
    requires Forest(v) && Edits(v, v', start)
    ensures Forest(v') && OthersUntouched(v, v', start)
  {
    forall d | d in v.live && d != start
      ensures d in v'.live && v'.live[d] == v.live[d] && IsChain(v'.fat, v.live[d])
      ensures Disjoint(At(v', start), v.live[d]) && Disjoint(v.live[d], At(v', start))
      ensures forall x | x in v.live[d] :: x < |v.fat| && v'.fat[x] == v.fat[x]
    {
      EditSpares(v, v', start, d);
    }
  }

  ghost predicate ReachedElsewhere(v: Volume, start: nat, x: nat) {
    exists c :: c in v.live && c != start && x in v.live[c]
  }

  lemma ReachedHereOrElsewhere(v: Volume, start: nat, x: nat)
    ensures Reachable(v, x) <==> x in At(v, start) || ReachedElsewhere(v, start, x)
  {}

  lemma ElsewhereIsKept(v: Volume, v': Volume, start: nat, x: nat)
    requires Edits(v, v', start)
    ensures ReachedElsewhere(v', start, x) <==> ReachedElsewhere(v, start, x)
  {
    if ReachedElsewhere(v, start, x) {
      var c :| c in v.live && c != start && x in v.live[c];
      assert c in v'.live && x in v'.live[c];
    }
    if ReachedElsewhere(v', start, x) {
      var c :| c in v'.live && c != start && x in v'.live[c];
      assert c in v.live && x in v.live[c];
    }
  }

  lemma ElsewhereIsApart(v: Volume, start: nat, x: nat)
    requires Forest(v) && x in At(v, start)
    ensures !ReachedElsewhere(v, start, x)
  {}

  /** An edit leaks exactly the clusters it drops from the chain without zeroing them. */
  lemma EditLeaks(v: Volume, v': Volume, start: nat, x: nat)
    requires Forest(v) && Edits(v, v', start) && 2 <= x < |v.fat|
    ensures x in Leaked(v') <==>
            x in Leaked(v) || (x in At(v, start) && x !in At(v', start) && v'.fat[x] != 0)
  {
    ReachedHereOrElsewhere(v, start, x);
    ReachedHereOrElsewhere(v', start, x);
    ElsewhereIsKept(v, v', start, x);
    if x in At(v, start) { ElsewhereIsApart(v, start, x); }
  }

  lemma EditLeakSet(v: Volume, v': Volume, start: nat, gone: set<nat>)
    requires Forest(v) && Edits(v, v', start)
    requires forall x | x in gone :: 2 <= x < |v.fat|
    requires forall x: nat | 2 <= x < |v.fat| ::
               x in gone <==> x in At(v, start) && x !in At(v', start) && v'.fat[x] != 0
    ensures Leaked(v') == Leaked(v) + gone && gone !! Leaked(v)
  {
    forall x: nat | 2 <= x < |v.fat|
      ensures x in Leaked(v') <==> x in Leaked(v) || x in gone
      ensures x in gone ==> x !in Leaked(v)
    {
      EditLeaks(v, v', start, x);
      if x in At(v, start) { assert Reachable(v, x); }
    }
  }

  /** What a step may drop: only a write, and only past the cluster that follows the last one written. */
  ghost function Dropped(v: Volume, op: Op): set<nat> {
    if op.Write? && op.start in v.live then
      var s := v.live[op.start];
      set k | op.clusters + 1 <= k < |s| :: s[k]
    else {}
  }

  ghost function Target(v: Volume, op: Op): nat {
    match op
    case Create => FirstFree(v.fat, 2)
    case Write(start, _) => start
    case Delete(start) => start
  }

  lemma CreateEdits(v: Volume)
    requires Forest(v)
    ensures Edits(v, Step(v, Create), FirstFree(v.fat, 2))
  {
    var c := FirstFree(v.fat, 2);
    if c in v.live { ChainNonZero(v.fat, v.live[c], c); }
  }

  lemma WriteEdits(v: Volume, start: nat, n: nat)
    requires Forest(v)
    ensures Edits(v, Step(v, Write(start, n)), start)
  {
    if start in v.live { WriteGrows(v.fat, v.live[start], n); }
  }

  lemma StepEdits(v: Volume, op: Op)
    requires Forest(v)
    ensures Edits(v, Step(v, op), Target(v, op))
  {
    match op
    case Create => CreateEdits(v);
    case Delete(start) =>
    case Write(start, n) => WriteEdits(v, start, n);
  }

  lemma StepDrops(v: Volume, op: Op, x: nat)
    requires Forest(v) && 2 <= x < |v.fat|
    ensures x in Dropped(v, op) <==>
            x in At(v, Target(v, op)) && x !in At(Step(v, op), Target(v, op)) && Step(v, op).fat[x] != 0
  {
    match op
    case Create =>
      var t := Target(v, op);
      if t in v.live { ChainNonZero(v.fat, v.live[t], t); }
    case Delete(start) =>
    case Write(start, n) =>
      if start in v.live {
        var s := v.live[start];
        WriteGrows(v.fat, s, n);
        WriteDrops(v.fat, s, n, x);
        if x in s { ChainNonZero(v.fat, s, x); }
      }
  }

  /** The clusters a write drops from the chain are those past the one following the last written. */
  lemma WriteDrops(fat: Fat, s: Chain, n: nat, x: nat)
    requires Small(fat) && IsChain(fat, s)
    ensures (x in s && x !in WriteChain(fat, s, n).chain) <==> exists k :: n + 1 <= k < |s| && s[k] == x
  {
    WriteGrows(fat, s, n);
    if n < |s| {
      forall i, j | 0 <= i < j < |s| ensures s[i] != s[j] { ChainAcyclic(fat, s, i, j); }
    }
  }

  /** One step keeps the forest, leaves every other file's table entries alone, and leaks exactly what
      it drops. */
  lemma StepKeeps(v: Volume, op: Op)
    requires Forest(v)
    ensures Forest(Step(v, op))
    ensures OthersUntouched(v, Step(v, op), Target(v, op))
    ensures Leaked(Step(v, op)) == Leaked(v) + Dropped(v, op)
    ensures Dropped(v, op) !! Leaked(v)
  {
    StepEdits(v, op);
    EditKeepsForest(v, Step(v, op), Target(v, op));
    forall x: nat | 2 <= x < |v.fat|
      ensures x in Dropped(v, op) <==>
              x in At(v, Target(v, op)) && x !in At(Step(v, op), Target(v, op)) && Step(v, op).fat[x] != 0
    {
      StepDrops(v, op, x);
    }
    EditLeakSet(v, Step(v, op), Target(v, op), Dropped(v, op));
  }

  // ---------------------------------------------------------------- whole runs

  ghost function Run(v: Volume, ops: seq<Op>): Volume
    requires Forest(v)
    decreases |ops|
  {
    if ops == [] then v
    else
      StepKeeps(v, ops[0]);
      Run(Step(v, ops[0]), ops[1..])
  }

  /** Every run of creates, writes (full disk or not) and deletes keeps all live chains in range, ended,
      acyclic and pairwise disjoint. */
  lemma {:induction false} RunKeepsForest(v: Volume, ops: seq<Op>)
    requires Forest(v)
    ensures var v' := Run(v, ops);
      && Forest(v')
      && forall c, i, j | c in v'.live && 0 <= i < j < |v'.live[c]| :: v'.live[c][i] != v'.live[c][j]
    decreases |ops|
  {
    if ops == [] {
      forall c, i, j | c in v.live && 0 <= i < j < |v.live[c]| ensures v.live[c][i] != v.live[c][j] {
        ChainAcyclic(v.fat, v.live[c], i, j);
      }
    } else {
      StepKeeps(v, ops[0]);
      RunKeepsForest(Step(v, ops[0]), ops[1..]);
    }
  }

  /** Each write needs at least one cluster less than the file has. */
  ghost predicate NoShrink(v: Volume, ops: seq<Op>)
    requires Forest(v)
    decreases |ops|
  {
    ops == [] ||
    (StepKeeps(v, ops[0]);
     && (ops[0].Write? && ops[0].start in v.live ==> |v.live[ops[0].start]| <= ops[0].clusters + 1)
     && NoShrink(Step(v, ops[0]), ops[1..]))
  }

  /** A run only ever adds to the leaked clusters, and adds none exactly when no write in it shrinks a
      file by two clusters or more. */
  lemma {:induction false} RunLeaks(v: Volume, ops: seq<Op>)
    requires Forest(v)
    ensures Leaked(v) <= Leaked(Run(v, ops))
    ensures Leaked(Run(v, ops)) == Leaked(v) <==> NoShrink(v, ops)
    decreases |ops|
  {
    if ops != [] {
      StepKeeps(v, ops[0]);
      RunLeaks(Step(v, ops[0]), ops[1..]);
      if ops[0].Write? && ops[0].start in v.live {
        var s := v.live[ops[0].start];
        if ops[0].clusters + 1 < |s| { assert s[ops[0].clusters + 1] in Dropped(v, ops[0]); }
      }
    }
  }

  // Four states of a table of six entries, one operation apart.
  ghost const NO_FILES := Volume([0, 0, 0, 0, 0, 0], map[])
  ghost const ONE_CLUSTER := Volume([0, 0, EOC, 0, 0, 0], map[2 := [2]])
  ghost const THREE_CLUSTERS := Volume([0, 0, 3, 4, EOC, 0], map[2 := [2, 3, 4]])
  ghost const SHRUNK := Volume([0, 0, 3, EOC, EOC, 0], map[2 := [2, 3]])

  lemma CreateOnBlank()
    ensures Forest(NO_FILES) && Step(NO_FILES, Create) == ONE_CLUSTER
  {
    assert FirstFree(NO_FILES.fat, 2) == 2;
    assert NO_FILES.fat[2 := EOC] == ONE_CLUSTER.fat;
  }

  ghost const TWO_CLUSTERS: Fat := [0, 0, 3, EOC, 0, 0]

  lemma GrowOnce()
    ensures Extend(ONE_CLUSTER.fat, [2], 3) == Extend(TWO_CLUSTERS, [2, 3], 3)
  {
    assert FirstFree(ONE_CLUSTER.fat, 3) == 3 && FirstFree(ONE_CLUSTER.fat, 2) == 3;
    assert ONE_CLUSTER.fat[3 := EOC][2 := 3] == TWO_CLUSTERS && [2] + [3] == [2, 3];
  }

  lemma GrowTwice()
    ensures Extend(TWO_CLUSTERS, [2, 3], 3) == Written(THREE_CLUSTERS.fat, [2, 3, 4], true)
  {
    assert FirstFree(TWO_CLUSTERS, 4) == 4 && FirstFree(TWO_CLUSTERS, 3) == 4 && FirstFree(TWO_CLUSTERS, 2) == 4;
    assert TWO_CLUSTERS[4 := EOC][3 := 4] == THREE_CLUSTERS.fat && [2, 3] + [4] == [2, 3, 4];
  }

  lemma GrowToThree()
    requires Forest(ONE_CLUSTER)
    ensures Step(ONE_CLUSTER, Write(2, 3)) == THREE_CLUSTERS
  {
    GrowOnce();
    GrowTwice();
    assert THREE_CLUSTERS.fat[4 := EOC] == THREE_CLUSTERS.fat;
    assert ONE_CLUSTER.live[2 := [2, 3, 4]] == THREE_CLUSTERS.live;
  }

  lemma ShrinkToOne()
    requires Forest(THREE_CLUSTERS)
    ensures Step(THREE_CLUSTERS, Write(2, 1)) == SHRUNK
  {
    assert [2, 3, 4][..2] == [2, 3];
    assert THREE_CLUSTERS.fat[3 := EOC] == SHRUNK.fat;
    assert THREE_CLUSTERS.live[2 := [2, 3]] == SHRUNK.live;
  }

  /** On an empty table, shrinking a file from three clusters to one leaks the third. */
  lemma ShrinkingLeaks()
    ensures Forest(NO_FILES) && Run(NO_FILES, [Create, Write(2, 3), Write(2, 1)]) == SHRUNK && Leaked(SHRUNK) == {4}
  {
    CreateOnBlank();
    StepForest(NO_FILES, Create);
    GrowToThree();
    StepForest(ONE_CLUSTER, Write(2, 3));
    ShrinkToOne();
    StepForest(THREE_CLUSTERS, Write(2, 1));
    RunOfThree(NO_FILES, Create, Write(2, 3), Write(2, 1));
    forall x: nat | 2 <= x < 6 ensures x in Leaked(SHRUNK) <==> x == 4 {
      if x == 2 || x == 3 { assert 2 in SHRUNK.live && x in SHRUNK.live[2]; }
    }
  }

  lemma RunOfThree(v: Volume, a: Op, b: Op, c: Op)
    requires Forest(v) && Forest(Step(v, a)) && Forest(Step(Step(v, a), b))
    ensures Run(v, [a, b, c]) == Step(Step(Step(v, a), b), c)
  {
    var v1, v2, v3 := Step(v, a), Step(Step(v, a), b), Step(Step(Step(v, a), b), c);
    StepForest(v2, c);
    assert [a, b, c][1..] == [b, c] && [b, c][1..] == [c] && [c][1..] == [];
    assert Run(v2, [c]) == Run(v3, []) == v3;
    assert Run(v1, [b, c]) == Run(v2, [c]);
  }

  /** Creating a file, writing any amount to it (even past a full disk) and deleting it gives back the
      very same table. */
  lemma CreateWriteDelete(v: Volume, n: nat)
    requires Forest(v) && FirstFree(v.fat, 2) != 0
    ensures var c := FirstFree(v.fat, 2);
            var v1 := Step(v, Create);
            Forest(v1) && (var v2 := Step(v1, Write(c, n)); Forest(v2) && Step(v2, Delete(c)) == v)
  {
    var c := FirstFree(v.fat, 2);
    CreateThenWrite(v, n);
    StepForest(v, Create);
    StepForest(Step(v, Create), Write(c, n));
    var w := WriteChain(v.fat[c := EOC], [c], n);
    CreateWriteDeleteFat(v.fat, n);
    assert v.live[c := w.chain] - {c} == v.live;
  }

  lemma CreateThenWrite(v: Volume, n: nat)
    requires Forest(v) && FirstFree(v.fat, 2) != 0
    ensures var c := FirstFree(v.fat, 2);
            var w := WriteChain(v.fat[c := EOC], [c], n);
            && c !in v.live && Forest(Step(v, Create))
            && Step(Step(v, Create), Write(c, n)) == Volume(w.fat, v.live[c := w.chain])
  {
    var c := FirstFree(v.fat, 2);
    if c in v.live { ChainNonZero(v.fat, v.live[c], c); }
    StepForest(v, Create);
    assert Step(v, Create) == Volume(v.fat[c := EOC], v.live[c := [c]]);
  }

  lemma StepForest(v: Volume, op: Op)
    requires Forest(v)
    ensures Forest(Step(v, op))
  {
    StepKeeps(v, op);
  }

  lemma CreateWriteDeleteFat(fat: Fat, n: nat)
    requires Small(fat) && FirstFree(fat, 2) != 0
    ensures var c := FirstFree(fat, 2);
            var w := WriteChain(fat[c := EOC], [c], n);
            FreeChain(w.fat, w.chain) == fat
  {
    var c := FirstFree(fat, 2);
    WriteGrows(fat[c := EOC], [c], n);
    var w := WriteChain(fat[c := EOC], [c], n);
    assert c in w.chain;
    forall x: nat | x < |fat| ensures FreeChain(w.fat, w.chain)[x] == fat[x] {
      if x in w.chain && x != c { assert x !in [c]; }
    }
  }
}
