/**
  The mounted volume: the driver's sector-patching methods over a disk of bytes, proved against the
  table and cluster views. `fat` and `data` are what the bytes on `disk` mean.
*/
module FatVolume {
  import opened Arithmetic
  import opened FatDisk
  import opened FatChains

  type Clusters = seq<seq<Sector>>

  function WithSector(data: Clusters, c: nat, i: nat, x: Sector): Clusters
    requires c < |data| && i < |data[c]|
  {
    var sectors: seq<Sector> := data[c];
    var patched: seq<Sector> := sectors[i := x];
    data[c := patched]
  }

  // ---------------------------------------------------------------- file contents

  /** Sector `q` of a file is sector `q % per` of the `q / per`-th cluster of its chain. */
  ghost function SectorAt(data: Clusters, s: Chain, per: nat, q: nat): Sector
    requires per > 0 && q < Span(|s|, per)
    requires forall c | c in s :: c < |data| && |data[c]| == per
  {
    Decompose(q, per, |s|);
    assert s[q / per] in s;
    data[s[q / per]][q % per]
  }

  /** The bytes of a file, cluster after cluster along its chain. */
  ghost function Contents(data: Clusters, s: Chain, per: nat): (r: seq<byte>)
    requires per > 0
    requires forall c | c in s :: c < |data| && |data[c]| == per
  {
    seq(Span(|s|, per) * SECTOR_SIZE, j requires 0 <= j < Span(|s|, per) * SECTOR_SIZE =>
      SectorAt(data, s, per, j / SECTOR_SIZE)[j % SECTOR_SIZE])
  }

  function SectorsFor(n: nat): (q: nat)
    ensures n <= q * SECTOR_SIZE < n + SECTOR_SIZE
  {
    (n + (SECTOR_SIZE - 1)) / SECTOR_SIZE
  }

  function ClustersFor(n: nat, per: nat): nat
    requires per > 0
  {
    (SectorsFor(n) + (per - 1)) / per
  }

  function Block(buf: seq<byte>, q: nat): Sector
    requires (q + 1) * SECTOR_SIZE <= |buf|
  {
    buf[q * SECTOR_SIZE..(q + 1) * SECTOR_SIZE]
  }

  // ---------------------------------------------------------------- arithmetic of positions

  /** The sectors of `k` clusters: their product, as a sum. */
  function Span(k: nat, per: nat): nat { if k == 0 then 0 else Span(k - 1, per) + per }

  lemma {:induction false} SpanIsProduct(k: nat, per: nat)
    ensures Span(k, per) == k * per
  {
    if k > 0 { SpanIsProduct(k - 1, per); }
  }

  lemma {:induction false} SpanGrows(k: nat, k': nat, per: nat)
    requires k < k'
    ensures Span(k, per) + per <= Span(k', per)
  {
    if k + 1 < k' { SpanGrows(k, k' - 1, per); }
  }

  lemma SpanMonotone(k: nat, k': nat, per: nat)
    ensures k <= k' ==> Span(k, per) <= Span(k', per)
  {
    if k < k' { SpanGrows(k, k', per); }
  }

  lemma Decompose(q: nat, per: nat, n: nat)
    requires per > 0 && q < Span(n, per)
    ensures q / per < n && q % per < per && q == Span(q / per, per) + q % per
  {
    SpanIsProduct(n, per);
    SpanIsProduct(q / per, per);
    assert q == q / per * per + q % per;
    CancelLess(q / per, n, per);
  }

  lemma Recompose(k: nat, i: nat, per: nat)
    requires i < per
    ensures (Span(k, per) + i) / per == k && (Span(k, per) + i) % per == i
  {
    SpanIsProduct(k, per);
    Quotient(k * per + i, per, k, i);
  }

  /** Positions compare as (cluster, sector) pairs do. */
  lemma Lexicographic(k: nat, i: nat, k': nat, i': nat, per: nat)
    requires i < per && i' <= per
    ensures Span(k, per) + i < Span(k', per) + i' <==> k < k' || (k == k' && i < i')
  {
    if k < k' { SpanGrows(k, k', per); }
    if k' < k { SpanGrows(k', k, per); }
  }

  lemma ClusterCount(n: nat, per: nat, k: nat)
    requires per > 0 && Span(k, per) < SectorsFor(n) <= Span(k, per) + per
    ensures ClustersFor(n, per) == k + 1
  {
    assert Span(k + 1, per) == Span(k, per) + per;
    Recompose(k + 1, SectorsFor(n) - Span(k, per) - 1, per);
  }

  lemma NoClusters(n: nat, per: nat)
    requires per > 0
    ensures SectorsFor(n) == 0 ==> ClustersFor(n, per) == 0
  {
    if SectorsFor(n) == 0 { Recompose(0, per - 1, per); }
  }

  lemma MoreClusters(n: nat, per: nat, k: nat)
    requires per > 0 && Span(k, per) < SectorsFor(n)
    ensures k < ClustersFor(n, per)
  {
    var t := SectorsFor(n) + (per - 1);
    var q: nat := t / per;
    assert t == q * per + t % per;
    SpanIsProduct(q, per);
    SpanMonotone(q, k, per);
  }

  // ---------------------------------------------------------------- what a partial write has done

  ghost predicate Shaped(data: Clusters, per: nat) {
    forall c {:trigger data[c]} | 0 <= c < |data| :: |data[c]| == per
  }

  ghost predicate InData(s: Chain, data: Clusters) { forall k | 0 <= k < |s| :: s[k] < |data| }

  /** Sector `i` of cluster `k` of a file, `cluster` before, once the first `w` blocks of `buf` are written. */
  ghost function Expected(cluster: seq<Sector>, per: nat, buf: seq<byte>, w: nat, k: nat, i: nat): Sector
    requires i < |cluster| && w * SECTOR_SIZE <= |buf|
  {
    var q := Span(k, per) + i;
    if q < w then Block(buf, q) else cluster[i]
  }

  /** The first `w` sectors of the file hold the first `w` blocks of `buf`; every other sector of the
      file, and every cluster outside its chain, is as in `before`. */
  ghost predicate Filled(before: Clusters, data: Clusters, s: Chain, per: nat, buf: seq<byte>, w: nat)
    requires Shaped(before, per) && Shaped(data, per) && InData(s, data) && w * SECTOR_SIZE <= |buf|
  {
    && |data| == |before|
    && (forall c: nat | c < |data| && c !in s :: data[c] == before[c])
    && (forall k: nat, i: nat {:trigger data[s[k]][i]} | k < |s| && i < per ::
          data[s[k]][i] == Expected(before[s[k]], per, buf, w, k, i))
  }

  /** What filling cluster `k` does to sector `i` of cluster `j`. */
  lemma FilledAt(was: seq<Sector>, now: seq<Sector>, per: nat, buf: seq<byte>, k: nat, w: nat, w': nat, j: nat, i: nat)
    requires w <= w' <= w + per && w' * SECTOR_SIZE <= |buf| && w == Span(k, per)
    requires i < per == |was| == |now| && now[i] == Expected(was, per, buf, w, j, i)
    ensures j != k ==> now[i] == Expected(was, per, buf, w', j, i)
    ensures j == k ==> (if w + i < w' then Block(buf, w + i) else now[i]) == Expected(was, per, buf, w', j, i)
  {
    Lexicographic(j, i, k, w' - w, per);
    Lexicographic(j, i, k, 0, per);
  }

  lemma FilledByCluster(before: Clusters, data: Clusters, data': Clusters, s: Chain, per: nat,
                        buf: seq<byte>, k: nat, w: nat, w': nat)
    requires Shaped(before, per) && Shaped(data, per) && InData(s, data) && Shaped(data', per)
    requires w <= w' <= w + per && w' * SECTOR_SIZE <= |buf| && w == Span(k, per) && k < |s|
    requires forall j | 0 <= j < |s| && j != k :: s[j] != s[k]
    requires Filled(before, data, s, per, buf, w)
    requires |data'| == |data| && data' == data[s[k] := data'[s[k]]]
    requires forall i: nat | i < per ::
               data'[s[k]][i] == if w + i < w' then Block(buf, w + i) else data[s[k]][i]
    ensures Filled(before, data', s, per, buf, w')
  {
    forall j: nat, i: nat | j < |s| && i < per
      ensures data'[s[j]][i] == Expected(before[s[j]], per, buf, w', j, i)
    {
      assert data[s[j]][i] == Expected(before[s[j]], per, buf, w, j, i);
      FilledAt(before[s[j]], data[s[j]], per, buf, k, w, w', j, i);
    }
  }

  lemma FilledNone(data: Clusters, s: Chain, per: nat, buf: seq<byte>)
    requires Shaped(data, per) && InData(s, data)
    ensures Filled(data, data, s, per, buf, 0)
  {}

  lemma FilledGrow(before: Clusters, data: Clusters, s: Chain, per: nat, buf: seq<byte>, w: nat, c: nat)
    requires Shaped(before, per) && Shaped(data, per) && InData(s, data) && w * SECTOR_SIZE <= |buf|
    requires Filled(before, data, s, per, buf, w) && c < |data| && c !in s && w <= Span(|s|, per)
    ensures Filled(before, data, s + [c], per, buf, w)
  {
    var t := s + [c];
    forall k: nat, i: nat | k < |t| && i < per
      ensures data[t[k]][i] == Expected(before[t[k]], per, buf, w, k, i)
    {
      if k < |s| { assert data[s[k]][i] == Expected(before[s[k]], per, buf, w, k, i); }
    }
  }

  lemma FilledCut(before: Clusters, data: Clusters, s: Chain, per: nat, buf: seq<byte>, w: nat, m: nat)
    requires Shaped(before, per) && Shaped(data, per) && InData(s, data) && w * SECTOR_SIZE <= |buf|
    requires Filled(before, data, s, per, buf, w) && m <= |s| && w <= Span(m, per)
    ensures Filled(before, data, s[..m], per, buf, w)
  {
    var t := s[..m];
    forall k: nat, i: nat | k < m && i < per
      ensures data[t[k]][i] == Expected(before[t[k]], per, buf, w, k, i)
    {
      assert data[s[k]][i] == Expected(before[s[k]], per, buf, w, k, i);
    }
    forall c: nat | c < |data| && c !in t ensures data[c] == before[c] {
      if c in s {
        var k :| 0 <= k < |s| && s[k] == c;
        assert forall j | 0 <= j < m :: t[j] in t;
        forall i: nat | i < per ensures data[c][i] == before[c][i] {
          Lexicographic(k, i, m, 0, per);
          assert data[s[k]][i] == Expected(before[s[k]], per, buf, w, k, i);
        }
      }
    }
  }

  lemma BlockOfFilled(before: Clusters, data: Clusters, s: Chain, per: nat, buf: seq<byte>, w: nat, k: nat, i: nat,
      q: nat)
    requires Shaped(before, per) && Shaped(data, per) && InData(s, data) && w * SECTOR_SIZE <= |buf|
    requires Filled(before, data, s, per, buf, w) && k < |s| && i < per && q == Span(k, per) + i < w
    ensures data[s[k]][i] == Block(buf, q)
  {
    assert data[s[k]][i] == Expected(before[s[k]], per, buf, w, k, i);
  }

  lemma SectorOfFilled(before: Clusters, data: Clusters, s: Chain, per: nat, buf: seq<byte>, w: nat, q: nat)
    requires per > 0 && Shaped(before, per) && Shaped(data, per) && InData(s, data)
    requires w * SECTOR_SIZE <= |buf| && w <= Span(|s|, per) && q < w && Filled(before, data, s, per, buf, w)
    ensures SectorAt(data, s, per, q) == Block(buf, q)
  {
    Decompose(q, per, |s|);
    BlockOfFilled(before, data, s, per, buf, w, q / per, q % per, q);
  }

  lemma ByteOfBlock(buf: seq<byte>, q: nat, r: nat)
    requires (q + 1) * SECTOR_SIZE <= |buf| && r < SECTOR_SIZE
    ensures Block(buf, q)[r] == buf[q * SECTOR_SIZE + r]
  {}

  lemma ByteOfFilled(before: Clusters, data: Clusters, s: Chain, per: nat, buf: seq<byte>, w: nat, j: nat, q: nat)
    requires per > 0 && Shaped(before, per) && Shaped(data, per) && InData(s, data)
    requires w * SECTOR_SIZE <= |buf| && w <= Span(|s|, per) && q == j / SECTOR_SIZE && q < w
    requires Filled(before, data, s, per, buf, w)
    ensures SectorAt(data, s, per, q)[j % SECTOR_SIZE] == buf[j]
  {
    SectorOfFilled(before, data, s, per, buf, w, q);
    ByteOfBlock(buf, q, j % SECTOR_SIZE);
  }

  lemma ContentsOfFilled(before: Clusters, data: Clusters, s: Chain, per: nat, buf: seq<byte>, n: nat)
    requires per > 0 && Shaped(before, per) && Shaped(data, per) && InData(s, data)
    requires SectorsFor(n) * SECTOR_SIZE <= |buf| && SectorsFor(n) <= Span(|s|, per)
    requires Filled(before, data, s, per, buf, SectorsFor(n))
    ensures n <= |Contents(data, s, per)| && Contents(data, s, per)[..n] == buf[..n]
  {
    var file := Contents(data, s, per);
    assert n <= |file|;
    forall j: nat | j < n ensures file[j] == buf[j] {
      ByteOfFilled(before, data, s, per, buf, SectorsFor(n), j, j / SECTOR_SIZE);
    }
    assert file[..n] == buf[..n];
  }

  ghost function PlaceIn(s: Chain, c: nat): (k: nat)
    requires c in s
    ensures k < |s| && s[k] == c
  {
    var k: nat :| k < |s| && s[k] == c;
    k
  }

  ghost function ClusterAfter(cluster: seq<Sector>, s: Chain, c: nat, per: nat, buf: seq<byte>, w: nat)
    : (r: seq<Sector>)
    requires |cluster| == per && w * SECTOR_SIZE <= |buf|
    ensures |r| == per
  {
    if c in s
    then seq<Sector>(per, i requires 0 <= i < per => Expected(cluster, per, buf, w, PlaceIn(s, c), i))
    else cluster
  }

  /** All clusters once the first `w` blocks of `buf` are written along the chain `s`. */
  ghost function Filling(before: Clusters, s: Chain, per: nat, buf: seq<byte>, w: nat): (r: Clusters)
    requires Shaped(before, per) && w * SECTOR_SIZE <= |buf|
    ensures |r| == |before| && Shaped(r, per)
    ensures forall c {:trigger r[c]} | 0 <= c < |r| :: r[c] == ClusterAfter(before[c], s, c, per, buf, w)
  {
    seq<seq<Sector>>(|before|, c requires 0 <= c < |before| => ClusterAfter(before[c], s, c, per, buf, w))
  }

  ghost predicate NoRepeat(s: Chain) { forall i, j | 0 <= i < j < |s| :: s[i] != s[j] }

  lemma ChainNoRepeat(fat: Fat, s: Chain)
    requires Small(fat) && IsChain(fat, s)
    ensures NoRepeat(s)
  {
    forall i, j | 0 <= i < j < |s| ensures s[i] != s[j] { ChainAcyclic(fat, s, i, j); }
  }

  /** The two ways of saying it agree. */
  lemma FillingIsFilled(before: Clusters, data: Clusters, s: Chain, per: nat, buf: seq<byte>, w: nat)
    requires Shaped(before, per) && InData(s, before) && NoRepeat(s) && w * SECTOR_SIZE <= |buf|
    requires data == Filling(before, s, per, buf, w)
    ensures Filled(before, data, s, per, buf, w)
  {
    forall k: nat, i: nat | k < |s| && i < per ensures data[s[k]][i] == Expected(before[s[k]], per, buf, w, k, i) {
      assert s[k] in s && PlaceIn(s, s[k]) == k;
    }
  }

  lemma FilledIsFilling(before: Clusters, data: Clusters, s: Chain, per: nat, buf: seq<byte>, w: nat)
    requires Shaped(before, per) && Shaped(data, per) && InData(s, data) && w * SECTOR_SIZE <= |buf|
    requires Filled(before, data, s, per, buf, w)
    ensures data == Filling(before, s, per, buf, w)
  {
    var r := Filling(before, s, per, buf, w);
    forall c: nat | c < |data| ensures data[c] == r[c] {
      assert r[c] == ClusterAfter(before[c], s, c, per, buf, w);
      if c in s {
        var k := PlaceIn(s, c);
        forall i: nat | i < per ensures data[c][i] == r[c][i] {
          assert data[s[k]][i] == Expected(before[s[k]], per, buf, w, k, i);
        }
      }
    }
  }

  /** Filling one more cluster of a chain. */
  lemma FillingByCluster(fat: Fat, before: Clusters, data: Clusters, data': Clusters, s: Chain, per: nat,
                         buf: seq<byte>, k: nat, w: nat, w': nat)
    requires Small(fat) && IsChain(fat, s) && |before| == |fat| && Shaped(before, per) && Shaped(data', per)
    requires w <= w' <= w + per && w' * SECTOR_SIZE <= |buf| && w == Span(k, per) && k < |s|
    requires data == Filling(before, s, per, buf, w)
    requires |data'| == |data| && data' == data[s[k] := data'[s[k]]]
    requires forall i: nat | i < per ::
               data'[s[k]][i] == if w + i < w' then Block(buf, w + i) else data[s[k]][i]
    ensures data' == Filling(before, s, per, buf, w')
  {
    ChainNoRepeat(fat, s);
    FillingIsFilled(before, data, s, per, buf, w);
    FilledByCluster(before, data, data', s, per, buf, k, w, w');
    FilledIsFilling(before, data', s, per, buf, w');
  }

  /** A cluster added at the end makes no difference yet, */
  lemma FillingGrow(fat: Fat, before: Clusters, s: Chain, per: nat, buf: seq<byte>, w: nat, c: nat)
    requires Small(fat) && IsChain(fat, s) && |before| == |fat| && Shaped(before, per) && w * SECTOR_SIZE <= |buf|
    requires c < |before| && c !in s && w <= Span(|s|, per)
    ensures Filling(before, s + [c], per, buf, w) == Filling(before, s, per, buf, w)
  {
    var data := Filling(before, s, per, buf, w);
    ChainNoRepeat(fat, s);
    FillingIsFilled(before, data, s, per, buf, w);
    FilledGrow(before, data, s, per, buf, w, c);
    FilledIsFilling(before, data, s + [c], per, buf, w);
  }

  /** nor does one cut off that was not reached. */
  lemma FillingCut(fat: Fat, before: Clusters, s: Chain, per: nat, buf: seq<byte>, w: nat, m: nat)
    requires Small(fat) && IsChain(fat, s) && |before| == |fat| && Shaped(before, per) && w * SECTOR_SIZE <= |buf|
    requires m <= |s| && w <= Span(m, per)
    ensures Filling(before, s[..m], per, buf, w) == Filling(before, s, per, buf, w)
  {
    var data := Filling(before, s, per, buf, w);
    ChainNoRepeat(fat, s);
    FillingIsFilled(before, data, s, per, buf, w);
    FilledCut(before, data, s, per, buf, w, m);
    FilledIsFilling(before, data, s[..m], per, buf, w);
  }

  lemma FillingNone(data: Clusters, s: Chain, per: nat, buf: seq<byte>)
    requires Shaped(data, per) && InData(s, data)
    ensures data == Filling(data, s, per, buf, 0)
  {
    FilledNone(data, s, per, buf);
    FilledIsFilling(data, data, s, per, buf, 0);
  }

  /** The data a write leaves: on success all of `buf[..size]`, on a full disk as many blocks as the
      clusters it got can hold. */
  ghost predicate Wrote(before: Clusters, data: Clusters, t: Chain, ok: bool, per: nat, buf: seq<byte>, size: nat)
    requires SectorsFor(size) * SECTOR_SIZE <= |buf|
  {
    && per > 0 && Shaped(before, per) && Shaped(data, per) && InData(t, data)
    && (ok ==> size <= |Contents(data, t, per)| && Contents(data, t, per)[..size] == buf[..size])
    && (!ok ==> Span(|t|, per) < SectorsFor(size))
    && data == Filling(before, t, per, buf, if ok then SectorsFor(size) else Span(|t|, per))
  }

  /** Where the outer loop of a write ends, after `m` clusters of data or on a full disk: `c` is where the chain
      is to end, and `w` the number of blocks written. */
  ghost predicate Laid(t: Chain, ok: bool, c: nat, m: nat, per: nat, size: nat, w: nat) {
    if ok
    then |t| > 0 && m <= |t| && c == t[if |t| == m then m - 1 else m] && w == SectorsFor(size) <= Span(m, per)
    else w == Span(|t|, per) < SectorsFor(size)
  }

  /** The end mark goes where the chain specification puts it. */
  lemma FinishWrite(fat: Fat, s: Chain, m: nat, fat': Fat, t: Chain, c: nat)
    requires |s| > 0 && forall k | 0 <= k < |s| :: 2 <= s[k] < |fat|
    requires Extend(fat, s, m) == Written(fat', t, true)
    requires |t| > 0 && m <= |t| && c == t[if |t| == m then m - 1 else m]
    ensures WriteChain(fat, s, m) == Written(fat'[c := EOC], if |t| <= m then t else t[..m + 1], true)
  {}

  /** Cutting the chain after the loop. */
  lemma WroteAll(fat: Fat, before: Clusters, data: Clusters, s: Chain, c: nat, m: nat, per: nat, buf: seq<byte>,
      size: nat)
    requires SectorsFor(size) * SECTOR_SIZE <= |buf| && per > 0
    requires Small(fat) && IsChain(fat, s) && |before| == |fat| && Shaped(before, per)
    requires Laid(s, true, c, m, per, size, SectorsFor(size)) && data == Filling(before, s, per, buf, SectorsFor(size))
    ensures Wrote(before, data, if |s| <= m then s else s[..m + 1], true, per, buf, size)
  {
    var w, t := SectorsFor(size), if |s| <= m then s else s[..m + 1];
    assert |s| > m ==> Span(m + 1, per) == Span(m, per) + per;
    FillingCut(fat, before, s, per, buf, w, |t|);
    assert s[..|t|] == t;
    ChainNoRepeat(fat, s);
    FillingIsFilled(before, data, t, per, buf, w);
    ContentsOfFilled(before, data, t, per, buf, size);
  }

  /** On a full disk the chain stays as far as it grew, with as many blocks as fit. */
  lemma WroteSome(fat: Fat, s: Chain, m: nat, fat': Fat, before: Clusters, data: Clusters, t: Chain, c: nat, per: nat,
      buf: seq<byte>, size: nat, w: nat)
    requires |s| > 0 && (forall k | 0 <= k < |s| :: 2 <= s[k] < |fat|) && Extend(fat, s, m) == Written(fat', t, false)
    requires SectorsFor(size) * SECTOR_SIZE <= |buf| && per > 0 && Shaped(before, per)
    requires |before| == |fat'| && Laid(t, false, c, m, per, size, w) && w <= SectorsFor(size)
    requires data == Filling(before, t, per, buf, w)
    ensures WriteChain(fat, s, m) == Written(fat', t, false) && Wrote(before, data, t, false, per, buf, size)
  {}

  /** In the outer loop of a write, before cluster `k` of the chain is filled. */
  ghost predicate Underway(t: Chain, c: nat, k: nat, per: nat, size: nat, written: nat, w: nat) {
    k < |t| && c == t[k] && w == Span(k, per) && written == w * SECTOR_SIZE < size
  }

  /** How the outer loop of a write ends in cluster `k`: the data is written, with another cluster following or with
      none and the chain as long as it has to be, or the disk is full. */
  ghost predicate Ended(fat: Fat, t: Chain, ok: bool, c: nat, k: nat, m: nat, per: nat, total: nat, w: nat) {
    && k < |t|
    && (ok ==> c == t[k] && w == total <= Span(m, per) && (k == m || (k + 1 == m && m == |t|)))
    && (!ok ==> k + 1 == |t| < m && FirstFree(fat, 2) == 0 && w == Span(|t|, per) < total)
  }

  lemma EndedIsLaid(fat: Fat, t: Chain, ok: bool, c: nat, k: nat, m: nat, per: nat, size: nat, w: nat)
    requires IsChain(fat, t) && Ended(fat, t, ok, c, k, m, per, SectorsFor(size), w)
    ensures Laid(t, ok, c, m, per, size, w) && Extend(fat, t, m) == Written(fat, t, ok)
  {}

  /** A write to one file leaves every byte of every other live file as it was. */
  lemma WriteSparesOtherFiles(v: Volume, start: nat, n: nat, d: nat, before: Clusters, data: Clusters,
                              per: nat, buf: seq<byte>, w: nat)
    requires Forest(v) && start in v.live && d in v.live && d != start && |before| == |v.fat|
    requires per > 0 && Shaped(before, per) && Shaped(data, per) && w * SECTOR_SIZE <= |buf|
    requires data == Filling(before, WriteChain(v.fat, v.live[start], n).chain, per, buf, w)
    ensures InData(v.live[d], before) && InData(v.live[d], data)
    ensures Contents(data, v.live[d], per) == Contents(before, v.live[d], per)
  {
    WriteDisjoint(v, start, n, d);
    assert forall k | 0 <= k < |v.live[d]| :: data[v.live[d][k]] == before[v.live[d][k]];
    SameContents(before, data, v.live[d], per);
  }

  lemma WriteDisjoint(v: Volume, start: nat, n: nat, d: nat)
    requires Forest(v) && start in v.live && d in v.live && d != start
    ensures forall k | 0 <= k < |v.live[d]| ::
              v.live[d][k] < |v.fat| && v.live[d][k] !in WriteChain(v.fat, v.live[start], n).chain
  {
    var v' := Step(v, Write(start, n));
    WriteEdits(v, start, n);
    EditSpares(v, v', start, d);
    assert At(v', start) == WriteChain(v.fat, v.live[start], n).chain;
  }

  lemma SameContents(before: Clusters, data: Clusters, s: Chain, per: nat)
    requires per > 0 && Shaped(before, per) && Shaped(data, per) && InData(s, before) && InData(s, data)
    requires forall k | 0 <= k < |s| :: data[s[k]] == before[s[k]]
    ensures Contents(data, s, per) == Contents(before, s, per)
  {
    forall q: nat | q < Span(|s|, per) ensures SectorAt(data, s, per, q) == SectorAt(before, s, per, q) {
      Decompose(q, per, |s|);
    }
  }

  // ---------------------------------------------------------------- the driver

  ghost function EntriesOf(g: Geometry, d: Disk): (fat: Fat)
    requires g.Sound() && |d| == g.totalSectors
    ensures |fat| == g.clusters && forall c: nat {:trigger fat[c]} | c < g.clusters :: fat[c] == Entry(g, d, c)
  {
    seq(g.clusters, c requires 0 <= c < g.clusters => Entry(g, d, c))
  }

  /** The sectors of one cluster; the two reserved entries have none and stand for blank ones. */
  ghost function ClusterOf(g: Geometry, d: Disk, c: nat): (cluster: seq<Sector>)
    requires g.Sound() && |d| == g.totalSectors && c < g.clusters
    ensures |cluster| == g.per
    ensures c >= 2 ==> forall i: nat {:trigger cluster[i]} | i < g.per :: cluster[i] == Data(g, d, c, i)
  {
    seq<Sector>(g.per, i requires 0 <= i < g.per => SectorOrBlank(g, d, c, i))
  }

  ghost function ClustersOf(g: Geometry, d: Disk): (data: Clusters)
    requires g.Sound() && |d| == g.totalSectors
    ensures |data| == g.clusters
    ensures forall c: nat {:trigger data[c]} | c < g.clusters :: data[c] == ClusterOf(g, d, c)
  {
    seq<seq<Sector>>(g.clusters, c requires 0 <= c < g.clusters => ClusterOf(g, d, c))
  }

  ghost function SectorOrBlank(g: Geometry, d: Disk, c: nat, i: nat): Sector
    requires g.Sound() && |d| == g.totalSectors && c < g.clusters && i < g.per
  {
    if c < 2 then Zeroed() else Data(g, d, c, i)
  }

  ghost function Zeroed(): Sector {
    var zeros: seq<byte> := seq<byte>(SECTOR_SIZE, _ => 0);
    zeros
  }

  /** Entry `c` is the four bytes at `4 * c` of the first table, without the top four bits. */
  ghost predicate OnTable(g: Geometry, d: Disk, fat: Fat, c: nat) {
    && c < |fat| && g.firstFat + 4 * c / 512 < |d| && 4 * c % 512 + 4 <= SECTOR_SIZE
    && HoldsEntry(d[g.firstFat + 4 * c / 512], 4 * c % 512, fat[c])
  }

  ghost predicate PutsAt(d: Disk, d': Disk, k: int, x: Sector) { 0 <= k < |d| && d' == d[k := x] }

  /** Sector `i` of cluster `c` is that many sectors into the data area, which starts with cluster 2. */
  ghost predicate OnArea(g: Geometry, d: Disk, data: Clusters, c: nat, i: nat) {
    && 2 <= c < |data| && i < |data[c]| && g.firstData + (c - 2) * g.per + i < |d|
    && data[c][i] == d[g.firstData + (c - 2) * g.per + i]
  }

  /** Byte `j` of sector `i` of the file's cluster `k`, if it is asked for, is that byte of the disk. */
  ghost predicate ByteOnDisk(g: Geometry, d: Disk, s: Chain, bytes: seq<byte>, k: nat, i: nat, j: nat) {
    k < |s| && i < g.per && j < 512 && (k * g.per + i) * 512 + j < |bytes| ==>
      && 2 <= s[k] && g.firstData + (s[k] - 2) * g.per + i < |d|
      && bytes[(k * g.per + i) * 512 + j] == d[g.firstData + (s[k] - 2) * g.per + i][j]
  }

  /** Where byte `j` of sector `i` of cluster `k` comes in a file. */
  lemma ContentsAt(data: Clusters, s: Chain, per: nat, k: nat, i: nat, j: nat)
    requires per > 0 && Shaped(data, per) && InData(s, data) && k < |s| && i < per && j < SECTOR_SIZE
    ensures (k * per + i) * SECTOR_SIZE + j < |Contents(data, s, per)|
    ensures Contents(data, s, per)[(k * per + i) * SECTOR_SIZE + j] == data[s[k]][i][j]
  {
    var q := k * per + i;
    SpanIsProduct(k, per);
    SpanIsProduct(|s|, per);
    MulGap(k, |s|, per);
    Recompose(k, i, per);
    Quotient(q * SECTOR_SIZE + j, SECTOR_SIZE, q, j);
  }

  lemma LoadedAt(buffer: seq<byte>, file: seq<byte>, n: nat)
    requires n < |file| && n < |buffer|
    ensures n < |Loaded(buffer, file)| && Loaded(buffer, file)[n] == file[n]
  {}

  datatype Move = Go | Stop | Fail

  class FileSystem {
    const g: Geometry
    var disk: Disk

    ghost var fat: Fat
    ghost var data: Clusters

    ghost predicate Valid()
      reads this
    {
      && g.Sound() && |disk| == g.totalSectors && CopiesAgree(g, disk)
      && |fat| == g.clusters
      && (forall c: nat {:trigger Entry(g, disk, c)} | c < g.clusters :: fat[c] == Entry(g, disk, c))
      && |data| == g.clusters
      && (forall c: nat {:trigger data[c]} | c < g.clusters :: |data[c]| == g.per)
      && (forall c: nat, i: nat {:trigger Data(g, disk, c, i)} | 2 <= c < g.clusters && i < g.per ::
            data[c][i] == Data(g, disk, c, i))
    }

    /** Mount an image whose FAT copies agree: `fat` and `data` are read off its bytes. */
    constructor (b: BootSector, image: Disk)
      requires Mountable(b) && |image| == b.TotalSectors()
      requires Initialize(b).g.Sound() ==> CopiesAgree(Initialize(b).g, image)
      ensures Valid() && g == Initialize(b).g && disk == image
      ensures g.firstFat == b.reservedSectors && g.tableSize == b.tableSize32 && g.per == b.sectorsPerCluster
      ensures g.firstData == b.reservedSectors + b.tableCount * b.FatSize() + (b.rootEntries * 32 + 511) / 512
    {
      InitializeIsSound(b);
      g := Initialize(b).g;
      disk := image;
      fat := EntriesOf(Initialize(b).g, image);
      data := ClustersOf(Initialize(b).g, image);
    }

    /** Whatever was done, the table and the data are where the layout has them on the disk. */
    lemma OnDisk()
      requires Valid()
      ensures forall c: nat :: c < g.clusters ==> OnTable(g, disk, fat, c)
      ensures forall c: nat, i: nat :: 2 <= c < g.clusters && i < g.per ==> OnArea(g, disk, data, c, i)
    {
      forall c: nat | c < g.clusters ensures OnTable(g, disk, fat, c) {
        EntryOnDisk(g, disk, c);
        assert fat[c] == Entry(g, disk, c);
      }
      forall c: nat, i: nat | 2 <= c < g.clusters && i < g.per ensures OnArea(g, disk, data, c, i) {
        assert data[c][i] == Data(g, disk, c, i);
      }
    }

    method ReadFatEntry(c: nat) returns (v: nat)
      requires Valid() && c < g.clusters
      ensures v == fat[c] && OnTable(g, disk, fat, c)
    {
      EntryOnDisk(g, disk, c);
      EntrySectorInFat(g, c);
      var sector := disk[g.FatSector(0, EntrySector(c))];
      v := Le32(sector, EntryOffset(c)) % ENTRY_MASK;
      assert v == Entry(g, disk, c);
    }

    method UpdateFatEntry(c: nat, v: nat)
      requires Valid() && c < g.clusters
      modifies this
      ensures Valid() && data == old(data)
      ensures fat == old(fat)[c := v % ENTRY_MASK]
    {
      EntrySectorInFat(g, c);
      var s := EntrySector(c);
      var sector := PutLe32(disk[g.FatSector(0, s)], EntryOffset(c), v % ENTRY_MASK);
      var t := 0;
      while t < g.tableCount
        invariant t <= g.tableCount
        invariant disk == WriteCopies(g, old(disk), s, sector, t)
        invariant fat == old(fat) && data == old(data)
      {
        disk := disk[g.FatSector(t, s) := sector];
        t := t + 1;
      }
      assert disk == PutEntry(g, old(disk), c, v);
      PutEntryFrame(g, old(disk), c, v);
      fat := fat[c := v % ENTRY_MASK];
      forall e: nat | e < g.clusters ensures fat[e] == Entry(g, disk, e) {
        PutEntryReads(g, old(disk), c, v, e);
        assert old(fat)[e] == Entry(g, old(disk), e);
      }
      forall e: nat, i: nat | 2 <= e < g.clusters && i < g.per
        ensures data[e][i] == Data(g, disk, e, i)
      {
        assert data[e][i] == Data(g, old(disk), e, i);
      }
    }

    method WriteSector(c: nat, i: nat, x: Sector)
      requires Valid() && 2 <= c < g.clusters && i < g.per
      modifies this
      ensures Valid() && fat == old(fat)
      ensures data == WithSector(old(data), c, i, x)
      ensures PutsAt(old(disk), disk, g.firstData + (c - 2) * g.per + i, x)
    {
      PutDataFrame(g, disk, c, i, x);
      ghost var d0 := disk;
      disk := disk[g.DataSector(c, i) := x];
      data := WithSector(data, c, i, x);
      forall e: nat | e < g.clusters ensures fat[e] == Entry(g, disk, e) {
        assert fat[e] == Entry(g, d0, e);
      }
      forall e: nat, j: nat | 2 <= e < g.clusters && j < g.per
        ensures data[e][j] == Data(g, disk, e, j)
      {
        assert old(data)[e][j] == Data(g, d0, e, j);
      }
    }

    method ReadSector(c: nat, i: nat) returns (x: Sector)
      requires Valid() && 2 <= c < g.clusters && i < g.per
      ensures x == data[c][i] && OnArea(g, disk, data, c, i)
    {
      x := disk[g.DataSector(c, i)];
      assert x == Data(g, disk, c, i);
    }

    /** First fit from cluster 2; 0 when no cluster is free. */
    method AllocateCluster() returns (c: nat)
      requires Valid()
      modifies this
      ensures Valid() && data == old(data)
      ensures c == FirstFree(old(fat), 2)
      ensures fat == if c == 0 then old(fat) else old(fat)[c := EOC]
      ensures c != 0 ==> fat[c] == 0x0FFF_FFF8
    {
      c := 2;
      while c < g.clusters
        invariant 2 <= c <= g.clusters
        invariant Valid() && fat == old(fat) && data == old(data)
        invariant FirstFree(fat, c) == FirstFree(fat, 2)
      {
        var entry := ReadFatEntry(c);
        if entry == 0 {
          UpdateFatEntry(c, EOC);
          return;
        }
        c := c + 1;
      }
      c := 0;
    }

    /** Clusters outside the scanned range are ignored. */
    method FreeCluster(c: nat)
      requires Valid()
      modifies this
      ensures Valid() && data == old(data)
      ensures fat == if 2 <= c < |old(fat)| then old(fat)[c := 0] else old(fat)
    {
      if c < 2 || c >= g.clusters { return; }
      UpdateFatEntry(c, 0);
    }

    /** The chain-freeing loop that ends a deletion. */
    method FreeFile(start: nat, ghost s: Chain)
      requires Valid() && IsChain(fat, s) && s[0] == start
      modifies this
      ensures Valid() && data == old(data)
      ensures fat == FreeChain(old(fat), s)
    {
      var c := start;
      ghost var k := 0;
      while c < EOC
        invariant 0 <= k < |s| && c == s[k]
        invariant Valid() && data == old(data)
        invariant fat == FreeChain(old(fat), s[..k])
        decreases |s| - k
      {
        forall j | 0 <= j < k ensures s[j] != s[k] { ChainAcyclic(old(fat), s, j, k); }
        var next := ReadFatEntry(c);
        assert next == old(fat)[s[k]];
        FreeCluster(c);
        assert s[..k + 1] == s[..k] + [c];
        assert fat == FreeChain(old(fat), s[..k + 1]);
        assert k == |s| - 1 ==> s[..k + 1] == s;
        if next >= EOC { break; }
        if next == BAD { break; }
        c := next;
        k := k + 1;
      }
    }

    /** One sector of the buffer. */
    method WriteBlock(c: nat, i: nat, buf: seq<byte>, q: nat)
      requires Valid() && 2 <= c < g.clusters && i < g.per && (q + 1) * SECTOR_SIZE <= |buf|
      modifies this
      ensures Valid() && fat == old(fat) && data == WithSector(old(data), c, i, Block(buf, q))
    {
      WriteSector(c, i, Block(buf, q));
    }

    /** The inner loop of a write: fill one cluster until it or the data ends. */
    method WriteCluster(c: nat, buf: seq<byte>, written: nat, size: nat, ghost w: nat)
      returns (written': nat, ghost w': nat)
      requires Valid() && 2 <= c < g.clusters
      requires written == w * SECTOR_SIZE < size && SectorsFor(size) * SECTOR_SIZE <= |buf|
      modifies this
      ensures Valid() && fat == old(fat)
      ensures written' == w' * SECTOR_SIZE
      ensures w < w' <= w + g.per && w' <= SectorsFor(size)
      ensures w' == w + g.per || w' == SectorsFor(size)
      ensures |data| == |old(data)| && data == old(data)[c := data[c]]
      ensures forall i: nat | i < g.per ::
                data[c][i] == if w + i < w' then Block(buf, w + i) else old(data)[c][i]
    {
      written', w' := written, w;
      var i := 0;
      while i < g.per && written' < size
        invariant i <= g.per && Valid() && fat == old(fat)
        invariant w' == w + i && written' == w' * SECTOR_SIZE && w' <= SectorsFor(size)
        invariant |data| == |old(data)| && data == old(data)[c := data[c]]
        invariant forall j: nat | j < g.per ::
          data[c][j] == if j < i then Block(buf, w + j) else old(data)[c][j]
      {
        WriteBlock(c, i, buf, written' / SECTOR_SIZE);
        written', w' := written' + SECTOR_SIZE, w' + 1;
        i := i + 1;
      }
    }

    /** Fill cluster `k` of a chain whose first `w == Span(k, per)` sectors are written. */
    method FillCluster(c: nat, buf: seq<byte>, written: nat, size: nat,
                       ghost before: Clusters, ghost t: Chain, ghost k: nat, ghost w: nat)
      returns (written': nat, ghost w': nat)
      requires Valid() && IsChain(fat, t) && k < |t| && c == t[k]
      requires written == w * SECTOR_SIZE < size && SectorsFor(size) * SECTOR_SIZE <= |buf|
      requires w == Span(k, g.per) && Shaped(before, g.per) && data == Filling(before, t, g.per, buf, w)
      modifies this
      ensures Valid() && fat == old(fat) && written' == w' * SECTOR_SIZE
      ensures w < w' <= SectorsFor(size)
      ensures w' < SectorsFor(size) ==> w' == Span(k + 1, g.per)
      ensures w' == SectorsFor(size) ==> ClustersFor(size, g.per) == k + 1
      ensures w' <= Span(k + 1, g.per)
      ensures data == Filling(before, t, g.per, buf, w')
    {
      var per := g.per;
      written', w' := WriteCluster(c, buf, written, size, w);
      FillingByCluster(fat, before, old(data), data, t, per, buf, k, w, w');
      assert Span(k + 1, per) == Span(k, per) + per;
      if w' == SectorsFor(size) { ClusterCount(size, per, k); }
    }

    /** Allocate a cluster and link it after the end `c` of the chain `t`. */
    method AppendCluster(c: nat, ghost t: Chain) returns (added: nat)
      requires Valid() && IsChain(fat, t) && c == t[|t| - 1]
      modifies this
      ensures Valid() && data == old(data) && added == FirstFree(old(fat), 2)
      ensures added == 0 ==> fat == old(fat)
      ensures added != 0 ==> added !in t && 2 <= added < |fat| && IsChain(fat, t + [added])
      ensures added != 0 ==> fat == old(fat)[added := EOC][c := added]
    {
      added := AllocateCluster();
      if added != 0 {
        LinkKeepsChain(old(fat), t, added);
        UpdateFatEntry(c, added);
      }
    }

    /** After filling cluster `k`: follow the link, or at the end of the chain either stop or append. */
    method Advance(c: nat, more: bool, ghost t: Chain, ghost k: nat)
      returns (move: Move, c': nat, ghost t': Chain)
      requires Valid() && IsChain(fat, t) && k < |t| && c == t[k]
      modifies this
      ensures Valid() && data == old(data) && IsChain(fat, t')
      ensures move ==
              if k < |t| - 1 then Go
              else if !more then Stop
              else if FirstFree(old(fat), 2) == 0 then Fail
              else Go
      ensures c' == if move.Go? && k + 1 < |t'| then t'[k + 1] else c
      ensures t' == if move.Go? && k == |t| - 1 then t + [FirstFree(old(fat), 2)] else t
      ensures t' == t ==> fat == old(fat)
      ensures t' != t ==> t'[|t|] !in t && fat == old(fat)[t'[|t|] := EOC][c := t'[|t|]]
    {
      c', t' := c, t;
      var next := ReadFatEntry(c);
      assert k < |t| - 1 ==> next == t[k + 1];
      if next >= EOC {
        if more {
          var added := AppendCluster(c, t);
          if added == 0 {
            return Fail, c, t;
          }
          return Go, added, t + [added];
        }
        return Stop, c, t;
      }
      if next == BAD {
        return Fail, c, t;
      }
      return Go, next, t;
    }

    /** The same, for a chain whose first `w` sectors are written and which is to have `m` clusters. */
    method NextCluster(c: nat, more: bool, ghost buf: seq<byte>, ghost before: Clusters, ghost t: Chain, ghost k: nat,
                       ghost w: nat, ghost m: nat)
      returns (move: Move, c': nat, ghost t': Chain)
      requires Valid() && IsChain(fat, t) && k < |t| && c == t[k] && (more ==> k + 1 < m)
      requires Shaped(before, g.per) && w * SECTOR_SIZE <= |buf| && w <= Span(k + 1, g.per)
      requires data == Filling(before, t, g.per, buf, w)
      modifies this
      ensures Valid() && data == old(data) && IsChain(fat, t')
      ensures data == Filling(before, t', g.per, buf, w)
      ensures Extend(fat, t', m) == Extend(old(fat), t, m)
      ensures move.Go? ==> k + 1 < |t'| && c' == t'[k + 1]
      ensures move.Stop? ==> !more && t' == t && k + 1 == |t| && c' == c
      ensures move.Fail? ==> t' == t && k + 1 == |t| < m && FirstFree(fat, 2) == 0
    {
      move, c', t' := Advance(c, more, t, k);
      if t' != t { FillingGrow(old(fat), before, t, g.per, buf, w, t'[|t|]); }
    }

    /** The outer loop of a write: grow the chain and fill it, block by block. */
    method WriteClusters(start: nat, buf: seq<byte>, size: nat, ghost s: Chain)
      returns (ok: bool, c: nat, ghost t: Chain, ghost w: nat)
      requires Valid() && IsChain(fat, s) && s[0] == start
      requires SectorsFor(size) * SECTOR_SIZE <= |buf|
      modifies this
      ensures Valid() && IsChain(fat, t)
      ensures Extend(old(fat), s, ClustersFor(size, g.per)) == Written(fat, t, ok)
      ensures Laid(t, ok, c, ClustersFor(size, g.per), g.per, size, w) && w <= SectorsFor(size)
      ensures Shaped(old(data), g.per) && data == Filling(old(data), t, g.per, buf, w)
    {
      ghost var k;
      ok, c, t, w, k := WriteLoop(start, buf, size, s, ClustersFor(size, g.per), SectorsFor(size));
      EndedIsLaid(fat, t, ok, c, k, ClustersFor(size, g.per), g.per, size, w);
    }

    /** The loop itself, towards `m` clusters and `total` blocks. */
    method WriteLoop(start: nat, buf: seq<byte>, size: nat, ghost s: Chain, ghost m: nat, ghost total: nat)
      returns (ok: bool, c: nat, ghost t: Chain, ghost w: nat, ghost k: nat)
      requires Valid() && IsChain(fat, s) && s[0] == start
      requires m == ClustersFor(size, g.per) && total == SectorsFor(size) && total * SECTOR_SIZE <= |buf|
      modifies this
      ensures Valid() && IsChain(fat, t) && w <= total && Extend(fat, t, m) == Extend(old(fat), s, m)
      ensures Ended(fat, t, ok, c, k, m, g.per, total, w)
      ensures Shaped(old(data), g.per) && data == Filling(old(data), t, g.per, buf, w)
    {
      c := start;
      var written := 0;
      ghost var before := data;
      t, w, k := s, 0, 0;
      ok := true;
      var more := size > 0;
      NoClusters(size, g.per);
      FillingNone(data, s, g.per, buf);
      while more
        invariant Valid() && IsChain(fat, t) && Extend(fat, t, m) == Extend(old(fat), s, m)
        invariant more ==> Underway(t, c, k, g.per, size, written, w)
        invariant !more ==> Ended(fat, t, ok, c, k, m, g.per, total, w)
        invariant w <= total && Shaped(before, g.per) && data == Filling(before, t, g.per, buf, w)
        decreases more, total - w
      {
        more, ok, c, written, t, w, k := WriteRound(c, buf, written, size, before, t, k, w, m);
      }
    }

    /** Fill one cluster and go on to the next, if there is more to write and a cluster for it. */
    method WriteRound(c: nat, buf: seq<byte>, written: nat, size: nat, ghost before: Clusters, ghost t: Chain,
                      ghost k: nat, ghost w: nat, ghost m: nat)
      returns (more: bool, ok: bool, c': nat, written': nat, ghost t': Chain, ghost w': nat, ghost k': nat)
      requires Valid() && IsChain(fat, t) && m == ClustersFor(size, g.per) && SectorsFor(size) * SECTOR_SIZE <= |buf|
      requires Underway(t, c, k, g.per, size, written, w)
      requires Shaped(before, g.per) && data == Filling(before, t, g.per, buf, w)
      modifies this
      ensures Valid() && IsChain(fat, t') && Extend(fat, t', m) == Extend(old(fat), t, m)
      ensures w < w' <= SectorsFor(size) && data == Filling(before, t', g.per, buf, w')
      ensures if more then Underway(t', c', k', g.per, size, written', w')
        else Ended(fat, t', ok, c', k', m, g.per, SectorsFor(size), w')
    {
      written', w' := FillCluster(c, buf, written, size, before, t, k, w);
      if written' < size { MoreClusters(size, g.per, k + 1); }
      var move;
      move, c', t' := NextCluster(c, written' < size, buf, before, t, k, w', m);
      more, ok := move.Go? && written' < size, !move.Fail?;
      k' := if move.Go? then k + 1 else k;
    }

    /**
      Overwrite the file that starts at `start`. `buf` is the memory at the caller's pointer: whole
      sectors are written, so the last one reads past `size` up to the next multiple of 512.
    */
    method WriteFile(start: nat, buf: seq<byte>, size: nat, ghost s: Chain) returns (ok: bool)
      requires Valid() && IsChain(fat, s) && s[0] == start
      requires SectorsFor(size) * SECTOR_SIZE <= |buf|
      modifies this
      ensures Valid()
      ensures var w := WriteChain(old(fat), s, ClustersFor(size, g.per));
        && fat == w.fat && ok == w.ok
        && Wrote(old(data), data, w.chain, w.ok, g.per, buf, size)
    {
      ghost var fat0, before, m := fat, data, ClustersFor(size, g.per);
      var c;
      ghost var t, w;
      ok, c, t, w := WriteClusters(start, buf, size, s);
      if ok {
        WroteAll(fat, before, data, t, c, m, g.per, buf, size);
        FinishWrite(fat0, s, m, fat, t, c);
        UpdateFatEntry(c, EOC);
      } else {
        WroteSome(fat0, s, m, fat, before, data, t, c, g.per, buf, size, w);
      }
    }

    /** Fill `buffer` from the file that starts at `start`; a file shorter than the buffer leaves the rest
        of the buffer alone. */
    method ReadFile(start: nat, buffer: array<byte>, ghost s: Chain)
      requires Valid() && IsChain(fat, s) && s[0] == start
      modifies buffer
      ensures Shaped(data, g.per) && InData(s, data) && g.per > 0
      ensures buffer[..] == Loaded(old(buffer[..]), Contents(data, s, g.per))
      ensures forall k: nat, i: nat, j: nat :: ByteOnDisk(g, disk, s, buffer[..], k, i, j)
    {
      ghost var was := buffer[..];
      ReadChain(start, buffer, s, Contents(data, s, g.per));
      BytesOnDisk(s, was, buffer[..]);
    }

    lemma BytesOnDisk(s: Chain, was: seq<byte>, bytes: seq<byte>)
      requires Valid() && IsChain(fat, s) && Shaped(data, g.per) && InData(s, data) && g.per > 0
      requires bytes == Loaded(was, Contents(data, s, g.per)) && |bytes| == |was|
      ensures forall k: nat, i: nat, j: nat :: ByteOnDisk(g, disk, s, bytes, k, i, j)
    {
      OnDisk();
      forall k: nat, i: nat, j: nat ensures ByteOnDisk(g, disk, s, bytes, k, i, j) {
        if k < |s| && i < g.per && j < 512 && (k * g.per + i) * 512 + j < |bytes| {
          assert OnArea(g, disk, data, s[k], i);
          ContentsAt(data, s, g.per, k, i, j);
          LoadedAt(was, Contents(data, s, g.per), (k * g.per + i) * 512 + j);
        }
      }
    }

    /** The outer loop of a read. */
    method ReadChain(start: nat, buffer: array<byte>, ghost s: Chain, ghost file: seq<byte>)
      requires Valid() && IsChain(fat, s) && s[0] == start && file == Contents(data, s, g.per)
      modifies buffer
      ensures buffer[..] == Loaded(old(buffer[..]), file)
    {
      var c := start;
      var read := 0;
      ghost var k := 0;
      while read < buffer.Length
        invariant read <= buffer.Length && read <= |file|
        invariant read < buffer.Length ==> k < |s| && c == s[k] && read == Span(k, g.per) * SECTOR_SIZE
        invariant buffer[..] == Loaded(old(buffer[..]), file[..read])
        decreases buffer.Length - read
      {
        read := ReadOne(c, buffer, read, s, k, file, old(buffer[..]));
        if read >= buffer.Length { break; }
        var next := ReadFatEntry(c);
        assert k < |s| - 1 ==> next == s[k + 1];
        if next >= EOC {
          assert k + 1 == |s|;
          break;
        }
        if next == BAD { return; }
        c, k := next, k + 1;
      }
      LoadedAll(old(buffer[..]), file, read);
    }

    /** Cluster `k` of the file. */
    method ReadOne(c: nat, buffer: array<byte>, read: nat, ghost s: Chain, ghost k: nat, ghost file: seq<byte>,
                   ghost was: seq<byte>)
      returns (read': nat)
      requires Valid() && IsChain(fat, s) && k < |s| && c == s[k] && file == Contents(data, s, g.per)
      requires read == Span(k, g.per) * SECTOR_SIZE < buffer.Length && read <= |file|
      requires |was| == buffer.Length && buffer[..] == Loaded(was, file[..read])
      modifies buffer
      ensures read < read' <= buffer.Length && read' <= |file|
      ensures read' == buffer.Length || read' == Span(k + 1, g.per) * SECTOR_SIZE
      ensures buffer[..] == Loaded(was, file[..read'])
    {
      ContentsCluster(data, s, g.per, k, file);
      read' := ReadCluster(c, buffer, read, file, Span(k, g.per));
      SpliceLoaded(was, file, read, read');
    }

    /** Copy one sector, block `q` of the file, or what of it fits. */
    method ReadSectorInto(c: nat, i: nat, buffer: array<byte>, read: nat, ghost file: seq<byte>, ghost q: nat)
      returns (read': nat)
      requires Valid() && 2 <= c < g.clusters && i < g.per && read == q * SECTOR_SIZE < buffer.Length
      requires (q + 1) * SECTOR_SIZE <= |file| && Block(file, q) == data[c][i]
      modifies buffer
      ensures read < read' <= buffer.Length && read' <= |file|
      ensures read' == buffer.Length || read' == (q + 1) * SECTOR_SIZE
      ensures buffer[..] == Spliced(old(buffer[..]), file, read, read')
    {
      var x := ReadSector(c, i);
      var n := buffer.Length - read;
      if n > SECTOR_SIZE { n := SECTOR_SIZE; }
      CopyInto(buffer, read, x, n);
      read' := read + n;
      BlockSplice(old(buffer[..]), file, x, read, n, q);
    }

    /** The inner loop of a read: sectors of one cluster, blocks `base` and on, until it or the buffer ends. */
    method ReadCluster(c: nat, buffer: array<byte>, read: nat, ghost file: seq<byte>, ghost base: nat)
      returns (read': nat)
      requires Valid() && 2 <= c < g.clusters && read == base * SECTOR_SIZE < buffer.Length
      requires (base + g.per) * SECTOR_SIZE <= |file| && HoldsBlocks(data[c], file, base)
      modifies buffer
      ensures read < read' <= buffer.Length && read' <= |file|
      ensures read' == buffer.Length || read' == (base + g.per) * SECTOR_SIZE
      ensures buffer[..] == Spliced(old(buffer[..]), file, read, read')
    {
      read' := read;
      var i := 0;
      while i < g.per && read' < buffer.Length
        invariant i <= g.per && read <= read' <= buffer.Length && read' <= |file| && (i > 0 ==> read < read')
        invariant read' == buffer.Length || read' == (base + i) * SECTOR_SIZE
        invariant buffer[..] == Spliced(old(buffer[..]), file, read, read')
      {
        ghost var at := read';
        assert data[c][i] == Block(file, base + i);
        read' := ReadSectorInto(c, i, buffer, read', file, base + i);
        SpliceTwice(old(buffer[..]), file, read, at, read');
        i := i + 1;
      }
    }
  }

  /** The cluster's sectors are the blocks of the file from `base` on. */
  ghost predicate HoldsBlocks(cluster: seq<Sector>, file: seq<byte>, base: nat)
    requires (base + |cluster|) * SECTOR_SIZE <= |file|
  {
    forall i: nat {:trigger cluster[i]} | i < |cluster| :: cluster[i] == Block(file, base + i)
  }

  /** Bytes of the file from its first `min` positions, over whatever the buffer held. */
  ghost function Loaded(buffer: seq<byte>, file: seq<byte>): seq<byte> {
    if |file| < |buffer| then file + buffer[|file|..] else file[..|buffer|]
  }

  lemma LoadedAll(buffer: seq<byte>, file: seq<byte>, n: nat)
    requires n <= |file| && (n == |buffer| || n == |file|)
    ensures Loaded(buffer, file[..n]) == Loaded(buffer, file)
  {}

  /** The buffer with positions `i` to `j` taken from the file. */
  ghost function Spliced(buffer: seq<byte>, file: seq<byte>, i: nat, j: nat): seq<byte>
    requires i <= j <= |buffer| && j <= |file|
  {
    buffer[..i] + file[i..j] + buffer[j..]
  }

  lemma SpliceTwice(buffer: seq<byte>, file: seq<byte>, i: nat, j: nat, l: nat)
    requires i <= j <= l <= |buffer| && l <= |file|
    ensures Spliced(Spliced(buffer, file, i, j), file, j, l) == Spliced(buffer, file, i, l)
  {}

  lemma SpliceLoaded(buffer: seq<byte>, file: seq<byte>, i: nat, j: nat)
    requires i <= j <= |buffer| && j <= |file|
    ensures Spliced(Loaded(buffer, file[..i]), file, i, j) == Loaded(buffer, file[..j])
  {}

  lemma BlockSplice(buffer: seq<byte>, file: seq<byte>, x: Sector, read: nat, n: nat, q: nat)
    requires n <= SECTOR_SIZE && read == q * SECTOR_SIZE && read + n <= |buffer| && (q + 1) * SECTOR_SIZE <= |file|
    requires x == Block(file, q)
    ensures buffer[..read] + x[..n] + buffer[read + n..] == Spliced(buffer, file, read, read + n)
  {
    assert x[..n] == file[read..read + n];
  }

  lemma ContentsSector(data: Clusters, s: Chain, per: nat, k: nat, i: nat, q: nat, file: seq<byte>)
    requires per > 0 && Shaped(data, per) && InData(s, data) && k < |s| && i < per && q == Span(k, per) + i
    requires file == Contents(data, s, per) && (q + 1) * SECTOR_SIZE <= |file|
    ensures Block(file, q) == data[s[k]][i]
  {
    Recompose(k, i, per);
    forall r | 0 <= r < SECTOR_SIZE ensures Block(file, q)[r] == data[s[k]][i][r] {
      var j := q * SECTOR_SIZE + r;
      assert j / SECTOR_SIZE == q && j % SECTOR_SIZE == r;
    }
  }

  lemma ContentsCluster(data: Clusters, s: Chain, per: nat, k: nat, file: seq<byte>)
    requires per > 0 && Shaped(data, per) && InData(s, data) && k < |s| && file == Contents(data, s, per)
    ensures (Span(k, per) + per) * SECTOR_SIZE <= |file| && HoldsBlocks(data[s[k]], file, Span(k, per))
  {
    SpanGrows(k, |s|, per);
    forall i: nat | i < per ensures data[s[k]][i] == Block(file, Span(k, per) + i) {
      ContentsSector(data, s, per, k, i, Span(k, per) + i, file);
    }
  }

  method CopyInto(buffer: array<byte>, at: nat, x: Sector, n: nat)
    requires n <= SECTOR_SIZE && at + n <= buffer.Length
    modifies buffer
    ensures buffer[..] == old(buffer[..at]) + x[..n] + old(buffer[at + n..])
  {
    for j := 0 to n
      invariant forall i | 0 <= i < buffer.Length :: buffer[i] == if at <= i < at + j then x[i - at] else old(buffer[i])
    {
      buffer[at + j] := x[j];
    }
  }

  /** What is written is what is read back, from the same first cluster, however the chain grew, shrank or
      stayed in between. */
  method RoundTrip(fs: FileSystem, start: nat, buf: seq<byte>, buffer: array<byte>, ghost s: Chain)
    returns (ok: bool)
    requires fs.Valid() && IsChain(fs.fat, s) && s[0] == start
    requires SectorsFor(buffer.Length) * SECTOR_SIZE <= |buf|
    modifies fs, buffer
    ensures fs.Valid()
    ensures ok == Extend(old(fs.fat), s, ClustersFor(buffer.Length, fs.g.per)).ok
    ensures ok ==> buffer[..] == buf[..buffer.Length]
  {
    ok := fs.WriteFile(start, buf, buffer.Length, s);
    if ok {
      ghost var m := ClustersFor(buffer.Length, fs.g.per);
      WriteGrows(old(fs.fat), s, m);
      fs.ReadFile(start, buffer, WriteChain(old(fs.fat), s, m).chain);
    }
  }
}
