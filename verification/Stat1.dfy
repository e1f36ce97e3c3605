/** The streaming counters and the sqlite_stat1 line made from them. */
module Stat1 {
  import opened Arithmetic
  import opened Stat4Runs
  import opened Stat4
  import opened Stat4Invariant
  import opened Stat4Run
  import opened Stat4Exact
  import IntList

  /** The counters of every column describe row n-1 among the first n rows. */
  ghost predicate CountsSoFar(rows: seq<Key>, n: nat, j: nat, s: Sample)
    requires 0 < n <= |rows| && j < |s.anEq| == |s.anLt| == |s.anDLt| && forall k :: 0 <= k < |rows| ==> j < |rows[k]|
  {
    && s.anLt[j] + s.anEq[j] == n
    && s.anEq[j] == |set k: nat | k < n && SamePrefix(rows[k], rows[n - 1], j)|
    && s.anLt[j] == |set k: nat | k < n && PrefixSmaller(rows[k], rows[n - 1], j)|
    && s.anDLt[j] + 1 == |Prefixes(rows, n, j)|
  }

  lemma CurrentCounts(x: Index, rows: seq<Key>, n: nat, j: nat, s: Sample)
    requires Describes(x, rows) && 0 < n <= |rows| && j < x.nCol && CurrentOk(x, n, s)
    ensures CountsSoFar(rows, n, j, s)
  {
    PrefixCount(x, rows, n - 1, j);
    var start := Start(x.chng, n - 1, j);
    forall k: nat | k < n
      ensures SamePrefix(rows[k], rows[n - 1], j) <==> Between(start, k, n)
      ensures PrefixSmaller(rows[k], rows[n - 1], j) <==> Between(0, k, start)
    {
      CompareRows(x, rows, k, n - 1, j);
      if SamePrefix(rows[k], rows[n - 1], j) {
        NotSmallerBackwards(rows[k], rows[n - 1], j);
      }
    }
    RangeSize(start, n);
    RangeSize(0, start);
    assert (set k: nat | k < n && SamePrefix(rows[k], rows[n - 1], j)) == Range(start, n);
    assert (set k: nat | k < n && PrefixSmaller(rows[k], rows[n - 1], j)) == Range(0, start);
  }

  /** After any number of rows of any run. */
  lemma StreamingCounts(x: Index, rows: seq<Key>, seed: nat, t: seq<Accum>, n: nat)
    requires Describes(x, rows) && Run(x, seed, t) && 0 < n < |t|
    ensures t[n].nRow == n && Shaped(t[n].current, x.nCol)
    ensures forall j :: 0 <= j < x.nCol ==> CountsSoFar(rows, n, j, t[n].current)
  {
    RunKeeps(x, seed, t, n);
    forall j | 0 <= j < x.nCol ensures CountsSoFar(rows, n, j, t[n].current) {
      CurrentCounts(x, rows, n, j, t[n].current);
    }
  }

  /** (K+D-1)/D */
  function Estimate(nRow: nat, nDistinct: nat): nat
    requires nDistinct > 0
  {
    (nRow + nDistinct - 1) / nDistinct
  }

  /** The estimate is the quotient rounded up. */
  lemma EstimateRoundsUp(n: nat, d: nat)
    requires d > 0
    ensures d * Estimate(n, d) >= n && d * Estimate(n, d) < n + d
  {
    var e := Estimate(n, d);
    assert n + d - 1 == d * e + (n + d - 1) % d;
  }

  lemma EstimateMonotone(n: nat, d: nat, d': nat)
    requires 0 < d <= d'
    ensures Estimate(n, d') <= Estimate(n, d)
  {
    EstimateRoundsUp(n, d);
    EstimateRoundsUp(n, d');
    var e, e' := Estimate(n, d), Estimate(n, d');
    if e' > e {
      Times(e, e' - 1, d');
      Times(d, d', e);
    }
  }

  /** The numbers of the stat column: the row count, then one estimate per key column. */
  function Stat1List(p: Accum, nKeyCol: nat): (list: seq<nat>)
    requires WellFormed(p) && nKeyCol <= p.nCol
    ensures |list| == nKeyCol + 1 && list[0] == p.nRow
    ensures forall i :: 0 <= i < nKeyCol ==> list[i + 1] == Estimate(p.nRow, p.current.anDLt[i] + 1)
  {
    [p.nRow] + seq(nKeyCol, i requires 0 <= i < nKeyCol => Estimate(p.nRow, p.current.anDLt[i] + 1))
  }

  lemma DistinctSoFar(x: Index, seed: nat, t: seq<Accum>, n: nat)
    requires Run(x, seed, t) && 0 < n < |t|
    ensures WellFormed(t[n]) && t[n].nCol == x.nCol && t[n].nRow == n
    ensures forall j :: 0 <= j < x.nCol ==> t[n].current.anDLt[j] == Distinct(x.chng, n - 1, j)
  {
    RunKeeps(x, seed, t, n);
  }

  /** More key columns never match more rows. */
  lemma Stat1NonIncreasing(x: Index, seed: nat, t: seq<Accum>, n: nat, nKeyCol: nat, i: nat, k: nat)
    requires Run(x, seed, t) && 0 < n < |t| && nKeyCol <= x.nCol && i <= k <= nKeyCol
    ensures WellFormed(t[n]) && t[n].nCol == x.nCol
    ensures Stat1List(t[n], nKeyCol)[k] <= Stat1List(t[n], nKeyCol)[i]
  {
    DistinctSoFar(x, seed, t, n);
    if k > 0 {
      var d := Distinct(x.chng, n - 1, k - 1);
      if i == 0 {
        EstimateMonotone(n, 1, d + 1);
      } else {
        DistinctMonotone(x.chng, n - 1, i - 1, k - 1);
        EstimateMonotone(n, Distinct(x.chng, n - 1, i - 1) + 1, d + 1);
      }
    }
  }

  /** stat_get(P, STAT_GET_STAT1) */
  method StatGetStat1(p: Accum, nKeyCol: nat) returns (zRet: string)
    requires WellFormed(p) && nKeyCol <= p.nCol
    ensures zRet == IntList.Text(Stat1List(p, nKeyCol))
  {
    var list := Stat1List(p, nKeyCol);
    zRet := IntList.Decimal(p.nRow);
    assert list[..1] == [p.nRow];
    for i := 0 to nKeyCol
      invariant zRet == IntList.Text(list[..i + 1])
    {
      var nDistinct := p.current.anDLt[i] + 1;
      var iVal := (p.nRow + nDistinct - 1) / nDistinct;
      assert list[i + 1] == iVal;
      IntList.TextPrefix(list, i + 1);
      zRet := zRet + " " + IntList.Decimal(iVal);
    }
    assert list[..nKeyCol + 1] == list;
  }
}
