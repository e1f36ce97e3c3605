/** What the samples of a whole scan are good for: the prefixes that occur often, and rows at regular distances. */
module Stat4Frequent {
  import opened Arithmetic
  import opened Stat4Runs
  import opened Stat4
  import opened Stat4Invariant
  import opened Stat4Run
  import opened Stat4Exact
  import opened Stat4Chosen
  import opened Stat4Kept

  /** Sample k has the first i + 1 columns of row r. */
  ghost predicate Shares(rows: seq<Key>, a: seq<Sample>, k: int, r: nat, i: nat) {
    0 <= k < |a| && |a[k].anLt| > 0 && Row(a[k]) < |rows| && r < |rows| && SamePrefix(rows[Row(a[k])], rows[r], i)
  }

  /**
   Sample k, if it is not periodic, is there because of a prefix that occurs in more than `count` rows, or in as many
   and is no longer than i + 1 columns.
   */
  ghost predicate Outranks(rows: seq<Key>, a: seq<Sample>, k: int, count: nat, i: nat) {
    0 <= k < |a| && !a[k].isPSample ==>
      && |a[k].anLt| > 0 && Row(a[k]) < |rows|
      && var e := |RowsEqual(rows, Row(a[k]), a[k].iCol)|; e > count || (e == count && a[k].iCol <= i)
  }

  /** The prefix of row r that ends in column i has a sample, or the list is full and no sample is worth less. */
  ghost predicate Sampled(rows: seq<Key>, mx: nat, a: seq<Sample>, r: nat, i: nat)
    requires r < |rows|
  {
    || (exists k :: Shares(rows, a, k, r, i))
    || (|a| == mx && forall k :: Outranks(rows, a, k, |RowsEqual(rows, r, i)|, i))
  }

  lemma StandsShares(x: Index, rows: seq<Key>, a: seq<Sample>, k: int, r: nat, i: nat)
    requires Describes(x, rows) && r < |rows| && i < x.nCol && 0 <= k < |a| && TrueCounts(rows, x.rowids, x.nCol, a[k])
    requires Between(Start(x.chng, r, i), Row(a[k]), End(x.chng, |rows|, r, i))
    ensures Shares(rows, a, k, r, i)
  {
    RunIsRange(x, rows, r, i);
    assert Row(a[k]) in Range(Start(x.chng, r, i), End(x.chng, |rows|, r, i));
  }

  lemma ClearsOutranks(rows: seq<Key>, rowids: seq<int>, nCol: nat, a: seq<Sample>, k: int, count: nat, i: nat)
    requires |rowids| == |rows| && forall r :: 0 <= r < |rows| ==> |rows[r]| == nCol
    requires 0 <= k < |a| && TrueCounts(rows, rowids, nCol, a[k]) && Clears(AtLeast(count, i), a[k], nCol)
    ensures Outranks(rows, a, k, count, i)
  {
  }

  lemma RunCount(x: Index, rows: seq<Key>, r: nat, i: nat)
    requires Describes(x, rows) && r < |rows| && i < x.nCol
    ensures |RowsEqual(rows, r, i)| == End(x.chng, |rows|, r, i) - Start(x.chng, r, i)
  {
    RunIsRange(x, rows, r, i);
    RangeSize(Start(x.chng, r, i), End(x.chng, |rows|, r, i));
  }

  lemma KeptIsSampled(x: Index, rows: seq<Key>, a: seq<Sample>, r: nat, i: nat, lo: nat, hi: nat)
    requires Describes(x, rows) && r < |rows| && i + 1 < x.nCol && Exact(x, rows, a)
    requires lo == Start(x.chng, r, i) && hi == End(x.chng, |rows|, r, i)
    requires KeptIn(x, a, lo, hi, AtLeast(hi - lo, i))
    ensures Sampled(rows, x.mxSample, a, r, i)
  {
    var count, bar := hi - lo, AtLeast(hi - lo, i);
    RunCount(x, rows, r, i);
    if k :| StandsAt(a, k, lo, hi, bar, x.nCol) {
      StandsShares(x, rows, a, k, r, i);
    } else {
      forall k ensures Outranks(rows, a, k, count, i) {
        assert ClearsAt(a, k, bar, x.nCol);
        if 0 <= k < |a| && !a[k].isPSample {
          ClearsOutranks(rows, x.rowids, x.nCol, a, k, count, i);
        }
      }
    }
  }

  /**
   The purpose of the samples. After a complete scan every prefix of every row that is shorter than the key has a
   sample, unless all places are taken by periodic rows and by prefixes that occur at least as often, and for a longer
   prefix more often.
   */
  lemma FrequentPrefixesAreSampled(x: Index, rows: seq<Key>, seed: nat, t: seq<Accum>, r: nat, i: nat)
    requires Describes(x, rows) && Run(x, seed, t) && |t| == |rows| + 1 && r < |rows| && i + 1 < x.nCol
    ensures WellFormed(t[|rows|])
    ensures Sampled(rows, x.mxSample, PushPrevious(t[|rows|], 0).a, r, i)
  {
    SamplesAreExact(x, rows, seed, t);
    var b, e := PushPrevious(t[|rows|], 0).a, End(x.chng, |rows|, r, i);
    EveryRunKept(x, seed, t, b, r, i, e);
    KeptIsSampled(x, rows, b, r, i, Start(x.chng, r, i), e);
  }

  ghost predicate PeriodicBefore(d: nat, r: nat, n: nat)
    requires d > 0
  {
    r < n && Periodic(d, r)
  }

  ghost function PeriodicRows(d: nat, n: nat): set<nat>
    requires d > 0
  {
    set r: nat | r < n && PeriodicBefore(d, r, n)
  }

  lemma OneRowOn(d: nat, n: nat)
    requires d > 0 && n > 0
    ensures n / d == (n - 1) / d + if Periodic(d, n - 1) then 1 else 0
  {
    var q := (n - 1) / d;
    DivisionParts(n - 1, d);
    Distribute(q, d);
    Distribute(q + 1, d);
    Quotient(n, d, if (n - 1) % d == d - 1 then q + 1 else q);
  }

  lemma OneMore(d: nat, n: nat)
    requires d > 0 && n > 0
    ensures |PeriodicRows(d, n)| == |PeriodicRows(d, n - 1)| + if Periodic(d, n - 1) then 1 else 0
  {
    var was, now := PeriodicRows(d, n - 1), PeriodicRows(d, n);
    forall r: nat ensures r in now <==> r in was || (r == n - 1 && Periodic(d, n - 1)) {
      assert PeriodicBefore(d, r, n) <==> PeriodicBefore(d, r, n - 1) || (r == n - 1 && Periodic(d, n - 1));
    }
    assert n - 1 !in was;
    assert now == if Periodic(d, n - 1) then was + {n - 1} else was;
  }

  /** One row in d is periodic. */
  lemma {:induction false} PeriodicCount(d: nat, n: nat)
    requires d > 0
    ensures |PeriodicRows(d, n)| == n / d
  {
    if n == 0 {
      assert PeriodicRows(d, n) == {};
      Quotient(0, d, 0);
    } else {
      PeriodicCount(d, n - 1);
      OneRowOn(d, n);
      OneMore(d, n);
    }
  }

  /**
   A third of the places is for periodic rows: their number is at most mxSample/3, and just that when there are rows
   enough for it.
   */
  lemma ThirdIsPeriodic(x: Index)
    requires x.Valid()
    ensures |PeriodicRows(x.Period(), |x.chng|)| <= x.mxSample / 3
    ensures |x.chng| >= (x.mxSample / 3 + 1) * (x.mxSample / 3) ==>
      |PeriodicRows(x.Period(), |x.chng|)| == x.mxSample / 3
  {
    PeriodicCount(x.Period(), |x.chng|);
    Third(|x.chng|, x.mxSample / 3 + 1);
  }

  lemma Third(n: nat, m: nat)
    requires m > 0
    ensures n / (n / m + 1) <= m - 1
    ensures n >= m * (m - 1) ==> n / (n / m + 1) == m - 1
  {
    var q, d := n / m, n / m + 1;
    DivisionParts(n, m);
    Distribute(q, m);
    NotThird(n, m, d);
    if n >= m * (m - 1) {
      if q < m - 1 { Times(q + 1, m - 1, m); }
      FullThird(n, m, q);
    }
  }

  lemma NotThird(n: nat, m: nat, d: nat)
    requires m > 0 && d > 0 && n < d * m
    ensures n / d <= m - 1
  {
    DivisionParts(n, d);
    if n / d >= m { Times(m, n / d, d); }
  }

  lemma FullThird(n: nat, m: nat, q: nat)
    requires m > 0 && q * m <= n < (q + 1) * m && q >= m - 1
    ensures n / (q + 1) == m - 1
  {
    Distribute(m - 1, q + 1);
    Quotient(n, q + 1, m - 1);
  }
}
