/** The samples that a whole ANALYZE scan ends with, in terms of the rows of the index. */
module Stat4Exact {
  import opened Stat4Runs
  import opened Stat4
  import opened Stat4Order
  import opened Stat4Invariant
  import opened Stat4Steps
  import opened Stat4Run

  type Key = seq<int>

  /** a and b first differ in column d, where a is smaller. */
  ghost predicate SmallerAt(a: Key, b: Key, d: nat) {
    d < |a| && |a| == |b| && a[..d] == b[..d] && a[d] < b[d]
  }

  /** The prefix of a that ends in column j is smaller than the one of b. */
  ghost predicate PrefixSmaller(a: Key, b: Key, j: nat) {
    exists d :: 0 <= d <= j && SmallerAt(a, b, d)
  }

  ghost predicate SamePrefix(a: Key, b: Key, j: nat) {
    j < |a| && j < |b| && a[..j + 1] == b[..j + 1]
  }

  /** x describes the scan, in index order, of these rows. */
  ghost predicate Describes(x: Index, rows: seq<Key>) {
    x.Valid() && |rows| == |x.chng|
    && (forall r :: 0 <= r < |rows| ==> |rows[r]| == x.nCol)
    && forall r :: 0 < r < |rows| ==> SmallerAt(rows[r - 1], rows[r], x.chng[r])
  }

  lemma SmallerTransitive(a: Key, b: Key, c: Key, d: nat, e: nat)
    requires SmallerAt(a, b, d) && SmallerAt(b, c, e)
    ensures SmallerAt(a, c, if d < e then d else e)
  {
    var m := if d < e then d else e;
    assert a[..m] == a[..d][..m] && b[..m] == b[..d][..m] == b[..e][..m] && c[..m] == c[..e][..m];
    if d < e { assert c[d] == c[..e][d] == b[..e][d] == b[d]; }
    if e < d { assert a[e] == a[..d][e] == b[..d][e] == b[e]; }
  }

  lemma SmallerThenSame(a: Key, b: Key, c: Key, d: nat, j: nat)
    requires d <= j
    requires
      || (SmallerAt(a, b, d) && SamePrefix(b, c, j) && |b| == |c|)
      || (SamePrefix(a, b, j) && |a| == |b| && SmallerAt(b, c, d))
    ensures SmallerAt(a, c, d)
  {
    if SmallerAt(a, b, d) && SamePrefix(b, c, j) && |b| == |c| {
      assert c[..d] == c[..j + 1][..d] && b[..d] == b[..j + 1][..d];
      assert c[d] == c[..j + 1][d] && b[d] == b[..j + 1][d];
    } else {
      assert a[..d] == a[..j + 1][..d] && b[..d] == b[..j + 1][..d];
      assert a[d] == a[..j + 1][d] && b[d] == b[..j + 1][d];
    }
  }

  lemma NotSmallerBackwards(a: Key, b: Key, j: nat)
    requires SamePrefix(a, b, j) || PrefixSmaller(b, a, j)
    ensures !PrefixSmaller(a, b, j)
    ensures !(SamePrefix(a, b, j) && PrefixSmaller(b, a, j))
  {
    assert SamePrefix(a, b, j) ==> forall d :: 0 <= d <= j ==> a[d] == a[..j + 1][d] == b[..j + 1][d] == b[d];
    if PrefixSmaller(b, a, j) {
      var e :| 0 <= e <= j && SmallerAt(b, a, e);
      if d :| 0 <= d <= j && SmallerAt(a, b, d) {
        SmallerTransitive(a, b, a, d, e);
      }
    }
  }

  /** Runs are exactly the rows that agree on a prefix; rows before a run have a smaller one. */
  lemma {:induction false} CompareRows(x: Index, rows: seq<Key>, k: nat, r: nat, j: nat)
    requires Describes(x, rows) && k <= r < |rows| && j < x.nCol
    ensures if Start(x.chng, r, j) <= k then SamePrefix(rows[k], rows[r], j)
            else PrefixSmaller(rows[k], rows[r], j) && !SamePrefix(rows[k], rows[r], j)
  {
    if k < r {
      CompareRows(x, rows, k, r - 1, j);
      var a, b, c, d := rows[k], rows[r - 1], rows[r], x.chng[r];
      if d > j {
        assert b[..j + 1] == b[..d][..j + 1] && c[..j + 1] == c[..d][..j + 1];
        if Start(x.chng, r, j) > k {
          var e :| 0 <= e <= j && SmallerAt(a, b, e);
          SmallerThenSame(a, b, c, e, j);
        }
      } else {
        if SamePrefix(a, b, j) {
          SmallerThenSame(a, b, c, d, j);
        } else {
          var e :| 0 <= e <= j && SmallerAt(a, b, e);
          SmallerTransitive(a, b, c, e, d);
        }
      }
      if PrefixSmaller(a, c, j) {
        NotSmallerBackwards(c, a, j);
      }
    }
  }

  ghost predicate Between(lo: nat, k: nat, hi: nat) { lo <= k < hi }

  ghost function Range(lo: nat, hi: nat): set<nat> {
    set k: nat | k < hi && Between(lo, k, hi)
  }

  lemma {:induction false} RangeSize(lo: nat, hi: nat)
    requires lo <= hi
    ensures |Range(lo, hi)| == hi - lo
    decreases hi - lo
  {
    if lo < hi {
      RangeSize(lo, hi - 1);
      assert forall k: nat :: Between(lo, k, hi) <==> Between(lo, k, hi - 1) || k == hi - 1;
      assert Range(lo, hi) == Range(lo, hi - 1) + {hi - 1};
    } else {
      assert Range(lo, hi) == {};
    }
  }

  ghost function RowsEqual(rows: seq<Key>, r: nat, j: nat): set<nat>
    requires r < |rows|
  {
    set k: nat | k < |rows| && SamePrefix(rows[k], rows[r], j)
  }

  ghost function RowsSmaller(rows: seq<Key>, r: nat, j: nat): set<nat>
    requires r < |rows|
  {
    set k: nat | k < |rows| && PrefixSmaller(rows[k], rows[r], j)
  }

  ghost function Prefixes(rows: seq<Key>, n: nat, j: nat): set<Key>
    requires n <= |rows| && forall k :: 0 <= k < n ==> j < |rows[k]|
  {
    set k: nat | k < n :: rows[k][..j + 1]
  }

  ghost function SmallerPrefixes(rows: seq<Key>, r: nat, j: nat): set<Key>
    requires r < |rows| && forall k :: 0 <= k < |rows| ==> j < |rows[k]|
  {
    set k: nat | k in RowsSmaller(rows, r, j) :: rows[k][..j + 1]
  }

  lemma RunIsRange(x: Index, rows: seq<Key>, r: nat, j: nat)
    requires Describes(x, rows) && r < |rows| && j < x.nCol
    ensures RowsEqual(rows, r, j) == Range(Start(x.chng, r, j), End(x.chng, |rows|, r, j))
    ensures RowsSmaller(rows, r, j) == Range(0, Start(x.chng, r, j))
  {
    var n := |rows|;
    EndBounds(x.chng, n, r, j);
    forall k: nat | k < n
      ensures SamePrefix(rows[k], rows[r], j) <==> Between(Start(x.chng, r, j), k, End(x.chng, n, r, j))
      ensures PrefixSmaller(rows[k], rows[r], j) <==> Between(0, k, Start(x.chng, r, j))
    {
      if k <= r {
        CompareRows(x, rows, k, r, j);
      } else {
        CompareRows(x, rows, r, k, j);
        StartBounds(x.chng, k, j);
        if k < End(x.chng, n, r, j) {
          StartUnique(x.chng, k, j, Start(x.chng, r, j)) by { StartBounds(x.chng, r, j); }
        }
      }
      if SamePrefix(rows[k], rows[r], j) || PrefixSmaller(rows[r], rows[k], j) {
        NotSmallerBackwards(rows[k], rows[r], j);
      }
    }
    assert Start(x.chng, r, j) <= n;
  }

  /** The first r+1 rows have Distinct+1 different prefixes. */
  lemma {:induction false} PrefixCount(x: Index, rows: seq<Key>, r: nat, j: nat)
    requires Describes(x, rows) && r < |rows| && j < x.nCol
    ensures |Prefixes(rows, r + 1, j)| == Distinct(x.chng, r, j) + 1
  {
    var p := rows[r][..j + 1];
    if r == 0 {
      assert Prefixes(rows, 1, j) == {p};
    } else {
      PrefixCount(x, rows, r - 1, j);
      assert Prefixes(rows, r + 1, j) == Prefixes(rows, r, j) + {p};
      CompareRows(x, rows, r - 1, r, j);
      if x.chng[r] <= j && p in Prefixes(rows, r, j) {
        var k: nat :| k < r && rows[k][..j + 1] == p;
        CompareRows(x, rows, k, r, j);
      }
    }
  }

  lemma SmallerPrefixCount(x: Index, rows: seq<Key>, r: nat, j: nat)
    requires Describes(x, rows) && r < |rows| && j < x.nCol
    ensures |SmallerPrefixes(rows, r, j)| == Distinct(x.chng, r, j)
  {
    var s := Start(x.chng, r, j);
    RunIsRange(x, rows, r, j);
    assert SmallerPrefixes(rows, r, j) == Prefixes(rows, s, j);
    StartShared(x.chng, r, s, j);
    DistinctShared(x.chng, r, s, j);
    if s > 0 {
      StartBounds(x.chng, r, j);
      PrefixCount(x, rows, s - 1, j);
    } else {
      assert Prefixes(rows, 0, j) == {};
    }
  }

  /** The three counts of a sample are those of its row, in every column. */
  ghost predicate TrueCounts(rows: seq<Key>, rowids: seq<int>, nCol: nat, s: Sample)
    requires |rowids| == |rows| && forall k :: 0 <= k < |rows| ==> |rows[k]| == nCol
  {
    Shaped(s, nCol) && Row(s) < |rows| && s.rowid == rowids[Row(s)]
    && forall j :: 0 <= j < nCol ==>
         && s.anEq[j] == |RowsEqual(rows, Row(s), j)|
         && s.anLt[j] == |RowsSmaller(rows, Row(s), j)|
         && s.anDLt[j] == |SmallerPrefixes(rows, Row(s), j)|
  }

  lemma RunLengthsAreTrue(x: Index, rows: seq<Key>, s: Sample)
    requires Describes(x, rows) && |rows| > 0 && Located(x, |rows|, s)
    requires forall j :: 0 <= j < x.nCol ==> s.anEq[j] == Length(x, |rows|, Row(s), j)
    ensures TrueCounts(rows, x.rowids, x.nCol, s)
  {
    var r, n := Row(s), |rows|;
    forall j | 0 <= j < x.nCol
      ensures s.anEq[j] == |RowsEqual(rows, r, j)|
      ensures s.anLt[j] == |RowsSmaller(rows, r, j)|
      ensures s.anDLt[j] == |SmallerPrefixes(rows, r, j)|
    {
      RunIsRange(x, rows, r, j);
      RangeSize(Start(x.chng, r, j), End(x.chng, n, r, j));
      RangeSize(0, Start(x.chng, r, j));
      SmallerPrefixCount(x, rows, r, j);
    }
  }

  ghost predicate Closed(x: Index, p: Accum)
    requires x.Valid()
  {
    SameIndex(x, p) && InOrder(p.a, x.nCol) && PeriodicKept(x, |x.chng|, p.a)
    && forall k :: 0 <= k < |p.a| ==>
         && Located(x, |x.chng|, p.a[k])
         && forall j :: 0 <= j < x.nCol ==> p.a[k].anEq[j] == Length(x, |x.chng|, Row(p.a[k]), j)
  }

  lemma FillCloses(x: Index, c: nat, b: Accum)
    requires x.Valid() && c == 0 && Pushing(x, |x.chng|, c - 1, b)
    ensures Closed(x, Fill(b, c))
  {
    var n, q := |x.chng|, Fill(b, c);
    FillKeepsPeriodic(x, n, c, b);
    FillAll(b, c);
    forall k | 0 <= k < |q.a|
      ensures Located(x, n, q.a[k])
      ensures forall j :: 0 <= j < x.nCol ==> q.a[k].anEq[j] == Length(x, n, Row(q.a[k]), j)
    {
      assert Collected(x, n, c - 1, b.a[k]);
      FillOneCounts(x, n, c, b.current, b.a[k]);
    }
  }

  lemma PushedIsClosed(x: Index, p: Accum, c: nat, b: Accum)
    requires x.Valid() && |x.chng| > 0 && Inv(x, |x.chng|, p) && c == 0 && b == PushBest(p, x.nCol - 2, c)
    ensures Closed(x, Fill(b, c))
  {
    PushBestKeeps(x, |x.chng|, x.nCol - 2, c, p);
    FillCloses(x, c, b);
  }

  /** Few enough samples, in index order, each with the counts of its row, and all periodic rows among them. */
  ghost predicate Exact(x: Index, rows: seq<Key>, a: seq<Sample>)
    requires Describes(x, rows)
  {
    && |a| <= x.mxSample
    && (forall k :: 0 <= k < |a| ==> TrueCounts(rows, x.rowids, x.nCol, a[k]))
    && (forall k, l :: 0 <= k < l < |a| ==> Row(a[k]) < Row(a[l]))
    && forall r :: 0 <= r < |rows| && Periodic(x.Period(), r) ==> Has(a, x.nCol, r)
  }

  /**
   STAT4 exactness. Whatever the rows, the sample limit and the tie-breaker, once the first stat_get call of a
   complete scan has closed all runs: at most mxSample samples, in index order, each with the exact nEq, nLt and
   nDLt of the row it names, and none of the periodic rows missing.
   */
  lemma SamplesAreExact(x: Index, rows: seq<Key>, seed: nat, t: seq<Accum>)
    requires Describes(x, rows) && |rows| > 0 && Run(x, seed, t) && |t| == |rows| + 1
    ensures WellFormed(t[|rows|])
    ensures Exact(x, rows, PushPrevious(t[|rows|], 0).a)
  {
    var p := t[|rows|];
    RunKeeps(x, seed, t, |rows|);
    PushedIsClosed(x, p, 0, PushBest(p, x.nCol - 2, 0));
    ClosedIsExact(x, rows, PushPrevious(p, 0));
  }

  lemma ClosedIsExact(x: Index, rows: seq<Key>, q: Accum)
    requires Describes(x, rows) && |rows| > 0 && Closed(x, q)
    ensures forall k :: 0 <= k < |q.a| ==> TrueCounts(rows, x.rowids, x.nCol, q.a[k])
  {
    forall k | 0 <= k < |q.a| ensures TrueCounts(rows, x.rowids, x.nCol, q.a[k]) {
      RunLengthsAreTrue(x, rows, q.a[k]);
    }
  }
}
