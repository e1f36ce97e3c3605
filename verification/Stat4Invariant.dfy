/** What the sampler keeps true over a whole scan. */
module Stat4Invariant {
  import opened Stat4Runs
  import opened Stat4
  import opened Stat4Order

  /** The index being scanned; |chng| is the row count passed to stat_init. */
  datatype Index = Index(chng: seq<nat>, rowids: seq<int>, nCol: nat, mxSample: nat) {
    ghost predicate Valid() {
      Scan(chng, nCol) && |rowids| == |chng| && mxSample > 0
    }

    function Period(): (n: nat)
      ensures n > 0
    {
      |chng| / (mxSample / 3 + 1) + 1
    }
  }

  function Row(s: Sample): nat
    requires |s.anLt| > 0
  {
    s.anLt[|s.anLt| - 1]
  }

  ghost function Length(x: Index, n: nat, r: nat, j: nat): nat
    requires r < n <= |x.chng|
  {
    End(x.chng, n, r, j) - Start(x.chng, r, j)
  }

  /** s names row Row(s), one of the first n, with its true rowid, nLt and nDLt values. */
  ghost predicate Located(x: Index, n: nat, s: Sample)
    requires x.Valid() && n <= |x.chng|
  {
    Shaped(s, x.nCol) && Row(s) < n && s.rowid == x.rowids[Row(s)]
    && forall j :: 0 <= j < x.nCol ==>
         s.anLt[j] == Start(x.chng, Row(s), j) && s.anDLt[j] == Distinct(x.chng, Row(s), j)
  }

  /**
   A collected sample after n rows, in the middle of samplePushPrevious: the columns up to i are
   still to be visited. A count is zero while its run is open; a visited column may already hold the
   final count.
   */
  ghost predicate Collected(x: Index, n: nat, i: int, s: Sample)
    requires x.Valid() && n <= |x.chng|
  {
    Located(x, n, s)
    && (forall j :: 0 <= j < x.nCol ==> CountOk(x, n, i, s, j))
    && (forall j, k :: 0 <= j < k < x.nCol && s.anEq[j] > 0 ==> s.anEq[k] > 0)
    && (if s.isPSample then Periodic(x.Period(), Row(s))
        else s.iCol + 1 < x.nCol && s.anEq[s.iCol] > 0)
  }

  ghost predicate CountOk(x: Index, n: nat, i: int, s: Sample, j: nat)
    requires x.Valid() && n <= |x.chng| && Located(x, n, s) && j < x.nCol
  {
    if Open(x.chng, x.nCol, n, Row(s), j) then s.anEq[j] == 0 || (j > i && s.anEq[j] == Length(x, n, Row(s), j))
    else s.anEq[j] == Length(x, n, Row(s), j)
  }

  ghost predicate SamplesOk(x: Index, n: nat, i: int, a: seq<Sample>)
    requires x.Valid() && n <= |x.chng|
  {
    forall k :: 0 <= k < |a| ==> Collected(x, n, i, a[k])
  }

  ghost predicate InOrder(a: seq<Sample>, nCol: nat)
    requires nCol > 0 && AllShaped(a, nCol)
  {
    forall k, l :: 0 <= k < l < |a| ==> Row(a[k]) < Row(a[l])
  }

  ghost predicate Has(a: seq<Sample>, nCol: nat, row: nat)
    requires nCol > 0 && AllShaped(a, nCol)
  {
    exists k :: 0 <= k < |a| && a[k].isPSample && Row(a[k]) == row
  }

  /** Every periodic row among the first m has its sample: none was ever evicted. */
  ghost predicate PeriodicKept(x: Index, m: nat, a: seq<Sample>)
    requires x.Valid() && AllShaped(a, x.nCol)
  {
    forall r :: 0 <= r < m && Periodic(x.Period(), r) ==> Has(a, x.nCol, r)
  }

  /** iMin designates a least-preferred non-periodic sample whenever the list is full. */
  ghost predicate MinOk(p: Accum)
    requires WellFormed(p)
  {
    |p.a| == p.mxSample ==> LeastOf(p.a, |p.a|, p.iMin, p.nCol)
  }

  ghost predicate ZeroBound(p: Accum)
    requires WellFormed(p)
  {
    forall k, j :: 0 <= k < |p.a| && p.nMaxEqZero <= j < p.nCol ==> p.a[k].anEq[j] > 0
  }

  /** The streaming counts describe row n-1. */
  ghost predicate CurrentOk(x: Index, n: nat, s: Sample)
    requires x.Valid() && 0 < n <= |x.chng|
  {
    Located(x, n, s) && Row(s) == n - 1 && !s.isPSample
    && forall j :: 0 <= j < x.nCol ==> s.anEq[j] == n - Start(x.chng, n - 1, j)
  }

  /** aBest[i] is a row of the current i-run, and the last row so far, or the final row, of its (i+1)-run. */
  ghost predicate BestOk(x: Index, n: nat, i: nat, s: Sample)
    requires x.Valid() && 0 < n <= |x.chng| && i + 1 < x.nCol
  {
    Located(x, n, s) && !s.isPSample && s.iCol == i
    && Start(x.chng, n - 1, i) <= Row(s)
    && End(x.chng, n, Row(s), i + 1) == Row(s) + 1
    && forall j :: i < j < x.nCol ==> s.anEq[j] == Row(s) + 1 - Start(x.chng, Row(s), j)
  }

  ghost predicate BestsOk(x: Index, n: nat, best: seq<Sample>)
    requires x.Valid() && 0 < n <= |x.chng|
  {
    |best| == x.nCol && forall i :: 0 <= i && i + 1 < x.nCol ==> BestOk(x, n, i, best[i])
  }

  ghost predicate Leads(x: Index, n: nat, c: nat, s: Sample)
    requires x.Valid() && 0 < n <= |x.chng| && c < x.nCol && Located(x, n, s)
  {
    !s.isPSample && s.iCol == c && Start(x.chng, n - 1, c) <= Row(s)
    && s.anEq[c] == n - Start(x.chng, n - 1, c)
  }

  /**
   The visited column c: if some sample of the c-run just closed is still without its count there, then
   either a periodic sample represents that run, or a sample included because of column c does.
   */
  ghost predicate Represented(x: Index, n: nat, c: nat, a: seq<Sample>)
    requires x.Valid() && 0 < n <= |x.chng| && c < x.nCol && AllShaped(a, x.nCol)
    requires forall k :: 0 <= k < |a| ==> Located(x, n, a[k])
  {
    (exists q :: Unknown(a, 0, c, q)) ==>
      || (exists q :: Unknown(a, 0, c, q) && a[q].isPSample)
      || (exists q :: 0 <= q < |a| && Leads(x, n, c, a[q]))
  }

  ghost predicate SameIndex(x: Index, p: Accum) {
    WellFormed(p) && x.Valid() && p.nCol == x.nCol && p.mxSample == x.mxSample && p.nPSample == x.Period()
  }

  /** The sample list part, with columns above i visited and periodic rows below m present. */
  ghost predicate ListOk(x: Index, n: nat, i: int, m: nat, p: Accum)
    requires SameIndex(x, p) && 0 < n <= |x.chng|
  {
    SamplesOk(x, n, i, p.a) && InOrder(p.a, x.nCol) && PeriodicKept(x, m, p.a) && MinOk(p) && ZeroBound(p)
  }

  /** In the middle of samplePushPrevious, columns above i visited. */
  ghost predicate Pushing(x: Index, n: nat, i: int, p: Accum) {
    SameIndex(x, p) && 0 < n <= |x.chng| && p.nRow == n && i + 1 < x.nCol && -1 <= i
    && CurrentOk(x, n, p.current) && BestsOk(x, n, p.aBest)
    && ListOk(x, n, i, n, p)
    && Represented(x, n, (i + 1) as nat, p.a)
  }

  /** After n rows. */
  ghost predicate Inv(x: Index, n: nat, p: Accum) {
    SameIndex(x, p) && n <= |x.chng| && p.nRow == n
    && (n == 0 ==>
         && p.a == [] && p.current.anLt == p.current.anDLt == Zeros(x.nCol)
         && !p.current.isPSample && p.nMaxEqZero == 0)
    && (n > 0 ==> Pushing(x, n, x.nCol as int - 2, p))
  }
}
