/** The preference order on samples, and what the two searches over the sample list find. */
module Stat4Order {
  import opened Stat4

  lemma {:induction false} BetterFromAsymmetric(x: Sample, y: Sample, i: nat)
    requires i <= |x.anEq| == |y.anEq|
    requires BetterFrom(x, y, i)
    ensures !BetterFrom(y, x, i)
    decreases |x.anEq| - i
  {
    if i < |x.anEq| && x.anEq[i] == y.anEq[i] {
      BetterFromAsymmetric(x, y, i + 1);
    }
  }

  lemma {:induction false} NotBetterFromTransitive(x: Sample, y: Sample, z: Sample, i: nat)
    requires i <= |x.anEq| == |y.anEq| == |z.anEq|
    requires !BetterFrom(x, y, i) && !BetterFrom(y, z, i)
    ensures !BetterFrom(x, z, i)
    decreases |x.anEq| - i
  {
    if i < |x.anEq| && x.anEq[i] == y.anEq[i] == z.anEq[i] {
      NotBetterFromTransitive(x, y, z, i + 1);
    }
  }

  /** Column j is the first one from i on in which the counts differ. */
  ghost predicate FirstDiffers(x: Sample, y: Sample, i: nat, j: nat) {
    && i <= j < |x.anEq| == |y.anEq| && x.anEq[j] != y.anEq[j]
    && forall k :: i <= k < j ==> x.anEq[k] == y.anEq[k]
  }

  /** The first difference decides, to the larger count; without one the larger tie-breaker. */
  lemma {:induction false} FirstDifferenceDecides(x: Sample, y: Sample, i: nat)
    requires i <= |x.anEq| == |y.anEq|
    ensures forall j: nat :: FirstDiffers(x, y, i, j) ==> (BetterFrom(x, y, i) <==> x.anEq[j] > y.anEq[j])
    ensures (forall k :: i <= k < |x.anEq| ==> x.anEq[k] == y.anEq[k]) ==> (BetterFrom(x, y, i) <==> x.iHash > y.iHash)
    decreases |x.anEq| - i
  {
    if i < |x.anEq| && x.anEq[i] == y.anEq[i] {
      FirstDifferenceDecides(x, y, i + 1);
      forall j: nat | FirstDiffers(x, y, i, j) ensures FirstDiffers(x, y, i + 1, j) {
        assert j != i;
      }
    }
  }

  /** sampleIsBetter is a strict weak order: this and the next lemma. */
  lemma IsBetterAsymmetric(x: Sample, y: Sample, nCol: nat)
    requires Shaped(x, nCol) && Shaped(y, nCol) && IsBetter(x, y, nCol)
    ensures !IsBetter(y, x, nCol)
  {
    if x.iCol == y.iCol && BetterFrom(x, y, x.iCol + 1) {
      BetterFromAsymmetric(x, y, x.iCol + 1);
    }
  }

  lemma NotBetterTransitive(x: Sample, y: Sample, z: Sample, nCol: nat)
    requires Shaped(x, nCol) && Shaped(y, nCol) && Shaped(z, nCol)
    requires !IsBetter(x, y, nCol) && !IsBetter(y, z, nCol)
    ensures !IsBetter(x, z, nCol)
  {
    if x.iCol == y.iCol == z.iCol && !BetterFrom(x, y, x.iCol + 1) && !BetterFrom(y, z, x.iCol + 1) {
      NotBetterFromTransitive(x, y, z, x.iCol + 1);
    }
  }

  lemma IsBetterTransitive(x: Sample, y: Sample, z: Sample, nCol: nat)
    requires Shaped(x, nCol) && Shaped(y, nCol) && Shaped(z, nCol)
    requires IsBetter(x, y, nCol) && IsBetter(y, z, nCol)
    ensures IsBetter(x, z, nCol)
  {
    IsBetterAsymmetric(y, z, nCol);
    if !IsBetter(x, z, nCol) {
      NotBetterTransitive(x, z, y, nCol);
    }
  }

  /** The comparison reads nothing to the left of iCol. */
  lemma {:induction false} BetterFromReads(x: Sample, y: Sample, x': Sample, y': Sample, i: nat)
    requires i <= |x.anEq| == |y.anEq| == |x'.anEq| == |y'.anEq|
    requires x.iHash == x'.iHash && y.iHash == y'.iHash
    requires forall j :: i <= j < |x.anEq| ==> x.anEq[j] == x'.anEq[j] && y.anEq[j] == y'.anEq[j]
    ensures BetterFrom(x, y, i) == BetterFrom(x', y', i)
    decreases |x.anEq| - i
  {
    if i < |x.anEq| {
      BetterFromReads(x, y, x', y', i + 1);
    }
  }

  ghost predicate SameRank(x: Sample, x': Sample) {
    |x.anEq| == |x'.anEq| && x.iHash == x'.iHash && x.iCol == x'.iCol
    && forall j :: x.iCol <= j < |x.anEq| ==> x.anEq[j] == x'.anEq[j]
  }

  lemma IsBetterReads(x: Sample, y: Sample, x': Sample, y': Sample, nCol: nat)
    requires Shaped(x, nCol) && Shaped(y, nCol) && Shaped(x', nCol) && Shaped(y', nCol)
    requires SameRank(x, x') && SameRank(y, y')
    ensures IsBetter(x, y, nCol) == IsBetter(x', y', nCol)
  {
    if x.iCol == y.iCol {
      BetterFromReads(x, y, x', y', x.iCol + 1);
    }
  }

  /** No non-periodic sample among the first k is less preferred than a[m]. */
  ghost predicate LeastOf(a: seq<Sample>, k: nat, m: int, nCol: nat)
    requires k <= |a| && AllShaped(a, nCol)
  {
    0 <= m < k && !a[m].isPSample
    && forall q :: 0 <= q < k && !a[q].isPSample ==> !IsBetter(a[m], a[q], nCol)
  }

  lemma {:induction false} MinScanFindsLeast(a: seq<Sample>, k: nat, nCol: nat)
    requires k <= |a| && AllShaped(a, nCol)
    ensures MinScan(a, k, nCol) < 0 <==> forall q :: 0 <= q < k ==> a[q].isPSample
    ensures MinScan(a, k, nCol) >= 0 ==> LeastOf(a, k, MinScan(a, k, nCol), nCol)
  {
    if k > 0 {
      MinScanFindsLeast(a, k - 1, nCol);
      var m := MinScan(a, k - 1, nCol);
      var x := a[k - 1];
      if x.isPSample {
      } else if m < 0 {
        if IsBetter(x, x, nCol) {
          IsBetterAsymmetric(x, x, nCol);
        }
      } else if IsBetter(a[m], x, nCol) {
        forall q | 0 <= q < k && !a[q].isPSample ensures !IsBetter(x, a[q], nCol) {
          if IsBetter(x, a[q], nCol) {
            IsBetterTransitive(a[m], x, a[q], nCol);
            if q == k - 1 { IsBetterAsymmetric(x, x, nCol); }
          }
        }
      }
    }
  }

  /** The samples at index k and up whose count in column c is still unknown. */
  ghost predicate Unknown(a: seq<Sample>, k: nat, c: nat, q: int)
    requires forall x :: 0 <= x < |a| ==> c < |a[x].anEq|
  {
    k <= q < |a| && a[q].anEq[c] == 0
  }

  /** All of them are non-periodic, and a[u] is one to which none is preferred. */
  ghost predicate BestUnknown(a: seq<Sample>, k: nat, c: nat, u: int, nCol: nat)
    requires c < nCol && AllShaped(a, nCol)
  {
    Unknown(a, k, c, u)
    && forall q :: Unknown(a, k, c, q) ==> !a[q].isPSample && !IsBetter(a[q], a[u], nCol)
  }

  lemma {:induction false} UpgradeScanFindsBest(a: seq<Sample>, k: nat, c: nat, nCol: nat)
    requires k <= |a| && c < nCol && AllShaped(a, nCol)
    ensures var f := UpgradeScan(a, k, c, nCol);
            && (f.Blocked? <==> exists q :: Unknown(a, k, c, q) && a[q].isPSample)
            && (f.NoSample? <==> forall q :: !Unknown(a, k, c, q))
            && (f.Upgrade? ==> BestUnknown(a, k, c, f.index, nCol))
    decreases |a| - k
  {
    if k < |a| {
      UpgradeScanFindsBest(a, k + 1, c, nCol);
      var f := UpgradeScan(a, k + 1, c, nCol);
      assert forall q :: Unknown(a, k, c, q) <==> Unknown(a, k + 1, c, q) || (q == k && a[k].anEq[c] == 0);
      if f.Blocked? {
        var q :| Unknown(a, k + 1, c, q) && a[q].isPSample;
        assert Unknown(a, k, c, q);
      } else if a[k].anEq[c] == 0 {
        assert Unknown(a, k, c, k);
        if !a[k].isPSample && (f.NoSample? || IsBetter(a[k], a[f.index], nCol)) {
          forall q | Unknown(a, k, c, q) ensures !a[q].isPSample && !IsBetter(a[q], a[k], nCol) {
            if IsBetter(a[q], a[k], nCol) {
              if q == k { IsBetterAsymmetric(a[k], a[k], nCol); }
              else { IsBetterTransitive(a[q], a[k], a[f.index], nCol); }
            }
          }
        }
      } else if f.Upgrade? {
        assert Unknown(a, k, c, f.index);
      }
    }
  }
}
