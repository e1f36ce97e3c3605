/**
 Runs of equal key prefixes in a sorted index scan.

 A scan is described by `chng`: chng[r] is the left-most column in which row r
 differs from row r-1 (chng[0] is 0). The j-run of row r is the maximal block of
 consecutive rows around r that share their first j+1 columns.
 */
module Stat4Runs {

  /** A scan of an index with nCol columns whose full keys are all different. */
  ghost predicate Scan(chng: seq<nat>, nCol: nat) {
    nCol > 0
    && (|chng| > 0 ==> chng[0] == 0)
    && forall r :: 0 <= r < |chng| ==> chng[r] < nCol
  }

  /** First row of the j-run of row r; also the number of rows with a smaller prefix. */
  ghost function Start(chng: seq<nat>, r: nat, j: nat): (s: nat)
    requires r < |chng|
    ensures s <= r
  {
    if r == 0 || chng[r] <= j then r else Start(chng, r - 1, j)
  }

  /** One past the last row, among the first n, of the j-run of row r. */
  ghost function End(chng: seq<nat>, n: nat, r: nat, j: nat): (e: nat)
    requires r < n <= |chng|
    ensures r < e <= n
    decreases n - r
  {
    if r + 1 == n || chng[r + 1] <= j then r + 1 else End(chng, n, r + 1, j)
  }

  /** Number of distinct (j+1)-column prefixes that are smaller than the one of row r. */
  ghost function Distinct(chng: seq<nat>, r: nat, j: nat): nat
    requires r < |chng|
  {
    if r == 0 then 0 else Distinct(chng, r - 1, j) + (if chng[r] <= j then 1 else 0)
  }

  /** After n rows, the j-run of row r can still grow. */
  ghost predicate Open(chng: seq<nat>, nCol: nat, n: nat, r: nat, j: nat)
    requires r < n <= |chng|
  {
    j + 1 < nCol && Start(chng, n - 1, j) <= r
  }

  lemma {:induction false} StartBounds(chng: seq<nat>, r: nat, j: nat)
    requires r < |chng|
    ensures var s := Start(chng, r, j); (s == 0 || chng[s] <= j) && forall t :: s < t <= r ==> chng[t] > j
  {
    if r == 0 || chng[r] <= j {
    } else {
      StartBounds(chng, r - 1, j);
    }
  }

  lemma {:induction false} StartUnique(chng: seq<nat>, r: nat, j: nat, s: nat)
    requires s <= r < |chng|
    requires s == 0 || chng[s] <= j
    requires forall t :: s < t <= r ==> chng[t] > j
    ensures Start(chng, r, j) == s
  {
    if s < r {
      StartUnique(chng, r - 1, j, s);
    }
  }

  /** Rows of one run agree on where it starts. */
  lemma StartShared(chng: seq<nat>, q: nat, r: nat, j: nat)
    requires r <= q < |chng| && Start(chng, q, j) <= r
    ensures Start(chng, r, j) == Start(chng, q, j)
  {
    StartBounds(chng, q, j);
    StartUnique(chng, r, j, Start(chng, q, j));
  }

  lemma {:induction false} StartMonotone(chng: seq<nat>, r: nat, j: nat, k: nat)
    requires r < |chng| && j <= k
    ensures Start(chng, r, j) <= Start(chng, r, k)
  {
    if r > 0 && chng[r] > j {
      StartMonotone(chng, r - 1, j, k);
    }
  }

  lemma {:induction false} EndBounds(chng: seq<nat>, n: nat, r: nat, j: nat)
    requires r < n <= |chng|
    ensures var e := End(chng, n, r, j); (e == n || chng[e] <= j) && forall t :: r < t < e ==> chng[t] > j
    decreases n - r
  {
    if r + 1 == n || chng[r + 1] <= j {
    } else {
      EndBounds(chng, n, r + 1, j);
    }
  }

  lemma {:induction false} EndUnique(chng: seq<nat>, n: nat, r: nat, j: nat, e: nat)
    requires r < e <= n <= |chng|
    requires e == n || chng[e] <= j
    requires forall t :: r < t < e ==> chng[t] > j
    ensures End(chng, n, r, j) == e
    decreases n - r
  {
    if r + 1 < e {
      EndUnique(chng, n, r + 1, j, e);
    }
  }

  lemma EndMonotone(chng: seq<nat>, n: nat, r: nat, j: nat, k: nat)
    requires r < n <= |chng| && j <= k
    ensures End(chng, n, r, k) <= End(chng, n, r, j)
  {
    EndBounds(chng, n, r, j);
    EndBounds(chng, n, r, k);
  }

  /** The last run is the only one that reaches row n-1. */
  lemma EndOfOpen(chng: seq<nat>, n: nat, r: nat, j: nat)
    requires r < n <= |chng|
    ensures (End(chng, n, r, j) == n) == (Start(chng, n - 1, j) <= r)
  {
    EndBounds(chng, n, r, j);
    StartBounds(chng, n - 1, j);
  }

  /** Effect on old runs of one more row. */
  lemma EndStep(chng: seq<nat>, n: nat, r: nat, j: nat)
    requires r < n < |chng|
    ensures End(chng, n + 1, r, j) ==
            if Start(chng, n - 1, j) <= r && chng[n] > j then n + 1 else End(chng, n, r, j)
  {
    EndBounds(chng, n, r, j);
    EndOfOpen(chng, n, r, j);
    if Start(chng, n - 1, j) <= r && chng[n] > j {
      EndUnique(chng, n + 1, r, j, n + 1);
    } else {
      EndUnique(chng, n + 1, r, j, End(chng, n, r, j));
    }
  }

  /** In a scan of unique keys the run of the full key is the row alone. */
  lemma LastColumn(chng: seq<nat>, nCol: nat, n: nat, r: nat)
    requires Scan(chng, nCol) && r < n <= |chng|
    ensures Start(chng, r, nCol - 1) == r && End(chng, n, r, nCol - 1) == r + 1
  {
  }

  lemma {:induction false} DistinctShared(chng: seq<nat>, q: nat, r: nat, j: nat)
    requires r <= q < |chng| && Start(chng, q, j) <= r
    ensures Distinct(chng, r, j) == Distinct(chng, q, j)
  {
    if r < q {
      StartBounds(chng, q, j);
      DistinctShared(chng, q - 1, r, j);
    }
  }

  lemma {:induction false} DistinctMonotone(chng: seq<nat>, r: nat, j: nat, k: nat)
    requires r < |chng| && j <= k
    ensures Distinct(chng, r, j) <= Distinct(chng, r, k)
  {
    if r > 0 {
      DistinctMonotone(chng, r - 1, j, k);
    }
  }
}
