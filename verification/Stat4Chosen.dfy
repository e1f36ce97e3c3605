/** What becomes of the sample list at each step of the sampler, and what no step takes away. */
module Stat4Chosen {
  import opened Sequences
  import opened Stat4Runs
  import opened Stat4
  import opened Stat4Order
  import opened Stat4Invariant
  import opened Stat4Steps
  import opened Stat4Run

  /** s is preferred to none of the non-periodic samples. */
  ghost predicate NoneWorse(a: seq<Sample>, s: Sample, nCol: nat)
    requires AllShaped(a, nCol) && Shaped(s, nCol)
  {
    forall k :: 0 <= k < |a| && !a[k].isPSample ==> !IsBetter(s, a[k], nCol)
  }

  ghost predicate HasUnknown(a: seq<Sample>, c: nat, nCol: nat)
    requires c < nCol && AllShaped(a, nCol)
  {
    exists q :: Unknown(a, 0, c, q)
  }

  ghost predicate HasUnknownPeriodic(a: seq<Sample>, c: nat, nCol: nat)
    requires c < nCol && AllShaped(a, nCol)
  {
    exists q :: Unknown(a, 0, c, q) && a[q].isPSample
  }

  /** t is s with unknown counts left of column c. */
  ghost predicate UnknownBelow(t: Sample, s: Sample, c: nat) {
    && t == s.(anEq := t.anEq) && |t.anEq| == |s.anEq|
    && forall j :: 0 <= j < |s.anEq| ==> t.anEq[j] == if j < c then 0 else s.anEq[j]
  }

  /** t is b given the priority of column c, with count e there. */
  ghost predicate RaisedTo(t: Sample, b: Sample, c: nat, e: nat) {
    && t == b.(iCol := c, anEq := t.anEq) && c < |t.anEq| == |b.anEq| && t.anEq[c] == e
    && forall j :: 0 <= j < |b.anEq| && j != c ==> t.anEq[j] == b.anEq[j]
  }

  /** One sample of the list is raised because of s: one to which no other of the same prefix is preferred. */
  ghost predicate Raises(a: seq<Sample>, s: Sample, c: nat, b: seq<Sample>, u: nat, nCol: nat)
    requires c < nCol && AllShaped(a, nCol) && Shaped(s, nCol)
  {
    BestUnknown(a, 0, c, u, nCol) && |b| == |a| && RaisedTo(b[u], a[u], c, s.anEq[c]) && b == a[u := b[u]]
  }

  ghost predicate Adds(a: seq<Sample>, s: Sample, c: nat, b: seq<Sample>) {
    |b| == |a| + 1 && b[..|a|] == a && UnknownBelow(b[|a|], s, c)
  }

  /** A least-preferred non-periodic sample goes, all others stay, and s comes in behind them. */
  ghost predicate Replaces(a: seq<Sample>, s: Sample, c: nat, b: seq<Sample>, d: nat, nCol: nat)
    requires AllShaped(a, nCol)
  {
    LeastOf(a, |a|, d, nCol) && Adds(Without(a, d), s, c, b)
  }

  ghost predicate ReplacesLeast(a: seq<Sample>, s: Sample, c: nat, b: seq<Sample>, nCol: nat)
    requires AllShaped(a, nCol)
  {
    exists d: nat :: Replaces(a, s, c, b, d, nCol)
  }

  /** What becomes of the list when s is offered for column c. */
  ghost predicate Offered(a: seq<Sample>, mx: nat, s: Sample, c: nat, b: seq<Sample>, nCol: nat)
    requires c < nCol && AllShaped(a, nCol) && Shaped(s, nCol)
  {
    if |a| == mx && NoneWorse(a, s, nCol) then b == a
    else if HasUnknownPeriodic(a, c, nCol) then b == a
    else if HasUnknown(a, c, nCol) then exists u: nat :: Raises(a, s, c, b, u, nCol)
    else if |a| < mx then Adds(a, s, c, b)
    else exists d: nat :: Replaces(a, s, c, b, d, nCol) && IsBetter(s, a[d], nCol)
  }

  lemma AcceptsIf(p: Accum, s: Sample)
    requires WellFormed(p) && MinOk(p) && Shaped(s, p.nCol)
    ensures Accepts(p, s) <==> |p.a| < p.mxSample || !NoneWorse(p.a, s, p.nCol)
  {
    if |p.a| == p.mxSample && !Accepts(p, s) {
      forall k | 0 <= k < |p.a| && !p.a[k].isPSample ensures !IsBetter(s, p.a[k], p.nCol) {
        NotBetterTransitive(s, p.a[p.iMin], p.a[k], p.nCol);
      }
    }
  }

  lemma AppendOffers(p: Accum, s: Sample, c: nat, b: seq<Sample>)
    requires WellFormed(p) && MinOk(p) && Shaped(s, p.nCol) && b == Append(p, s, c).a
    ensures |p.a| < p.mxSample ==> Adds(p.a, s, c, b)
    ensures |p.a| == p.mxSample ==> 0 <= p.iMin && Replaces(p.a, s, c, b, p.iMin, p.nCol)
  {
    var t := s.(anEq := ZeroPrefix(s.anEq, c));
    assert b == MakeRoom(p) + [t];
  }

  lemma InsertOffers(p: Accum, s: Sample, c: nat, b: seq<Sample>)
    requires WellFormed(p) && MinOk(p) && Shaped(s, p.nCol) && s.iCol == c && !s.isPSample
    requires Accepts(p, s) && b == Insert(p, s, c).a
    ensures Offered(p.a, p.mxSample, s, c, b, p.nCol)
  {
    AcceptsIf(p, s);
    UpgradeScanFindsBest(p.a, 0, c, p.nCol);
    var f := UpgradeScan(p.a, 0, c, p.nCol);
    var z := p.(nMaxEqZero := if c > p.nMaxEqZero then c else p.nMaxEqZero);
    if f.Upgrade? {
      assert Raises(p.a, s, c, b, f.index, p.nCol);
    } else if f.NoSample? {
      AppendOffers(z, s, c, b);
    }
  }

  /** Each offer of samplePushPrevious. */
  lemma PushOneOffers(p: Accum, c: nat, s: Sample, b: seq<Sample>)
    requires WellFormed(p) && MinOk(p) && c < p.nCol && s == CloseBest(p, c) && b == PushOne(p, c).a
    ensures Offered(p.a, p.mxSample, s, c, b, p.nCol)
  {
    var p1 := p.(aBest := p.aBest[c := s]);
    AcceptsIf(p1, s);
    if Accepts(p1, s) {
      InsertOffers(p1, s, c, b);
    }
  }

  lemma InsertPeriodicOffers(p: Accum, s: Sample, z: nat, b: seq<Sample>)
    requires WellFormed(p) && MinOk(p) && Shaped(s, p.nCol) && s.isPSample && b == Insert(p, s, z).a
    ensures if |p.a| < p.mxSample then Adds(p.a, s, z, b)
            else 0 <= p.iMin && Replaces(p.a, s, z, b, p.iMin, p.nCol)
  {
    AppendOffers(p.(nMaxEqZero := if z > p.nMaxEqZero then z else p.nMaxEqZero), s, z, b);
  }

  /** Either kind of insertion. */
  lemma InsertedAs(p: Accum, s: Sample, z: nat, b: seq<Sample>)
    requires WellFormed(p) && Shaped(s, p.nCol) && b == Insert(p, s, z).a
    ensures MinOk(p) && Accepts(p, s) && !s.isPSample && s.iCol == z ==> Offered(p.a, p.mxSample, s, z, b, p.nCol)
    ensures MinOk(p) && s.isPSample ==>
      if |p.a| < p.mxSample then Adds(p.a, s, z, b) else ReplacesLeast(p.a, s, z, b, p.nCol)
  {
    if MinOk(p) && s.isPSample {
      InsertPeriodicOffers(p, s, z, b);
    } else if MinOk(p) && Accepts(p, s) && s.iCol == z {
      InsertOffers(p, s, z, b);
    }
  }

  /** What becomes of the list when a row has been read: it comes in if it is periodic, and only then. */
  ghost predicate RowTaken(x: Index, n: nat, a: seq<Sample>, row: Sample, b: seq<Sample>)
    requires x.Valid() && AllShaped(a, x.nCol)
  {
    if !Periodic(x.Period(), n) then b == a
    else if |a| < x.mxSample then Adds(a, row, x.nCol - 1, b)
    else ReplacesLeast(a, row, x.nCol - 1, b, x.nCol)
  }

  lemma PeriodicOffers(x: Index, n: nat, p: Accum, b: seq<Sample>)
    requires Counted(x, n, p) && b == SamplePeriodic(p).a
    ensures RowTaken(x, n, p.a, p.current.(isPSample := true, iCol := 0), b)
  {
    if Periodic(x.Period(), n) {
      InsertPeriodicOffers(p, p.current.(isPSample := true, iCol := 0), x.nCol - 1, b);
    }
  }

  /** What a step does to the list. */
  datatype Change = Same | Raised(u: nat) | Added | Replaced(d: nat) | Refilled

  /** b[u] has the row of a[u] and is preferred to it. */
  ghost predicate RaisedAt(a: seq<Sample>, b: seq<Sample>, u: nat, nCol: nat)
    requires nCol > 0 && AllShaped(a, nCol) && AllShaped(b, nCol)
  {
    && u < |a| == |b| && b == a[u := b[u]] && !a[u].isPSample && !b[u].isPSample
    && Row(b[u]) == Row(a[u]) && IsBetter(b[u], a[u], nCol)
  }

  ghost predicate ReplacedAt(a: seq<Sample>, b: seq<Sample>, d: nat, nCol: nat)
    requires AllShaped(a, nCol) && AllShaped(b, nCol)
  {
    && LeastOf(a, |a|, d, nCol) && |b| == |a| && b[..|a| - 1] == Without(a, d)
    && (b[|a| - 1].isPSample || IsBetter(b[|a| - 1], a[d], nCol))
  }

  /** The same samples with more counts known. */
  ghost predicate Refills(a: seq<Sample>, b: seq<Sample>, nCol: nat)
    requires nCol > 0 && AllShaped(a, nCol) && AllShaped(b, nCol)
  {
    |b| == |a| && forall k :: 0 <= k < |a| ==>
      Row(b[k]) == Row(a[k]) && b[k].isPSample == a[k].isPSample && (!a[k].isPSample ==> SameRank(a[k], b[k]))
  }

  ghost predicate Changed(ch: Change, a: seq<Sample>, b: seq<Sample>, mx: nat, nCol: nat)
    requires nCol > 0 && AllShaped(a, nCol) && AllShaped(b, nCol)
  {
    match ch
    case Same => b == a
    case Raised(u) => RaisedAt(a, b, u, nCol)
    case Added => |a| < mx && |b| == |a| + 1 && b[..|a|] == a
    case Replaced(d) => |a| == mx && ReplacedAt(a, b, d, nCol)
    case Refilled => Refills(a, b, nCol)
  }

  /** A standard for non-periodic samples: a count and a column to come up to, or a sample not to fall below. */
  datatype Bar = AtLeast(count: nat, col: nat) | NotBelow(s: Sample)

  ghost predicate Clears(bar: Bar, m: Sample, nCol: nat)
    requires Shaped(m, nCol)
  {
    match bar
    case AtLeast(count, col) => m.anEq[m.iCol] > count || (m.anEq[m.iCol] == count && m.iCol <= col)
    case NotBelow(s) => Shaped(s, nCol) && !IsBetter(s, m, nCol)
  }

  lemma ClearsUp(bar: Bar, m: Sample, y: Sample, nCol: nat)
    requires Shaped(m, nCol) && Shaped(y, nCol) && Clears(bar, m, nCol) && !IsBetter(m, y, nCol)
    ensures Clears(bar, y, nCol)
  {
    if bar.NotBelow? { NotBetterTransitive(bar.s, m, y, nCol); }
  }

  lemma ClearsSame(bar: Bar, m: Sample, y: Sample, nCol: nat)
    requires Shaped(m, nCol) && Shaped(y, nCol) && Clears(bar, m, nCol) && SameRank(m, y)
    ensures Clears(bar, y, nCol)
  {
    if bar.NotBelow? { IsBetterReads(bar.s, m, bar.s, y, nCol); }
  }

  /** Sample k stands for the rows from lo up to hi. */
  ghost predicate StandsAt(a: seq<Sample>, k: int, lo: nat, hi: nat, bar: Bar, nCol: nat)
    requires nCol > 0 && AllShaped(a, nCol)
  {
    0 <= k < |a| && lo <= Row(a[k]) < hi && (a[k].isPSample || Clears(bar, a[k], nCol))
  }

  ghost predicate ClearsAt(a: seq<Sample>, k: int, bar: Bar, nCol: nat)
    requires AllShaped(a, nCol)
  {
    0 <= k < |a| && !a[k].isPSample ==> Clears(bar, a[k], nCol)
  }

  /** The rows from lo up to hi have a sample, or the list is full of samples that are no worse than the bar. */
  ghost predicate Kept(a: seq<Sample>, mx: nat, lo: nat, hi: nat, bar: Bar, nCol: nat)
    requires nCol > 0 && AllShaped(a, nCol)
  {
    || (exists k :: StandsAt(a, k, lo, hi, bar, nCol))
    || (|a| == mx && forall k :: ClearsAt(a, k, bar, nCol))
  }

  /** Whatever a step does to the list, these rows stay represented, or everything non-periodic clears the bar. */
  lemma KeptAfter(ch: Change, a: seq<Sample>, b: seq<Sample>, mx: nat, lo: nat, hi: nat, bar: Bar, nCol: nat)
    requires nCol > 0 && AllShaped(a, nCol) && AllShaped(b, nCol) && Changed(ch, a, b, mx, nCol)
    requires Kept(a, mx, lo, hi, bar, nCol)
    ensures Kept(b, mx, lo, hi, bar, nCol)
  {
    match ch
    case Same =>
    case Raised(u) => KeptRaised(a, b, u, mx, lo, hi, bar, nCol);
    case Added => KeptAdded(a, b, mx, lo, hi, bar, nCol);
    case Replaced(d) => KeptReplaced(a, b, d, mx, lo, hi, bar, nCol);
    case Refilled => KeptRefilled(a, b, mx, lo, hi, bar, nCol);
  }

  lemma RaisedClears(a: seq<Sample>, b: seq<Sample>, u: nat, k: int, bar: Bar, nCol: nat)
    requires nCol > 0 && AllShaped(a, nCol) && AllShaped(b, nCol) && RaisedAt(a, b, u, nCol)
    requires 0 <= k < |a| && !a[k].isPSample && Clears(bar, a[k], nCol)
    ensures Clears(bar, b[k], nCol)
  {
    if k == u {
      IsBetterAsymmetric(b[u], a[u], nCol);
      ClearsUp(bar, a[u], b[u], nCol);
    }
  }

  lemma KeptRaised(a: seq<Sample>, b: seq<Sample>, u: nat, mx: nat, lo: nat, hi: nat, bar: Bar, nCol: nat)
    requires nCol > 0 && AllShaped(a, nCol) && AllShaped(b, nCol) && RaisedAt(a, b, u, nCol)
    requires Kept(a, mx, lo, hi, bar, nCol)
    ensures Kept(b, mx, lo, hi, bar, nCol)
  {
    if k :| StandsAt(a, k, lo, hi, bar, nCol) {
      if !a[k].isPSample { RaisedClears(a, b, u, k, bar, nCol); }
      assert StandsAt(b, k, lo, hi, bar, nCol);
    } else {
      forall k ensures ClearsAt(b, k, bar, nCol) {
        assert ClearsAt(a, k, bar, nCol);
        if 0 <= k < |a| && !a[k].isPSample { RaisedClears(a, b, u, k, bar, nCol); }
      }
    }
  }

  lemma KeptAdded(a: seq<Sample>, b: seq<Sample>, mx: nat, lo: nat, hi: nat, bar: Bar, nCol: nat)
    requires nCol > 0 && AllShaped(a, nCol) && AllShaped(b, nCol) && Changed(Added, a, b, mx, nCol)
    requires Kept(a, mx, lo, hi, bar, nCol)
    ensures Kept(b, mx, lo, hi, bar, nCol)
  {
    var k :| StandsAt(a, k, lo, hi, bar, nCol);
    assert b[k] == b[..|a|][k];
    assert StandsAt(b, k, lo, hi, bar, nCol);
  }

  lemma KeptRefilled(a: seq<Sample>, b: seq<Sample>, mx: nat, lo: nat, hi: nat, bar: Bar, nCol: nat)
    requires nCol > 0 && AllShaped(a, nCol) && AllShaped(b, nCol) && Refills(a, b, nCol)
    requires Kept(a, mx, lo, hi, bar, nCol)
    ensures Kept(b, mx, lo, hi, bar, nCol)
  {
    if k :| StandsAt(a, k, lo, hi, bar, nCol) {
      if !a[k].isPSample { ClearsSame(bar, a[k], b[k], nCol); }
      assert StandsAt(b, k, lo, hi, bar, nCol);
    } else {
      forall k ensures ClearsAt(b, k, bar, nCol) {
        assert ClearsAt(a, k, bar, nCol);
        if 0 <= k < |a| && !a[k].isPSample { ClearsSame(bar, a[k], b[k], nCol); }
      }
    }
  }

  lemma KeptReplaced(a: seq<Sample>, b: seq<Sample>, d: nat, mx: nat, lo: nat, hi: nat, bar: Bar, nCol: nat)
    requires nCol > 0 && AllShaped(a, nCol) && AllShaped(b, nCol) && |a| == mx && ReplacedAt(a, b, d, nCol)
    requires Kept(a, mx, lo, hi, bar, nCol)
    ensures Kept(b, mx, lo, hi, bar, nCol)
  {
    if k :| StandsAt(a, k, lo, hi, bar, nCol) && k != d {
      var j := if k < d then k else k - 1;
      WithoutAt(a, d, j);
      assert b[j] == b[..|a| - 1][j];
      assert StandsAt(b, j, lo, hi, bar, nCol);
    } else {
      if !StandsAt(a, d, lo, hi, bar, nCol) { assert ClearsAt(a, d, bar, nCol); }
      forall k ensures ClearsAt(b, k, bar, nCol) {
        if 0 <= k < |b| && !b[k].isPSample { LeastClears(a, b, d, k, bar, nCol); }
      }
    }
  }

  /** If the least-preferred sample clears the bar all others do, and so does what comes in for it. */
  lemma LeastClears(a: seq<Sample>, b: seq<Sample>, d: nat, k: nat, bar: Bar, nCol: nat)
    requires AllShaped(a, nCol) && AllShaped(b, nCol) && ReplacedAt(a, b, d, nCol) && Clears(bar, a[d], nCol)
    requires k < |b| && !b[k].isPSample
    ensures Clears(bar, b[k], nCol)
  {
    if k < |a| - 1 {
      WithoutAt(a, d, k);
      assert b[k] == b[..|a| - 1][k];
      ClearsUp(bar, a[d], b[k], nCol);
    } else {
      IsBetterAsymmetric(b[k], a[d], nCol);
      ClearsUp(bar, a[d], b[k], nCol);
    }
  }
}
