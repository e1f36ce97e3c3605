/** Over whole runs: no run of rows is left without a sample for one that is shorter, and no sample for a worse one. */
module Stat4Kept {
  import opened Sequences
  import opened Stat4Runs
  import opened Stat4
  import opened Stat4Order
  import opened Stat4Invariant
  import opened Stat4Steps
  import opened Stat4Run
  import opened Stat4Chosen

  /** An offer changes the list in one of these ways. */
  lemma OfferChanges(x: Index, n: nat, c: nat, p: Accum, s: Sample, b: seq<Sample>) returns (ch: Change)
    requires Pushing(x, n, c, p) && Candidate(x, n, c, s) && AllShaped(b, x.nCol)
    requires Offered(p.a, x.mxSample, s, c, b, x.nCol)
    ensures Changed(ch, p.a, b, x.mxSample, x.nCol)
  {
    var a, nCol := p.a, x.nCol;
    if (|a| == x.mxSample && NoneWorse(a, s, nCol)) || HasUnknownPeriodic(a, c, nCol) {
      ch := Same;
    } else if HasUnknown(a, c, nCol) {
      var u: nat :| Raises(a, s, c, b, u, nCol);
      RaiseIsBetter(x, n, c, p, s, b, u);
      ch := Raised(u);
    } else if |a| < x.mxSample {
      ch := Added;
    } else {
      var d: nat :| Replaces(a, s, c, b, d, nCol) && IsBetter(s, a[d], nCol);
      ReplaceIsBetter(a, s, c, b, d, nCol);
      ch := Replaced(d);
    }
  }

  lemma ReplaceIsBetter(a: seq<Sample>, s: Sample, c: nat, b: seq<Sample>, d: nat, nCol: nat)
    requires AllShaped(a, nCol) && AllShaped(b, nCol) && Shaped(s, nCol) && s.iCol == c
    requires Replaces(a, s, c, b, d, nCol) && IsBetter(s, a[d], nCol)
    ensures ReplacedAt(a, b, d, nCol)
  {
    IsBetterReads(s, a[d], b[|a| - 1], a[d], nCol);
  }

  lemma RaiseIsBetter(x: Index, n: nat, c: nat, p: Accum, s: Sample, b: seq<Sample>, u: nat)
    requires Pushing(x, n, c, p) && Candidate(x, n, c, s) && AllShaped(b, x.nCol)
    requires Raises(p.a, s, c, b, u, x.nCol)
    ensures RaisedAt(p.a, b, u, x.nCol)
    ensures Start(x.chng, n - 1, c) <= Row(b[u]) < n
  {
    assert Unknown(p.a, 0, c, u);
    assert Collected(x, n, c, p.a[u]);
    LeaderBeats(x, n, c, c, s, p.a[u]);
    UnknownIsOpen(x, n, c, p.a[u], c);
  }

  /** The run of column c that row n - 1 ends, and the standard that it sets. */
  ghost function RunBar(x: Index, n: nat, c: nat): Bar
    requires 0 < n <= |x.chng|
  {
    AtLeast(n - Start(x.chng, n - 1, c), c)
  }

  ghost predicate RunKept(x: Index, n: nat, c: nat, a: seq<Sample>)
    requires x.Valid() && 0 < n <= |x.chng| && AllShaped(a, x.nCol)
  {
    Kept(a, x.mxSample, Start(x.chng, n - 1, c), n, RunBar(x, n, c), x.nCol)
  }

  lemma FullRepresents(x: Index, n: nat, c: nat, a: seq<Sample>, s: Sample)
    requires x.Valid() && 0 < n <= |x.chng| && c < x.nCol && AllShaped(a, x.nCol) && Shaped(s, x.nCol)
    requires |a| == x.mxSample && NoneWorse(a, s, x.nCol)
    requires s.iCol == c && s.anEq[c] == n - Start(x.chng, n - 1, c)
    ensures RunKept(x, n, c, a)
  {
    forall k ensures ClearsAt(a, k, RunBar(x, n, c), x.nCol) {}
  }

  lemma BlockerRepresents(x: Index, n: nat, c: nat, a: seq<Sample>)
    requires x.Valid() && 0 < n <= |x.chng| && c < x.nCol && AllShaped(a, x.nCol) && SamplesOk(x, n, c, a)
    requires HasUnknownPeriodic(a, c, x.nCol)
    ensures RunKept(x, n, c, a)
  {
    var q :| Unknown(a, 0, c, q) && a[q].isPSample;
    assert Collected(x, n, c, a[q]);
    UnknownIsOpen(x, n, c, a[q], c);
    assert StandsAt(a, q, Start(x.chng, n - 1, c), n, RunBar(x, n, c), x.nCol);
  }

  lemma RaisedRepresents(x: Index, n: nat, c: nat, p: Accum, s: Sample, b: seq<Sample>, u: nat)
    requires Pushing(x, n, c, p) && Candidate(x, n, c, s) && AllShaped(b, x.nCol)
    requires Raises(p.a, s, c, b, u, x.nCol)
    ensures RunKept(x, n, c, b)
  {
    RaiseIsBetter(x, n, c, p, s, b, u);
    assert StandsAt(b, u, Start(x.chng, n - 1, c), n, RunBar(x, n, c), x.nCol);
  }

  lemma TakenRepresents(x: Index, n: nat, c: nat, s: Sample, a: seq<Sample>, b: seq<Sample>)
    requires x.Valid() && 0 < n <= |x.chng| && c + 1 < x.nCol && Candidate(x, n, c, s) && AllShaped(b, x.nCol)
    requires Adds(a, s, c, b)
    ensures RunKept(x, n, c, b)
  {
    assert StandsAt(b, |b| - 1, Start(x.chng, n - 1, c), n, RunBar(x, n, c), x.nCol);
  }

  /** After the offer for its column, a run that has ended is represented, or the list is full of no less. */
  lemma OfferRepresents(x: Index, n: nat, c: nat, p: Accum, s: Sample, b: seq<Sample>)
    requires Pushing(x, n, c, p) && Candidate(x, n, c, s) && AllShaped(b, x.nCol)
    requires Offered(p.a, x.mxSample, s, c, b, x.nCol)
    ensures RunKept(x, n, c, b)
  {
    var a, nCol := p.a, x.nCol;
    if |a| == x.mxSample && NoneWorse(a, s, nCol) {
      FullRepresents(x, n, c, a, s);
    } else if HasUnknownPeriodic(a, c, nCol) {
      BlockerRepresents(x, n, c, a);
    } else if HasUnknown(a, c, nCol) {
      var u: nat :| Raises(a, s, c, b, u, nCol);
      RaisedRepresents(x, n, c, p, s, b, u);
    } else if |a| < x.mxSample {
      TakenRepresents(x, n, c, s, a, b);
    } else {
      var d: nat :| Replaces(a, s, c, b, d, nCol) && IsBetter(s, a[d], nCol);
      TakenRepresents(x, n, c, s, Without(a, d), b);
    }
  }

  lemma PushOneChosen(x: Index, n: nat, c: nat, p: Accum, b: seq<Sample>) returns (ch: Change)
    requires Pushing(x, n, c, p) && b == PushOne(p, c).a
    ensures AllShaped(b, x.nCol) && Changed(ch, p.a, b, x.mxSample, x.nCol) && RunKept(x, n, c, b)
  {
    var s := CloseBest(p, c);
    ClosedBestIsCandidate(x, n, c, p);
    PushOneOffers(p, c, s, b);
    ch := OfferChanges(x, n, c, p, s, b);
    OfferRepresents(x, n, c, p, s, b);
  }

  ghost predicate KeptIn(x: Index, a: seq<Sample>, lo: nat, hi: nat, bar: Bar) {
    x.nCol > 0 && AllShaped(a, x.nCol) && Kept(a, x.mxSample, lo, hi, bar, x.nCol)
  }

  /** The offer for column c makes b of the list a. */
  ghost predicate OneOffer(x: Index, n: nat, c: int, a: seq<Sample>, b: seq<Sample>) {
    && x.nCol > 0 && AllShaped(a, x.nCol) && AllShaped(b, x.nCol) && 0 < n <= |x.chng| && c >= 0
    && (exists ch :: Changed(ch, a, b, x.mxSample, x.nCol))
    && KeptIn(x, b, Start(x.chng, n - 1, c), n, RunBar(x, n, c))
  }

  /** q[k + 1] is q[k] after the offer for column i - k. */
  ghost predicate TraceAt(q: seq<Accum>, i: int, nCol: nat, k: int) {
    0 <= k < |q| ==>
      && WellFormed(q[k]) && q[k].nCol == nCol
      && (k + 1 < |q| ==> 0 <= i - k < nCol && q[k + 1] == PushOne(q[k], i - k))
  }

  ghost predicate Trace(q: seq<Accum>, i: int, nCol: nat) {
    forall k :: TraceAt(q, i, nCol, k)
  }

  lemma FirstOf(p: Accum, i: nat, iChng: nat, goal: Accum) returns (q: Accum)
    requires WellFormed(p) && iChng <= i < p.nCol && goal == PushBest(p, i, iChng)
    ensures WellFormed(q) && q.nCol == p.nCol && goal == PushBest(q, i - 1, iChng) && Trace([p, q], i, p.nCol)
  {
    q := PushOne(p, i);
    forall k ensures TraceAt([p, q], i, p.nCol, k) {}
  }

  /** The offers of samplePushPrevious one by one. */
  lemma {:induction false} TraceOf(p: Accum, i: int, iChng: nat, goal: Accum) returns (q: seq<Accum>)
    requires WellFormed(p) && iChng <= i + 1 && i < p.nCol && goal == PushBest(p, i, iChng)
    ensures |q| == i - iChng + 2 && q[0] == p && q[|q| - 1] == goal && Trace(q, i, p.nCol)
    decreases i + 1
  {
    if i < iChng {
      q := [p];
    } else {
      var next := FirstOf(p, i, iChng, goal);
      var rest := TraceOf(next, i - 1, iChng, goal);
      q := [p] + rest;
      TraceBehind(p, i, next, rest, q);
    }
  }

  lemma TraceBehind(p: Accum, i: nat, next: Accum, rest: seq<Accum>, q: seq<Accum>)
    requires Trace([p, next], i, p.nCol) && Trace(rest, i - 1, p.nCol) && q == [p] + rest
    requires rest != [] && rest[0] == next
    ensures Trace(q, i, p.nCol)
  {
    forall k ensures TraceAt(q, i, p.nCol, k) {
      if k == 0 {
        assert TraceAt([p, next], i, p.nCol, 0);
        assert [p, next][1] == q[1];
      } else if 0 < k < |q| {
        assert TraceAt(rest, i - 1, p.nCol, k - 1);
        assert q[k] == rest[k - 1] && (k + 1 < |q| ==> q[k + 1] == rest[k]);
      }
    }
  }

  lemma PushOneNext(x: Index, n: nat, c: nat, p: Accum, d: int, q: Accum)
    requires Pushing(x, n, c, p) && d == c - 1 && q == PushOne(p, c)
    ensures Pushing(x, n, d, q)
  {
    PushOneKeeps(x, n, c, p);
  }

  lemma TraceNext(x: Index, n: nat, i: int, q: seq<Accum>, k: nat, c: int, d: int, s: Accum, t: Accum)
    requires Trace(q, i, x.nCol) && k + 1 < |q| && c == i - k && d == c - 1 && s == q[k] && t == q[k + 1]
    requires Pushing(x, n, c, s)
    ensures Pushing(x, n, d, t)
  {
    assert TraceAt(q, i, x.nCol, k);
    PushOneNext(x, n, c, s, d, t);
  }

  lemma {:induction false} TracePushing(x: Index, n: nat, i: int, p: Accum, q: seq<Accum>, k: nat, c: int, s: Accum)
    requires q != [] && q[0] == p && Pushing(x, n, i, p) && Trace(q, i, x.nCol) && k < |q| && k <= i + 1
    requires c == i - k && s == q[k]
    ensures Pushing(x, n, c, s)
    decreases k
  {
    if k > 0 {
      TracePushing(x, n, i, p, q, k - 1, c + 1, q[k - 1]);
      TraceNext(x, n, i, q, k - 1, c + 1, c, q[k - 1], s);
    }
  }

  ghost predicate OfferAt(x: Index, n: nat, i: int, q: seq<Accum>, k: int) {
    0 <= k && k + 1 < |q| ==> OneOffer(x, n, i - k, q[k].a, q[k + 1].a)
  }

  ghost predicate OfferSteps(x: Index, n: nat, i: int, q: seq<Accum>) {
    forall k :: OfferAt(x, n, i, q, k)
  }

  lemma TraceOffer(x: Index, n: nat, i: int, q: seq<Accum>, k: nat, c: int, s: Accum, b: seq<Sample>)
    requires Trace(q, i, x.nCol) && k + 1 < |q| && c == i - k && s == q[k] && b == q[k + 1].a && Pushing(x, n, c, s)
    ensures OneOffer(x, n, c, s.a, b)
  {
    assert TraceAt(q, i, x.nCol, k);
    var ch := PushOneChosen(x, n, c, s, b);
  }

  lemma TraceOffers(x: Index, n: nat, i: int, p: Accum, q: seq<Accum>)
    requires q != [] && q[0] == p && Pushing(x, n, i, p) && Trace(q, i, x.nCol) && |q| <= i + 2
    ensures OfferSteps(x, n, i, q)
  {
    forall k ensures OfferAt(x, n, i, q, k) {
      if 0 <= k && k + 1 < |q| {
        TracePushing(x, n, i, p, q, k, i - k, q[k]);
        TraceOffer(x, n, i, q, k, i - k, q[k], q[k + 1].a);
      }
    }
  }

  /** Rows that are represented stay so through the offers of samplePushPrevious. */
  lemma {:induction false} OffersKeep(x: Index, n: nat, i: int, q: seq<Accum>, m: nat, k: nat, lo: nat, hi: nat,
          bar: Bar)
    requires OfferSteps(x, n, i, q) && m <= k < |q| && KeptIn(x, q[m].a, lo, hi, bar)
    ensures KeptIn(x, q[k].a, lo, hi, bar)
    decreases k
  {
    if m < k {
      OffersKeep(x, n, i, q, m, k - 1, lo, hi, bar);
      assert OfferAt(x, n, i, q, k - 1);
      var ch :| Changed(ch, q[k - 1].a, q[k].a, x.mxSample, x.nCol);
      KeptAfter(ch, q[k - 1].a, q[k].a, x.mxSample, lo, hi, bar, x.nCol);
    }
  }

  /** The run of an offered column is represented at the end. */
  lemma OffersRepresent(x: Index, n: nat, i: int, q: seq<Accum>, c: nat)
    requires OfferSteps(x, n, i, q) && 0 < n <= |x.chng| && i - c + 1 < |q| && c <= i
    ensures KeptIn(x, q[|q| - 1].a, Start(x.chng, n - 1, c), n, RunBar(x, n, c))
  {
    assert OfferAt(x, n, i, q, i - c);
    OffersKeep(x, n, i, q, i - c + 1, |q| - 1, Start(x.chng, n - 1, c), n, RunBar(x, n, c));
  }

  /** Filling in counts keeps every rank. */
  lemma FillRefills(x: Index, n: nat, c: nat, p: Accum)
    requires Pushing(x, n, c - 1, p) && c < x.nCol
    ensures Refills(p.a, Fill(p, c).a, x.nCol)
  {
    var b := Fill(p, c).a;
    FillAll(p, c);
    forall k | 0 <= k < |p.a|
      ensures Row(b[k]) == Row(p.a[k]) && b[k].isPSample == p.a[k].isPSample
      ensures !p.a[k].isPSample ==> SameRank(p.a[k], b[k])
    {
      assert Collected(x, n, c - 1, p.a[k]);
      FillOneCounts(x, n, c, p.current, p.a[k]);
    }
  }

  lemma PreviousOffers(x: Index, n: nat, c: nat, p: Accum, goal: Accum) returns (q: seq<Accum>)
    requires Inv(x, n, p) && 0 < n && c < x.nCol && goal == PushBest(p, x.nCol - 2, c)
    ensures |q| == x.nCol - c && q[0] == p && q[|q| - 1] == goal && OfferSteps(x, n, x.nCol - 2, q)
  {
    q := TraceOf(p, x.nCol - 2, c, goal);
    TraceOffers(x, n, x.nCol - 2, p, q);
  }

  lemma PreviousFill(x: Index, n: nat, c: nat, p: Accum, goal: Accum, b: seq<Sample>)
    requires Inv(x, n, p) && 0 < n && c < x.nCol && goal == PushBest(p, x.nCol - 2, c) && b == Fill(goal, c).a
    ensures AllShaped(goal.a, x.nCol) && AllShaped(b, x.nCol) && Refills(goal.a, b, x.nCol)
  {
    PushBestKeeps(x, n, x.nCol - 2, c, p);
    FillRefills(x, n, c, goal);
  }

  lemma PreviousParts(x: Index, n: nat, c: nat, p: Accum, goal: Accum, b: seq<Sample>) returns (q: seq<Accum>)
    requires Inv(x, n, p) && 0 < n && c < x.nCol && goal == PushBest(p, x.nCol - 2, c) && b == Fill(goal, c).a
    ensures |q| == x.nCol - c && q[0] == p && OfferSteps(x, n, x.nCol - 2, q)
    ensures AllShaped(q[|q| - 1].a, x.nCol) && AllShaped(b, x.nCol) && Refills(q[|q| - 1].a, b, x.nCol)
  {
    q := PreviousOffers(x, n, c, p, goal);
    PreviousFill(x, n, c, p, goal, b);
  }

  /** samplePushPrevious: offers, and then the counts that are known. */
  lemma PreviousIs(x: Index, n: nat, c: nat, p: Accum, b: seq<Sample>) returns (q: seq<Accum>)
    requires Inv(x, n, p) && 0 < n && c < x.nCol && b == PushPrevious(p, c).a
    ensures |q| == x.nCol - c && q[0] == p && OfferSteps(x, n, x.nCol - 2, q)
    ensures AllShaped(q[|q| - 1].a, x.nCol) && AllShaped(b, x.nCol) && Refills(q[|q| - 1].a, b, x.nCol)
  {
    q := PreviousParts(x, n, c, p, PushBest(p, x.nCol - 2, c), b);
  }

  lemma PushPreviousKept(x: Index, n: nat, c: nat, p: Accum, b: seq<Sample>, lo: nat, hi: nat, bar: Bar)
    requires Inv(x, n, p) && 0 < n && c < x.nCol && b == PushPrevious(p, c).a && KeptIn(x, p.a, lo, hi, bar)
    ensures KeptIn(x, b, lo, hi, bar)
  {
    var q := PreviousIs(x, n, c, p, b);
    OffersKeep(x, n, x.nCol - 2, q, 0, |q| - 1, lo, hi, bar);
    KeptRefilled(q[|q| - 1].a, b, x.mxSample, lo, hi, bar, x.nCol);
  }

  lemma PushPreviousRepresents(x: Index, n: nat, c: nat, p: Accum, b: seq<Sample>, j: nat)
    requires Inv(x, n, p) && 0 < n && c <= j && j + 1 < x.nCol && b == PushPrevious(p, c).a
    ensures KeptIn(x, b, Start(x.chng, n - 1, j), n, RunBar(x, n, j))
  {
    var q := PreviousIs(x, n, c, p, b);
    OffersRepresent(x, n, x.nCol - 2, q, j);
    KeptRefilled(q[|q| - 1].a, b, x.mxSample, Start(x.chng, n - 1, j), n, RunBar(x, n, j), x.nCol);
  }

  /** The list before the row that is read may be taken as a periodic sample. */
  lemma CountedList(x: Index, n: nat, p: Accum, q: Accum)
    requires Inv(x, n, p) && n < |x.chng| && q == Count(p, x.chng[n], x.rowids[n])
    ensures Counted(x, n, q)
    ensures n == 0 ==> q.a == p.a
    ensures n > 0 ==> q.a == PushPrevious(p, x.chng[n]).a
  {
    if n == 0 {
      CountFirst(x, p);
    } else {
      PushPreviousKeeps(x, n, x.chng[n], p);
      CountNext(x, n, x.chng[n], p, PushPrevious(p, x.chng[n]));
    }
  }

  lemma RowTakenKept(x: Index, n: nat, a: seq<Sample>, row: Sample, b: seq<Sample>, lo: nat, hi: nat, bar: Bar)
    requires x.Valid() && KeptIn(x, a, lo, hi, bar) && AllShaped(b, x.nCol) && row.isPSample && |a| <= x.mxSample
    requires RowTaken(x, n, a, row, b)
    ensures KeptIn(x, b, lo, hi, bar)
  {
    if Periodic(x.Period(), n) {
      if |a| < x.mxSample {
        KeptAfter(Added, a, b, x.mxSample, lo, hi, bar, x.nCol);
      } else {
        var d: nat :| Replaces(a, row, x.nCol - 1, b, d, x.nCol);
        KeptAfter(Replaced(d), a, b, x.mxSample, lo, hi, bar, x.nCol);
      }
    }
  }

  /** From the list before the row to the list after it. */
  lemma SampledKept(x: Index, n: nat, q: Accum, b: seq<Sample>, lo: nat, hi: nat, bar: Bar)
    requires Counted(x, n, q) && b == SamplePeriodic(q).a && KeptIn(x, q.a, lo, hi, bar)
    ensures KeptIn(x, b, lo, hi, bar)
  {
    PeriodicOffers(x, n, q, b);
    RowTakenKept(x, n, q.a, q.current.(isPSample := true, iCol := 0), b, lo, hi, bar);
  }

  /** Reading a row. */
  lemma PushKept(x: Index, n: nat, p: Accum, b: seq<Sample>, lo: nat, hi: nat, bar: Bar)
    requires Inv(x, n, p) && n < |x.chng| && b == Push(p, x.chng[n], x.rowids[n]).a && KeptIn(x, p.a, lo, hi, bar)
    ensures KeptIn(x, b, lo, hi, bar)
  {
    var counted := Count(p, x.chng[n], x.rowids[n]);
    CountedList(x, n, p, counted);
    if n > 0 {
      PushPreviousKept(x, n, x.chng[n], p, counted.a, lo, hi, bar);
    }
    SampledKept(x, n, counted, b, lo, hi, bar);
  }

  /** The runs that a new row ends. */
  lemma PushRepresents(x: Index, n: nat, p: Accum, b: seq<Sample>, c: nat)
    requires Inv(x, n, p) && 0 < n < |x.chng| && b == Push(p, x.chng[n], x.rowids[n]).a
    requires x.chng[n] <= c && c + 1 < x.nCol
    ensures KeptIn(x, b, Start(x.chng, n - 1, c), n, RunBar(x, n, c))
  {
    var counted := Count(p, x.chng[n], x.rowids[n]);
    CountedList(x, n, p, counted);
    PushPreviousRepresents(x, n, x.chng[n], p, counted.a, c);
    SampledKept(x, n, counted, b, Start(x.chng, n - 1, c), n, RunBar(x, n, c));
  }

  /** t[k] meets the invariant, and t[k + 1] is t[k] after the next row. */
  ghost predicate StepAt(x: Index, t: seq<Accum>, k: int) {
    0 <= k < |t| ==> Inv(x, k, t[k]) && (k + 1 < |t| ==> Pushed(x, k, t[k], t[k + 1]))
  }

  ghost predicate Steps(x: Index, t: seq<Accum>) {
    x.Valid() && |t| <= |x.chng| + 1 && forall k :: StepAt(x, t, k)
  }

  lemma RunSteps(x: Index, seed: nat, t: seq<Accum>)
    requires Run(x, seed, t)
    ensures Steps(x, t)
  {
    forall k ensures StepAt(x, t, k) {
      if 0 <= k < |t| {
        RunKeeps(x, seed, t, k);
        if k + 1 < |t| { assert Pushed(x, k + 1 - 1, t[k + 1 - 1], t[k + 1]); }
      }
    }
  }

  lemma NextKept(x: Index, t: seq<Accum>, n: nat, m: nat, lo: nat, hi: nat, bar: Bar)
    requires Steps(x, t) && m == n + 1 < |t| && KeptIn(x, t[n].a, lo, hi, bar)
    ensures KeptIn(x, t[m].a, lo, hi, bar)
  {
    assert StepAt(x, t, n);
    PushKept(x, n, t[n], t[m].a, lo, hi, bar);
  }

  /** Over any part of a run. */
  lemma {:induction false} StepsKeepRows(x: Index, t: seq<Accum>, m: nat, n: nat, lo: nat, hi: nat, bar: Bar)
    requires Steps(x, t) && m <= n < |t| && KeptIn(x, t[m].a, lo, hi, bar)
    ensures KeptIn(x, t[n].a, lo, hi, bar)
    decreases n
  {
    if m < n {
      StepsKeepRows(x, t, m, n - 1, lo, hi, bar);
      NextKept(x, t, n - 1, n, lo, hi, bar);
    }
  }

  /** A non-periodic sample that has gone is preferred to none that is there. */
  ghost predicate GoneForBetter(s: Sample, a: seq<Sample>, mx: nat, nCol: nat)
    requires nCol > 0 && Shaped(s, nCol) && AllShaped(a, nCol)
  {
    || (exists k :: 0 <= k < |a| && Row(a[k]) == Row(s))
    || (|a| == mx && NoneWorse(a, s, nCol))
  }

  lemma KeptIsGoneForBetter(x: Index, s: Sample, a: seq<Sample>)
    requires Shaped(s, x.nCol) && KeptIn(x, a, Row(s), Row(s) + 1, NotBelow(s))
    ensures GoneForBetter(s, a, x.mxSample, x.nCol)
  {
    var lo, hi, bar := Row(s), Row(s) + 1, NotBelow(s);
    if k :| StandsAt(a, k, lo, hi, bar, x.nCol) {
      assert Row(a[k]) == Row(s);
    } else {
      forall k | 0 <= k < |a| && !a[k].isPSample ensures !IsBetter(s, a[k], x.nCol) {
        assert ClearsAt(a, k, bar, x.nCol);
      }
    }
  }

  /**
   Whatever non-periodic sample is in the list after m rows, any number of rows later it is still there, or the list is
   full and the sample, as it was, is preferred to none of the non-periodic ones.
   */
  lemma GoneIsLeast(x: Index, seed: nat, t: seq<Accum>, m: nat, k: nat, n: nat)
    requires Run(x, seed, t) && m <= n < |t| && WellFormed(t[m]) && k < |t[m].a| && !t[m].a[k].isPSample
    ensures Inv(x, m, t[m]) && Inv(x, n, t[n]) && GoneForBetter(t[m].a[k], t[n].a, x.mxSample, x.nCol)
  {
    RunSteps(x, seed, t);
    StepAtInv(x, t, m);
    StepAtInv(x, t, n);
    var s := t[m].a[k];
    OwnStandard(x, t[m].a, k, s);
    StepsKeepRows(x, t, m, n, Row(s), Row(s) + 1, NotBelow(s));
    KeptIsGoneForBetter(x, s, t[n].a);
  }

  lemma StepAtInv(x: Index, t: seq<Accum>, k: nat)
    requires Steps(x, t) && k < |t|
    ensures Inv(x, k, t[k])
  {
    assert StepAt(x, t, k);
  }

  lemma OwnStandard(x: Index, a: seq<Sample>, k: nat, s: Sample)
    requires x.Valid() && AllShaped(a, x.nCol) && k < |a| && s == a[k]
    ensures KeptIn(x, a, Row(s), Row(s) + 1, NotBelow(s))
  {
    if IsBetter(s, s, x.nCol) { IsBetterAsymmetric(s, s, x.nCol); }
    assert StandsAt(a, k, Row(s), Row(s) + 1, NotBelow(s), x.nCol);
  }

  lemma EndedRun(x: Index, r: nat, i: nat, e: nat)
    requires x.Valid() && r < |x.chng| && e == End(x.chng, |x.chng|, r, i)
    ensures Start(x.chng, e - 1, i) == Start(x.chng, r, i) && (e < |x.chng| ==> x.chng[e] <= i)
  {
    EndBounds(x.chng, |x.chng|, r, i);
    StartBounds(x.chng, r, i);
    StartUnique(x.chng, e - 1, i, Start(x.chng, r, i));
  }

  /** The run that ends before row e, when that row has been read. */
  lemma RunEndKept(x: Index, t: seq<Accum>, e: nat, i: nat, a: seq<Sample>)
    requires Steps(x, t) && 0 < e && e + 1 < |t| && i + 1 < x.nCol && x.chng[e] <= i && a == t[e + 1].a
    ensures KeptIn(x, a, Start(x.chng, e - 1, i), e, RunBar(x, e, i))
  {
    assert StepAt(x, t, e);
    PushRepresents(x, e, t[e], a, i);
  }

  /** And when the scan is over. */
  lemma EarlierRunKept(x: Index, t: seq<Accum>, e: nat, i: nat, n: nat, b: seq<Sample>)
    requires Steps(x, t) && |t| == n + 1 && n == |x.chng| && 0 < e < n && i + 1 < x.nCol && x.chng[e] <= i
    requires WellFormed(t[n]) && b == PushPrevious(t[n], 0).a
    ensures KeptIn(x, b, Start(x.chng, e - 1, i), e, RunBar(x, e, i))
  {
    var lo, bar := Start(x.chng, e - 1, i), RunBar(x, e, i);
    RunEndKept(x, t, e, i, t[e + 1].a);
    StepsKeepRows(x, t, e + 1, n, lo, e, bar);
    assert StepAt(x, t, n);
    PushPreviousKept(x, n, 0, t[n], b, lo, e, bar);
  }

  lemma LastRunKept(x: Index, t: seq<Accum>, i: nat, n: nat, b: seq<Sample>)
    requires Steps(x, t) && |t| == n + 1 && 0 < n == |x.chng| && i + 1 < x.nCol
    requires WellFormed(t[n]) && b == PushPrevious(t[n], 0).a
    ensures KeptIn(x, b, Start(x.chng, n - 1, i), n, RunBar(x, n, i))
  {
    assert StepAt(x, t, n);
    PushPreviousRepresents(x, n, 0, t[n], b, i);
  }

  /** At the end of the scan every run of every column is kept, whether it ends before the last row or with it. */
  lemma EveryRunKept(x: Index, seed: nat, t: seq<Accum>, b: seq<Sample>, r: nat, i: nat, e: nat)
    requires Run(x, seed, t) && |t| == |x.chng| + 1 && r < |x.chng| && i + 1 < x.nCol
    requires e == End(x.chng, |x.chng|, r, i) && WellFormed(t[|x.chng|]) && b == PushPrevious(t[|x.chng|], 0).a
    ensures KeptIn(x, b, Start(x.chng, r, i), e, AtLeast(e - Start(x.chng, r, i), i))
  {
    RunSteps(x, seed, t);
    EndedRun(x, r, i, e);
    if e < |x.chng| {
      EarlierRunKept(x, t, e, i, |x.chng|, b);
    } else {
      LastRunKept(x, t, i, e, b);
    }
  }
}
