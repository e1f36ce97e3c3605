/** stat_push keeps the invariant, hence so does every run. */
module Stat4Run {
  import opened Arithmetic
  import opened Stat4Runs
  import opened Stat4
  import opened Stat4Order
  import opened Stat4Invariant
  import opened Stat4Steps

  /** Filling in gives every visited column the true length of its run. */
  lemma FillOneCounts(x: Index, n: nat, c: nat, cur: Sample, s: Sample)
    requires x.Valid() && 0 < n <= |x.chng| && c < x.nCol
    requires CurrentOk(x, n, cur) && Collected(x, n, c - 1, s)
    ensures var t := FillOne(s, cur.anEq, c);
            && (forall j :: c <= j < x.nCol ==> t.anEq[j] == Length(x, n, Row(s), j))
            && (forall j :: 0 <= j < c ==> t.anEq[j] == s.anEq[j])
            && (!s.isPSample ==> SameRank(s, t))
  {
    var t := FillOne(s, cur.anEq, c);
    forall j | c <= j < x.nCol ensures t.anEq[j] == Length(x, n, Row(s), j) {
      assert CountOk(x, n, c - 1, s, j);
      if s.anEq[j] == 0 {
        UnknownIsOpen(x, n, c - 1, s, j);
        EndOfOpen(x.chng, n, Row(s), j);
        StartShared(x.chng, n - 1, Row(s), j);
      }
    }
  }

  lemma FillOneKeeps(x: Index, n: nat, c: nat, cur: Sample, s: Sample)
    requires x.Valid() && 0 < n < |x.chng| && c == x.chng[n]
    requires CurrentOk(x, n, cur) && Collected(x, n, c - 1, s)
    ensures Collected(x, n + 1, x.nCol - 2, FillOne(s, cur.anEq, c))
  {
    var t := FillOne(s, cur.anEq, c);
    FillOneCounts(x, n, c, cur, s);
    var i, n' := x.nCol - 2, n + 1;
    forall j | 0 <= j < x.nCol ensures CountOk(x, n', i, t, j) {
      assert CountOk(x, n, c - 1, s, j);
      EndStep(x.chng, n, Row(s), j);
      if j == x.nCol - 1 {
        LastColumn(x.chng, x.nCol, n, Row(s));
        LastColumn(x.chng, x.nCol, n + 1, Row(s));
      }
    }
  }

  lemma FillNothing(p: Accum, k: nat, c: nat)
    requires WellFormed(p) && ZeroBound(p) && p.nMaxEqZero <= c && k < |p.a|
    ensures FillOne(p.a[k], p.current.anEq, c) == p.a[k]
  {
    assert FillOne(p.a[k], p.current.anEq, c).anEq == p.a[k].anEq;
  }

  /** Fill treats every sample alike, whether or not the bound lets it skip the loop. */
  lemma FillAll(p: Accum, c: nat)
    requires WellFormed(p) && ZeroBound(p)
    ensures |Fill(p, c).a| == |p.a|
    ensures forall k :: 0 <= k < |p.a| ==> Fill(p, c).a[k] == FillOne(p.a[k], p.current.anEq, c)
  {
    if c >= p.nMaxEqZero {
      forall k | 0 <= k < |p.a| ensures Fill(p, c).a[k] == FillOne(p.a[k], p.current.anEq, c) {
        FillNothing(p, k, c);
      }
    }
  }

  lemma FillKeepsPeriodic(x: Index, n: nat, c: nat, p: Accum)
    requires SameIndex(x, p) && 0 < n <= |x.chng| && c < x.nCol && ZeroBound(p) && PeriodicKept(x, n, p.a)
    ensures PeriodicKept(x, n, Fill(p, c).a)
  {
    var q := Fill(p, c);
    FillAll(p, c);
    forall r | 0 <= r < n && Periodic(x.Period(), r) ensures Has(q.a, x.nCol, r) {
      assert Has(p.a, x.nCol, r);
      var k :| 0 <= k < |p.a| && p.a[k].isPSample && Row(p.a[k]) == r;
      assert q.a[k].isPSample && Row(q.a[k]) == r;
    }
  }

  lemma FillKeepsBound(x: Index, n: nat, c: nat, p: Accum)
    requires SameIndex(x, p) && 0 < n <= |x.chng| && c < x.nCol
    requires CurrentOk(x, n, p.current) && SamplesOk(x, n, c - 1, p.a) && ZeroBound(p)
    ensures ZeroBound(Fill(p, c))
  {
    var q := Fill(p, c);
    FillAll(p, c);
    forall k, j | 0 <= k < |q.a| && q.nMaxEqZero <= j < q.nCol ensures q.a[k].anEq[j] > 0 {
      assert Collected(x, n, c - 1, p.a[k]);
      if j >= c {
        FillOneCounts(x, n, c, p.current, p.a[k]);
      }
    }
  }

  lemma FillKeepsMin(x: Index, n: nat, c: nat, p: Accum)
    requires SameIndex(x, p) && 0 < n <= |x.chng| && c < x.nCol
    requires CurrentOk(x, n, p.current) && ListOk(x, n, c - 1, n, p)
    ensures MinOk(Fill(p, c))
  {
    var q := Fill(p, c);
    FillAll(p, c);
    if |p.a| == p.mxSample {
      assert LeastOf(p.a, |p.a|, p.iMin, p.nCol);
      forall k | 0 <= k < |q.a| && !q.a[k].isPSample ensures !IsBetter(q.a[p.iMin], q.a[k], p.nCol) {
        FillOneCounts(x, n, c, p.current, p.a[k]);
        FillOneCounts(x, n, c, p.current, p.a[p.iMin]);
        IsBetterReads(p.a[p.iMin], p.a[k], q.a[p.iMin], q.a[k], p.nCol);
      }
    }
  }

  lemma FillKeeps(x: Index, n: nat, c: nat, p: Accum)
    requires SameIndex(x, p) && 0 < n < |x.chng| && c == x.chng[n]
    requires CurrentOk(x, n, p.current) && ListOk(x, n, c - 1, n, p)
    ensures ListOk(x, n + 1, x.nCol - 2, n, Fill(p, c))
    ensures forall k :: 0 <= k < |Fill(p, c).a| ==> Row(Fill(p, c).a[k]) < n
  {
    var q := Fill(p, c);
    FillKeepsPeriodic(x, n, c, p);
    FillKeepsMin(x, n, c, p);
    FillKeepsBound(x, n, c, p);
    FillAll(p, c);
    forall k | 0 <= k < |q.a| ensures Collected(x, n + 1, x.nCol - 2, q.a[k]) && Row(q.a[k]) < n {
      assert Collected(x, n, c - 1, p.a[k]);
      FillOneKeeps(x, n, c, p.current, p.a[k]);
    }
  }

  lemma AdvanceKeeps(x: Index, n: nat, s: Sample, rowid: int, h: nat)
    requires x.Valid() && 0 < n < |x.chng| && CurrentOk(x, n, s) && rowid == x.rowids[n]
    ensures CurrentOk(x, n + 1, Advance(s, x.chng[n], x.nCol).(rowid := rowid, iHash := h))
  {
  }

  /** The first row. */
  lemma FirstRow(x: Index, s: Sample, rowid: int, h: nat)
    requires x.Valid() && |x.chng| > 0 && rowid == x.rowids[0] && Shaped(s, x.nCol) && !s.isPSample
    requires s.anLt == s.anDLt == Zeros(x.nCol)
    ensures CurrentOk(x, 1, s.(anEq := Ones(x.nCol), rowid := rowid, iHash := h))
  {
  }

  /** After Count: the list belongs to row n but does not contain it yet. */
  ghost predicate Counted(x: Index, n: nat, q: Accum) {
    SameIndex(x, q) && n < |x.chng| && q.nRow == n + 1 && CurrentOk(x, n + 1, q.current)
    && ListOk(x, n + 1, x.nCol - 2, n, q)
    && forall k :: 0 <= k < |q.a| ==> Row(q.a[k]) < n
  }

  lemma CountFirst(x: Index, p: Accum)
    requires Inv(x, 0, p) && |x.chng| > 0
    ensures Counted(x, 0, Count(p, x.chng[0], x.rowids[0]))
  {
    FirstRow(x, p.current, x.rowids[0], NextHash(p.iPrn));
  }

  /** samplePushPrevious, with the counters still at row n-1. */
  ghost predicate Previous(x: Index, n: nat, f: Accum) {
    SameIndex(x, f) && 0 < n < |x.chng| && f.nRow == n && CurrentOk(x, n, f.current) && BestsOk(x, n, f.aBest)
    && ListOk(x, n + 1, x.nCol - 2, n, f)
    && forall k :: 0 <= k < |f.a| ==> Row(f.a[k]) < n
  }

  lemma FillPrevious(x: Index, n: nat, c: nat, b: Accum)
    requires Pushing(x, n, c - 1, b) && n < |x.chng| && c == x.chng[n]
    ensures Previous(x, n, Fill(b, c))
  {
    FillKeeps(x, n, c, b);
  }

  lemma PushPreviousKeeps(x: Index, n: nat, c: nat, p: Accum)
    requires Inv(x, n, p) && 0 < n < |x.chng| && c == x.chng[n]
    ensures Previous(x, n, PushPrevious(p, c))
  {
    var b := PushBest(p, x.nCol - 2, c);
    var f := Fill(b, c);
    assert f == PushPrevious(p, c);
    PushBestKeeps(x, n, x.nCol - 2, c, p);
    FillPrevious(x, n, c, b);
  }

  lemma CountNext(x: Index, n: nat, c: nat, p: Accum, f: Accum)
    requires WellFormed(p) && f == PushPrevious(p, c) && p.nRow == n && Previous(x, n, f) && c == x.chng[n]
    ensures Counted(x, n, Count(p, c, x.rowids[n])) && BestsOk(x, n, Count(p, c, x.rowids[n]).aBest)
  {
    var h := NextHash(f.iPrn);
    AdvanceKeeps(x, n, f.current, x.rowids[n], h);
    var q := Count(p, c, x.rowids[n]);
    ListDependsOnList(x, n + 1, x.nCol - 2, n, f, q);
  }

  lemma ListDependsOnList(x: Index, n: nat, i: int, m: nat, p: Accum, q: Accum)
    requires SameIndex(x, p) && SameIndex(x, q) && 0 < n <= |x.chng|
    requires ListOk(x, n, i, m, p) && q.a == p.a && q.iMin == p.iMin && q.nMaxEqZero >= p.nMaxEqZero
    ensures ListOk(x, n, i, m, q)
  {
  }

  lemma MultipleOf(d: nat, r: nat)
    requires d > 0 && Periodic(d, r)
    ensures r + 1 == d * ((r + 1) / d) && (r + 1) / d >= 1
  {
    var q := r / d;
    DivisionParts(r, d);
    Distribute(q, d);
    Distribute(q + 1, d);
    Quotient(r + 1, d, if r % d < d - 1 then q else q + 1);
  }

  /** The k-th of increasing periodic rows lies at the k-th multiple of the period or beyond. */
  lemma {:induction false} PeriodicRowsSpread(d: nat, rows: seq<nat>, k: nat)
    requires d > 0 && k < |rows|
    requires forall i :: 0 <= i < |rows| ==> Periodic(d, rows[i])
    requires forall i, j :: 0 <= i < j < |rows| ==> rows[i] < rows[j]
    ensures (rows[k] + 1) / d >= k + 1
  {
    MultipleOf(d, rows[k]);
    if k > 0 {
      PeriodicRowsSpread(d, rows, k - 1);
      MultipleOf(d, rows[k - 1]);
      if (rows[k] + 1) / d <= (rows[k - 1] + 1) / d {
        Times((rows[k] + 1) / d, (rows[k - 1] + 1) / d, d);
      }
    }
  }

  lemma PeriodLarge(total: nat, mx: nat)
    requires mx > 0
    ensures (total / (mx / 3 + 1) + 1) * mx > total
  {
    var m := mx / 3 + 1;
    var d := total / m + 1;
    assert total == m * (total / m) + total % m;
    assert m * d == m * (total / m) + m;
    Times(m, mx, d);
  }

  /** There are never mxSample periodic rows: the reason why iMin exists when the list is full. */
  lemma FewPeriodicRows(x: Index, rows: seq<nat>)
    requires x.Valid()
    requires forall i :: 0 <= i < |rows| ==> rows[i] < |x.chng| && Periodic(x.Period(), rows[i])
    requires forall i, j :: 0 <= i < j < |rows| ==> rows[i] < rows[j]
    ensures |rows| < x.mxSample
  {
    if |rows| >= x.mxSample {
      var d, k := x.Period(), x.mxSample - 1;
      PeriodicRowsSpread(d, rows, k);
      MultipleOf(d, rows[k]);
      PeriodLarge(|x.chng|, x.mxSample);
      Times(x.mxSample, (rows[k] + 1) / d, d);
    }
  }

  lemma RoomHasNonPeriodic(x: Index, n: nat, p: Accum)
    requires Counted(x, n, p) && Periodic(x.Period(), n) && |p.a| + 1 >= p.mxSample
    ensures exists k :: 0 <= k < |MakeRoom(p)| && !MakeRoom(p)[k].isPSample
  {
    var b := MakeRoom(p);
    MakeRoomKeeps(x, n + 1, x.nCol - 2, n, p);
    forall k | 0 <= k < |b| ensures Row(b[k]) < n {
      assert b[k] in p.a;
    }
    NotAllPeriodic(x, n, x.nCol - 2, b);
  }

  lemma NotAllPeriodic(x: Index, n: nat, i: int, b: seq<Sample>)
    requires x.Valid() && n < |x.chng| && Periodic(x.Period(), n) && |b| + 1 >= x.mxSample
    requires SamplesOk(x, n + 1, i, b) && InOrder(b, x.nCol) && forall k :: 0 <= k < |b| ==> Row(b[k]) < n
    ensures exists k :: 0 <= k < |b| && !b[k].isPSample
  {
    var rows := seq(|b| + 1, k requires 0 <= k <= |b| => if k < |b| then Row(b[k]) else n);
    if forall k :: 0 <= k < |b| ==> b[k].isPSample {
      assert forall k :: 0 <= k < |b| ==> rows[k] == Row(b[k]) && Collected(x, n + 1, i, b[k]);
      FewPeriodicRows(x, rows);
    }
  }

  /** The new row as a periodic sample: every count but the last is unknown. */
  lemma CurrentCollected(x: Index, n: nat, s: Sample)
    requires x.Valid() && n < |x.chng| && CurrentOk(x, n + 1, s) && Periodic(x.Period(), n)
    ensures Collected(x, n + 1, x.nCol - 2, s.(isPSample := true, iCol := 0, anEq := ZeroPrefix(s.anEq, x.nCol - 1)))
  {
    var t := s.(isPSample := true, iCol := 0, anEq := ZeroPrefix(s.anEq, x.nCol - 1));
    LastColumn(x.chng, x.nCol, n + 1, n);
    var i, n' := x.nCol - 2, n + 1;
    forall j | 0 <= j < x.nCol ensures CountOk(x, n', i, t, j) {}
  }

  lemma AppendedHas(p: Accum, s: Sample, nEqZero: nat)
    requires WellFormed(p) && Shaped(s, p.nCol) && s.isPSample
    ensures Has(Append(p, s, nEqZero).a, p.nCol, Row(s))
  {
    var q := Append(p, s, nEqZero);
    assert q.a[|q.a| - 1] == s.(anEq := ZeroPrefix(s.anEq, nEqZero));
  }

  lemma PeriodicKeptNext(x: Index, n: nat, a: seq<Sample>)
    requires x.Valid() && AllShaped(a, x.nCol) && PeriodicKept(x, n, a)
    requires Periodic(x.Period(), n) ==> Has(a, x.nCol, n)
    ensures PeriodicKept(x, n + 1, a)
  {
  }

  /** After SamplePeriodic: the list contains the row if it is periodic. */
  ghost predicate Sampled(x: Index, n: nat, q: Accum) {
    SameIndex(x, q) && n < |x.chng| && q.nRow == n + 1 && CurrentOk(x, n + 1, q.current)
    && ListOk(x, n + 1, x.nCol - 2, n + 1, q)
  }

  /** The new row can be appended to p as a periodic sample. */
  ghost predicate Appendable(x: Index, n: nat, p: Accum, s: Sample) {
    && SameIndex(x, p) && n < |x.chng| && ListOk(x, n + 1, x.nCol - 2, n, p)
    && (forall k :: 0 <= k < |p.a| ==> Row(p.a[k]) < n)
    && Shaped(s, x.nCol) && s.isPSample && Row(s) == n && s.anEq[x.nCol - 1] > 0
    && Collected(x, n + 1, x.nCol - 2, s.(anEq := ZeroPrefix(s.anEq, x.nCol - 1)))
    && x.nCol - 1 <= p.nMaxEqZero
    && (|p.a| + 1 >= p.mxSample ==> exists k :: 0 <= k < |MakeRoom(p)| && !MakeRoom(p)[k].isPSample)
  }

  lemma PeriodicAppendable(x: Index, n: nat, p: Accum, s: Sample)
    requires Counted(x, n, p) && Periodic(x.Period(), n) && s == p.current.(isPSample := true, iCol := 0)
    requires x.nCol - 1 <= p.nMaxEqZero
    ensures Appendable(x, n, p, s)
  {
    CurrentCollected(x, n, p.current);
    if |p.a| + 1 >= p.mxSample {
      RoomHasNonPeriodic(x, n, p);
    }
  }

  lemma AppendPeriodicKeeps(x: Index, n: nat, p: Accum, s: Sample, q: Accum)
    requires Appendable(x, n, p, s) && q == Append(p, s, x.nCol - 1)
    ensures SameIndex(x, q) && ListOk(x, n + 1, x.nCol - 2, n + 1, q)
  {
    AppendKeeps(x, n + 1, x.nCol - 2, n, p, s, x.nCol - 1);
    AppendedHas(p, s, x.nCol - 1);
    PeriodicKeptNext(x, n, q.a);
  }

  lemma RoomForZeros(x: Index, n: nat, p: Accum, z: nat, q: Accum)
    requires Counted(x, n, p) && q == p.(nMaxEqZero := if z > p.nMaxEqZero then z else p.nMaxEqZero)
    ensures Counted(x, n, q) && z <= q.nMaxEqZero
  {
    ListDependsOnList(x, n + 1, x.nCol - 2, n, p, q);
  }

  lemma InsertPeriodicKeeps(x: Index, n: nat, p: Accum, s: Sample)
    requires Counted(x, n, p) && Periodic(x.Period(), n) && s == p.current.(isPSample := true, iCol := 0)
    ensures SameIndex(x, Insert(p, s, x.nCol - 1)) && ListOk(x, n + 1, x.nCol - 2, n + 1, Insert(p, s, x.nCol - 1))
  {
    var z := x.nCol - 1;
    var p1 := p.(nMaxEqZero := if z > p.nMaxEqZero then z else p.nMaxEqZero);
    RoomForZeros(x, n, p, z, p1);
    PeriodicAppendable(x, n, p1, s);
    AppendPeriodicKeeps(x, n, p1, s, Append(p1, s, z));
  }

  lemma RestoreCurrent(x: Index, n: nat, p: Accum, q: Accum)
    requires Counted(x, n, p) && SameIndex(x, q) && ListOk(x, n + 1, x.nCol - 2, n + 1, q) && SameScan(p, q)
    ensures Sampled(x, n, q.(current := p.current.(iCol := 0, isPSample := false)))
  {
    ListDependsOnList(x, n + 1, x.nCol - 2, n + 1, q, q.(current := p.current.(iCol := 0, isPSample := false)));
  }

  lemma NotPeriodicSampled(x: Index, n: nat, p: Accum)
    requires Counted(x, n, p) && !Periodic(x.Period(), n)
    ensures Sampled(x, n, p)
  {
    PeriodicKeptNext(x, n, p.a);
  }

  lemma PeriodicSampled(x: Index, n: nat, p: Accum, s: Sample)
    requires Counted(x, n, p) && Periodic(x.Period(), n) && s == p.current.(isPSample := true, iCol := 0)
    ensures Sampled(x, n, Insert(p, s, x.nCol - 1).(current := s.(isPSample := false)))
  {
    InsertPeriodicKeeps(x, n, p, s);
    assert s.(isPSample := false) == p.current.(iCol := 0, isPSample := false);
    RestoreCurrent(x, n, p, Insert(p, s, x.nCol - 1));
  }

  lemma SamplePeriodicKeeps(x: Index, n: nat, p: Accum)
    requires Counted(x, n, p)
    ensures Sampled(x, n, SamplePeriodic(p)) && SamplePeriodic(p).aBest == p.aBest
  {
    if Periodic(x.Period(), n) {
      PeriodicSampled(x, n, p, p.current.(isPSample := true, iCol := 0));
    } else {
      NotPeriodicSampled(x, n, p);
    }
  }

  /** Replacing aBest[i] by the new row, or keeping it, leaves it at the end of its run. */
  lemma NewBestOk(x: Index, n: nat, c: nat, i: nat, p: Accum)
    requires SameIndex(x, p) && n < |x.chng| && c == x.chng[n] && i + 1 < x.nCol
    requires CurrentOk(x, n + 1, p.current)
    requires n > 0 ==> BestOk(x, n, i, p.aBest[i])
    ensures BestOk(x, n + 1, i, NewBest(p, i, c))
  {
    var cur, b := p.current.(iCol := i), p.aBest[i];
    if i >= c || IsBetterPost(cur, b, p.nCol) {
      EndUnique(x.chng, n + 1, n, i + 1, n + 1);
    } else {
      var r := Row(b);
      EndStep(x.chng, n, r, i + 1);
      EndOfOpen(x.chng, n, r, i + 1);
      assert cur.anEq[i + 1] <= b.anEq[i + 1];
    }
  }

  lemma UpdateBestKeeps(x: Index, n: nat, c: nat, p: Accum)
    requires Sampled(x, n, p) && c == x.chng[n] && (n > 0 ==> BestsOk(x, n, p.aBest))
    ensures Inv(x, n + 1, UpdateBest(p, c))
  {
    var q := UpdateBest(p, c);
    forall i | 0 <= i && i + 1 < x.nCol ensures BestOk(x, n + 1, i, q.aBest[i]) {
      NewBestOk(x, n, c, i, p);
    }
    ListDependsOnList(x, n + 1, x.nCol - 2, n + 1, p, q);
    NothingUnknown(x, n + 1, q.a);
  }

  /** The last column is always known. */
  lemma NothingUnknown(x: Index, n: nat, a: seq<Sample>)
    requires x.Valid() && 0 < n <= |x.chng| && SamplesOk(x, n, x.nCol - 2, a)
    ensures Represented(x, n, x.nCol - 1, a)
  {
    forall q | 0 <= q < |a| ensures a[q].anEq[x.nCol - 1] > 0 {
      assert Collected(x, n, x.nCol - 2, a[q]);
      assert CountOk(x, n, x.nCol - 2, a[q], x.nCol - 1);
    }
  }

  lemma PushKeeps(x: Index, n: nat, m: nat, p: Accum, q: Accum)
    requires Inv(x, n, p) && n < |x.chng| && m == n + 1 && q == Push(p, x.chng[n], x.rowids[n])
    ensures Inv(x, m, q)
  {
    var c := x.chng[n];
    if n == 0 {
      CountFirst(x, p);
    } else {
      PushPreviousKeeps(x, n, c, p);
      CountNext(x, n, c, p, PushPrevious(p, c));
    }
    var counted := Count(p, c, x.rowids[n]);
    SamplePeriodicKeeps(x, n, counted);
    UpdateBestKeeps(x, n, c, SamplePeriodic(counted));
  }

  /** q is p after row n of the scan. */
  ghost predicate Pushed(x: Index, n: nat, p: Accum, q: Accum) {
    x.Valid() && n < |x.chng| && WellFormed(p) && !p.current.isPSample && q == Push(p, x.chng[n], x.rowids[n])
  }

  /** t[k] is the accumulator after the first k rows of the scan; `seed` starts the tie-breaker. */
  ghost predicate Run(x: Index, seed: nat, t: seq<Accum>) {
    x.Valid() && 0 < |t| <= |x.chng| + 1
    && t[0] == Init(x.nCol, |x.chng|, x.mxSample, seed)
    && forall k :: 0 < k < |t| ==> Pushed(x, k - 1, t[k - 1], t[k])
  }

  lemma InitKeeps(x: Index, seed: nat)
    requires x.Valid()
    ensures Inv(x, 0, Init(x.nCol, |x.chng|, x.mxSample, seed))
  {
  }

  /** The invariant holds after every row of every run. */
  lemma {:induction false} RunKeeps(x: Index, seed: nat, t: seq<Accum>, n: nat)
    requires Run(x, seed, t) && n < |t|
    ensures Inv(x, n, t[n])
  {
    if n == 0 {
      InitKeeps(x, seed);
    } else {
      RunKeeps(x, seed, t, n - 1);
      PushKeeps(x, n - 1, n, t[n - 1], t[n]);
    }
  }

  lemma {:induction false} RunExists(x: Index, seed: nat, n: nat) returns (t: seq<Accum>)
    requires x.Valid() && n <= |x.chng|
    ensures Run(x, seed, t) && |t| == n + 1 && !t[n].current.isPSample && WellFormed(t[n])
  {
    if n == 0 {
      t := [Init(x.nCol, |x.chng|, x.mxSample, seed)];
    } else {
      var u := RunExists(x, seed, n - 1);
      t := u + [Push(u[n - 1], x.chng[n - 1], x.rowids[n - 1])];
    }
  }
}
