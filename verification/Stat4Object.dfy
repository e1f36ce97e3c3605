/** The accumulator object of stat_init(), stat_push() and stat_get(), updated in place. */
module Stat4Object {
  import opened Stat4
  import opened Stat4Order
  import opened Stat4Invariant
  import opened Stat4Run
  import opened Stat4Steps
  import opened Stat4Chosen
  import opened Sequences

  method SampleIsBetterPost(x: Sample, y: Sample, nCol: nat) returns (b: bool)
    requires Shaped(x, nCol) && Shaped(y, nCol)
    ensures b == IsBetterPost(x, y, nCol)
  {
    for i := x.iCol + 1 to nCol
      invariant IsBetterPost(x, y, nCol) == BetterFrom(x, y, i)
    {
      if x.anEq[i] > y.anEq[i] { return true; }
      if x.anEq[i] < y.anEq[i] { return false; }
    }
    return x.iHash > y.iHash;
  }

  method SampleIsBetter(x: Sample, y: Sample, nCol: nat) returns (b: bool)
    requires Shaped(x, nCol) && Shaped(y, nCol)
    ensures b == IsBetter(x, y, nCol)
  {
    var ex, ey := x.anEq[x.iCol], y.anEq[y.iCol];
    if ex > ey { return true; }
    if ex == ey {
      if x.iCol < y.iCol { return true; }
      if x.iCol == y.iCol {
        b := SampleIsBetterPost(x, y, nCol);
        return;
      }
    }
    return false;
  }

  lemma {:induction false} BlockedStays(a: seq<Sample>, k: nat, c: nat, nCol: nat)
    requires k <= |a| && c < nCol && AllShaped(a, nCol) && UpgradeScan(a, k, c, nCol).Blocked?
    ensures UpgradeScan(a, 0, c, nCol).Blocked?
  {
    if k > 0 {
      BlockedStays(a, k - 1, c, nCol);
    }
  }

  lemma {:induction false} MinScanReads(a: seq<Sample>, b: seq<Sample>, k: nat, nCol: nat)
    requires k <= |a| && k <= |b| && a[..k] == b[..k] && AllShaped(a, nCol) && AllShaped(b, nCol)
    ensures MinScan(a, k, nCol) == MinScan(b, k, nCol)
  {
    if k > 0 {
      assert a[..k - 1] == a[..k][..k - 1] && b[..k - 1] == b[..k][..k - 1];
      MinScanReads(a, b, k - 1, nCol);
      assert forall i :: 0 <= i < k ==> a[i] == a[..k][i] && b[i] == b[..k][i];
    }
  }

  class Stat4Accum {
    const nCol: nat
    const mxSample: nat
    const nPSample: nat
    const aBest: array<Sample>
    const a: array<Sample>
    var nRow: nat
    var current: Sample
    var iPrn: nat
    var iMin: int
    var nSample: nat
    var nMaxEqZero: nat
    var iGet: int

    ghost predicate Sized()
      reads this
    {
      nCol > 0 && mxSample > 0 && a != aBest && a.Length == mxSample && aBest.Length == nCol && nSample <= mxSample
    }

    ghost function State(): (p: Accum)
      requires Sized()
      reads this, a, aBest
    {
      Accum(nRow, nPSample, nCol, mxSample, current, iPrn, aBest[..], iMin, nMaxEqZero, a[..nSample])
    }

    ghost predicate Valid()
      reads this, a, aBest
    {
      Sized() && WellFormed(State())
    }

    /** The list is not full, or iMin designates a sample that can make room. */
    ghost predicate HasRoom()
      requires Sized()
      reads this
    {
      nSample == mxSample ==> 0 <= iMin < nSample
    }

    constructor (nCol: nat, nRowTotal: nat, mxSample: nat, seed: nat)
      requires nCol > 0 && mxSample > 0
      ensures Valid() && fresh(a) && fresh(aBest) && State() == Init(nCol, nRowTotal, mxSample, seed) && iGet == -1
    {
      var blank := Sample(Zeros(nCol), Zeros(nCol), Zeros(nCol), 0, false, 0, 0);
      this.nCol, this.mxSample := nCol, mxSample;
      nPSample := nRowTotal / (mxSample / 3 + 1) + 1;
      aBest := new Sample[nCol](i => blank.(iCol := i));
      a := new Sample[mxSample](_ => blank);
      nRow, current, iPrn := 0, blank, seed;
      iMin, nSample, nMaxEqZero, iGet := 0, 0, 0, -1;
      new;
      assert aBest[..] == Init(nCol, nRowTotal, mxSample, seed).aBest;
    }

    /** find_new_min */
    method FindMin()
      requires Valid()
      modifies this`iMin
      ensures Valid() && State() == FindNewMin(old(State()))
    {
      if nSample >= mxSample {
        var m := -1;
        for i := 0 to mxSample
          invariant m == MinScan(a[..nSample], i, nCol)
        {
          assert a[..nSample][i] == a[i];
          if !a[i].isPSample {
            if m < 0 {
              m := i;
            } else {
              assert a[..nSample][m] == a[m];
              var better := SampleIsBetter(a[m], a[i], nCol);
              if better { m := i; }
            }
          }
        }
        iMin := m;
      }
    }

    /** Search, from the last sample to the first, for one that shares the prefix of the new sample. */
    method FindUpgrade(c: nat) returns (f: Found)
      requires Valid() && c < nCol
      ensures f == UpgradeScan(a[..nSample], 0, c, nCol)
    {
      f := NoSample;
      var i := nSample;
      while i > 0
        invariant 0 <= i <= nSample && f == UpgradeScan(a[..nSample], i, c, nCol) && !f.Blocked?
      {
        i := i - 1;
        assert a[..nSample][i] == a[i];
        if a[i].anEq[c] == 0 {
          if a[i].isPSample {
            BlockedStays(a[..nSample], i, c, nCol);
            return Blocked;
          }
          if f.NoSample? {
            f := Upgrade(i);
          } else {
            assert a[..nSample][f.index] == a[f.index];
            var better := SampleIsBetter(a[i], a[f.index], nCol);
            if better { f := Upgrade(i); }
          }
        }
      }
    }

    /** memmove of the samples behind slot d. */
    method ShiftDown(d: nat)
      requires Sized() && d < nSample
      modifies a
      ensures forall i :: 0 <= i < nSample - 1 ==> a[i] == old(if i < d then a[i] else a[i + 1])
    {
      for k := d to nSample - 1
        invariant forall i :: 0 <= i < nSample - 1 ==> a[i] == if d <= i < k then old(a[i + 1]) else old(a[i])
        invariant a[nSample - 1] == old(a[nSample - 1])
      {
        a[k] := a[k + 1];
      }
    }

    /** Drop sample iMin, moving the later ones down by one slot. It is one to which no other is less preferred. */
    method Evict()
      requires Valid() && HasRoom()
      modifies this`nSample, a
      ensures Valid() && nSample < mxSample && State() == old(State()).(a := MakeRoom(old(State())))
      ensures old(nSample) < mxSample ==> State() == old(State())
      ensures old(nSample == mxSample && MinOk(State())) ==>
        var was := old(State());
        LeastOf(was.a, |was.a|, was.iMin, nCol) && State().a == Without(was.a, was.iMin)
    {
      if nSample >= mxSample {
        ghost var was := a[..nSample];
        ShiftDown(iMin);
        nSample := mxSample - 1;
        assert a[..nSample] == was[..iMin] + was[iMin + 1..];
      }
    }

    method UpgradeSample(u: nat, s: Sample)
      requires Valid() && u < nSample && Shaped(s, nCol)
      modifies this`iMin, a
      ensures Valid()
      ensures var p := old(State()); State() == FindNewMin(p.(a := p.a[u := Upgraded(p.a[u], s)]))
    {
      ghost var was := a[..nSample];
      a[u] := Upgraded(a[u], s);
      assert a[..nSample] == was[u := Upgraded(was[u], s)];
      FindMin();
    }

    method AppendSample(s: Sample, nEqZero: nat)
      requires Valid() && HasRoom() && Shaped(s, nCol)
      modifies this`nSample, this`iMin, a
      ensures Valid() && State() == Append(old(State()), s, nEqZero)
    {
      Evict();
      ghost var room := a[..nSample];
      var t := s.(anEq := ZeroPrefix(s.anEq, nEqZero));
      a[nSample] := t;
      nSample := nSample + 1;
      assert a[..nSample] == room + [t];
      FindMin();
    }

    /** sampleInsert */
    method SampleInsert(s: Sample, nEqZero: nat)
      requires Valid() && HasRoom() && Shaped(s, nCol)
      modifies this`nSample, this`iMin, this`nMaxEqZero, a
      ensures Valid() && State() == Insert(old(State()), s, nEqZero)
      ensures old(MinOk(State()) && Accepts(State(), s)) && !s.isPSample && s.iCol == nEqZero ==>
        Offered(old(State()).a, mxSample, s, nEqZero, State().a, nCol)
      ensures old(MinOk(State())) && s.isPSample ==>
        if old(nSample) < mxSample then Adds(old(State()).a, s, nEqZero, State().a)
        else ReplacesLeast(old(State()).a, s, nEqZero, State().a, nCol)
    {
      InsertedAs(State(), s, nEqZero, Insert(State(), s, nEqZero).a);
      if nEqZero > nMaxEqZero {
        nMaxEqZero := nEqZero;
      }
      if !s.isPSample {
        var f := FindUpgrade(s.iCol);
        if f.Blocked? { return; }
        if f.Upgrade? {
          UpgradeSample(f.index, s);
          return;
        }
      }
      AppendSample(s, nEqZero);
    }

    /** One column of samplePushPrevious: offer aBest[i] to the list. */
    method PushColumn(ghost x: Index, i: nat)
      requires Valid() && Pushing(x, nRow, i, State())
      modifies this`nSample, this`iMin, this`nMaxEqZero, a, aBest
      ensures Valid() && State() == PushOne(old(State()), i)
      ensures Pushing(x, nRow, i - 1, State())
    {
      PushOneKeeps(x, nRow, i, State());
      ghost var p := State();
      OfferBest(i);
      assert State() == PushOne(p, i);
    }

    method OfferBest(i: nat)
      requires Valid() && i < nCol && HasRoom()
      modifies this`nSample, this`iMin, this`nMaxEqZero, a, aBest
      ensures Valid() && State() == PushOne(old(State()), i)
    {
      ghost var p := State();
      aBest[i] := aBest[i].(anEq := aBest[i].anEq[i := current.anEq[i]]);
      assert aBest[..] == p.aBest[i := CloseBest(p, i)];
      var accepted := nSample < mxSample;
      if !accepted {
        assert p.a[iMin] == a[iMin];
        accepted := SampleIsBetter(aBest[i], a[iMin], nCol);
      }
      if accepted {
        SampleInsert(aBest[i], i);
      }
    }

    /** Replace the zeros among the counts from column iChng on. */
    static method FillCounts(eq: seq<nat>, counts: seq<nat>, iChng: nat) returns (r: seq<nat>)
      requires |eq| <= |counts|
      ensures |r| == |eq|
      ensures forall j :: 0 <= j < |eq| ==> r[j] == if j >= iChng && eq[j] == 0 then counts[j] else eq[j]
    {
      r := eq;
      var j := iChng;
      while j < |eq|
        invariant iChng <= j && |r| == |eq|
        invariant forall k :: 0 <= k < |eq| ==> r[k] == if iChng <= k < j && eq[k] == 0 then counts[k] else eq[k]
      {
        if r[j] == 0 { r := r[j := counts[j]]; }
        j := j + 1;
      }
    }

    /** Update the unknown counts of the samples already collected. */
    method FillSamples(iChng: nat)
      requires Valid()
      modifies this`nMaxEqZero, a
      ensures Valid() && State() == Fill(old(State()), iChng)
    {
      if iChng < nMaxEqZero {
        ghost var p := State();
        var i := nSample;
        while i > 0
          invariant 0 <= i <= nSample
          invariant forall k :: 0 <= k < i ==> a[k] == p.a[k]
          invariant forall k :: i <= k < nSample ==> a[k] == FillOne(p.a[k], p.current.anEq, iChng)
        {
          i := i - 1;
          assert Shaped(p.a[i], nCol);
          var eq := FillCounts(a[i].anEq, current.anEq, iChng);
          assert eq == FillOne(p.a[i], p.current.anEq, iChng).anEq;
          a[i] := a[i].(anEq := eq);
        }
        nMaxEqZero := iChng;
        assert a[..nSample] == Fill(p, iChng).a;
      }
    }

    method PushColumns(ghost x: Index, start: int, iChng: nat)
      requires Valid() && iChng <= start + 1 && Pushing(x, nRow, start, State())
      modifies this`nSample, this`iMin, this`nMaxEqZero, a, aBest
      ensures Valid() && start < nCol && State() == PushBest(old(State()), start, iChng)
    {
      ghost var p := State();
      var i := start;
      while i >= iChng
        invariant iChng - 1 <= i < nCol && Valid()
        invariant Pushing(x, nRow, i, State())
        invariant PushBest(State(), i, iChng) == PushBest(p, start, iChng)
      {
        PushColumn(x, i);
        i := i - 1;
      }
    }

    /** samplePushPrevious */
    method SamplePushPrevious(ghost x: Index, iChng: nat)
      requires Valid() && nRow > 0 && Inv(x, nRow, State()) && iChng < nCol
      modifies this`nSample, this`iMin, this`nMaxEqZero, a, aBest
      ensures Valid() && State() == PushPrevious(old(State()), iChng)
    {
      PushColumns(x, nCol - 2, iChng);
      FillSamples(iChng);
    }

    /** The streaming counts move on to the next row. */
    method AdvanceCurrent(iChng: nat)
      requires Valid()
      modifies this`current
      ensures Valid() && State() == old(State()).(current := Advance(old(current), iChng, nCol))
    {
      ghost var was := current;
      for i := 0 to if iChng < nCol then iChng else nCol
        invariant current == was.(anEq := current.anEq) && |current.anEq| == nCol
        invariant forall j :: 0 <= j < nCol ==> current.anEq[j] == if j < i then was.anEq[j] + 1 else was.anEq[j]
      {
        current := current.(anEq := current.anEq[i := current.anEq[i] + 1]);
      }
      var i := iChng;
      while i < nCol
        invariant iChng <= i
        invariant Shaped(current, nCol)
        invariant current == was.(anEq := current.anEq, anDLt := current.anDLt, anLt := current.anLt)
        invariant forall j :: 0 <= j < nCol ==>
          current.anEq[j] == (if j < iChng then was.anEq[j] + 1 else if j < i then 1 else was.anEq[j])
        invariant forall j :: 0 <= j < nCol ==>
          current.anDLt[j] == if iChng <= j < i then was.anDLt[j] + 1 else was.anDLt[j]
        invariant forall j :: 0 <= j < nCol ==>
          current.anLt[j] == if iChng <= j < i then was.anLt[j] + was.anEq[j] else was.anLt[j]
      {
        current := current.(anDLt := current.anDLt[i := current.anDLt[i] + 1],
                            anLt := current.anLt[i := current.anLt[i] + current.anEq[i]],
                            anEq := current.anEq[i := 1]);
        i := i + 1;
      }
      assert current == Advance(was, iChng, nCol) by {
        assert current.anEq == Advance(was, iChng, nCol).anEq;
        assert current.anDLt == Advance(was, iChng, nCol).anDLt;
        assert current.anLt == Advance(was, iChng, nCol).anLt;
      }
    }

    /** Counters for the first row, or for the next one. */
    method StepCurrent(ghost x: Index, iChng: nat)
      requires Valid() && Inv(x, nRow, State()) && iChng < nCol
      modifies this`nSample, this`iMin, this`nMaxEqZero, this`current, a, aBest
      ensures Valid() && State() == Stepped(old(State()), iChng)
    {
      if nRow == 0 {
        current := current.(anEq := Ones(nCol));
      } else {
        SamplePushPrevious(x, iChng);
        AdvanceCurrent(iChng);
      }
    }

    method CountRow(ghost x: Index, iChng: nat, rowid: int)
      requires Valid() && Inv(x, nRow, State()) && iChng < nCol
      modifies this, a, aBest
      ensures Valid() && State() == Count(old(State()), iChng, rowid)
      ensures iGet == old(iGet)
    {
      ghost var p := State();
      StepCurrent(x, iChng);
      ghost var p1 := State();
      nRow := nRow + 1;
      iPrn := NextHash(iPrn);
      current := current.(rowid := rowid, iHash := iPrn);
      CountIs(p, iChng, rowid, p1, State());
    }

    /** The new row is the last one of its nPSample rows. */
    method IsPeriodic() returns (c: bool)
      requires Valid()
      ensures c == Periodic(nPSample, current.anLt[nCol - 1])
    {
      var nLt := current.anLt[nCol - 1];
      c := nLt / nPSample != (nLt + 1) / nPSample;
    }

    /** The new row becomes a periodic sample. */
    method SampleCurrent()
      requires Valid() && HasRoom()
      modifies this, a
      ensures Valid() && iGet == old(iGet)
      ensures var p := old(State()); var c := p.current.(isPSample := true, iCol := 0);
        State() == Insert(p, c, p.nCol - 1).(current := c.(isPSample := false))
    {
      ghost var p := State();
      current := current.(isPSample := true, iCol := 0);
      ghost var q := State();
      SampleInsert(current, nCol - 1);
      current := current.(isPSample := false);
      CurrentInserted(p, q.current, p.nCol - 1, q, current, State());
    }

    method SampleIfPeriodic()
      requires Valid() && HasRoom() && !current.isPSample
      modifies this, a
      ensures Valid() && State() == SamplePeriodic(old(State()))
      ensures iGet == old(iGet)
    {
      var periodic := IsPeriodic();
      if periodic {
        SampleCurrent();
      }
    }

    method RenewBest(iChng: nat)
      requires Valid() && !current.isPSample
      modifies this`current, aBest
      ensures Valid() && State() == UpdateBest(old(State()), iChng)
    {
      ghost var p := State();
      for i := 0 to nCol - 1
        invariant current == if i == 0 then p.current else p.current.(iCol := i - 1)
        invariant forall k :: 0 <= k < i ==> aBest[k] == NewBest(p, k, iChng)
        invariant forall k :: i <= k < nCol ==> aBest[k] == p.aBest[k]
      {
        current := current.(iCol := i);
        assert p.aBest[i] == aBest[i] && Shaped(p.aBest[i], nCol);
        var renew := i >= iChng;
        if !renew { renew := SampleIsBetterPost(current, aBest[i], nCol); }
        if renew { aBest[i] := current; }
      }
      assert aBest[..] == UpdateBest(p, iChng).aBest;
    }

    method PushRow(ghost x: Index, iChng: nat, rowid: int)
      requires Valid() && Inv(x, nRow, State()) && iChng < nCol
      requires var q := Count(State(), iChng, rowid);
               !q.current.isPSample && (|q.a| == q.mxSample ==> 0 <= q.iMin < |q.a|)
      modifies this, a, aBest
      ensures Valid() && !old(current).isPSample && State() == Push(old(State()), iChng, rowid)
      ensures iGet == old(iGet)
    {
      CountRow(x, iChng, rowid);
      SampleIfPeriodic();
      RenewBest(iChng);
    }

    /** stat_push(P,C,R), called for the next row of the scan x. */
    method StatPush(ghost x: Index, iChng: nat, rowid: int)
      requires Valid() && Inv(x, nRow, State())
      requires nRow < |x.chng| && iChng == x.chng[nRow] && rowid == x.rowids[nRow]
      modifies this, a, aBest
      ensures Valid() && State() == Push(old(State()), iChng, rowid)
      ensures nRow == old(nRow) + 1 && Inv(x, nRow, State())
      ensures iGet == old(iGet)
    {
      ghost var n, p := nRow, State();
      CountHasRoom(x, n, p);
      PushRow(x, iChng, rowid);
      PushKeeps(x, n, n + 1, p, State());
    }

    /** stat_get(P, STAT_GET_ROWID): close all runs at the first call, then name the next sample. */
    method StatGetRowid(ghost x: Index) returns (r: seq<int>)
      requires Valid() && nRow > 0 && (iGet < 0 ==> Inv(x, nRow, State()))
      modifies this`nSample, this`iMin, this`nMaxEqZero, this`iGet, a, aBest
      ensures Valid()
      ensures State() == if old(iGet) < 0 then PushPrevious(old(State()), 0) else old(State())
      ensures iGet == (if old(iGet) < 0 then 0 else old(iGet))
      ensures r == if iGet < nSample then [State().a[iGet].rowid] else []
    {
      if iGet < 0 {
        SamplePushPrevious(x, 0);
        iGet := 0;
      }
      r := if iGet < nSample then [a[iGet].rowid] else [];
    }
  }

  lemma CountHasRoom(x: Index, n: nat, p: Accum)
    requires Inv(x, n, p) && n < |x.chng|
    ensures var q := Count(p, x.chng[n], x.rowids[n]);
      !q.current.isPSample && (|q.a| == q.mxSample ==> 0 <= q.iMin < |q.a|)
  {
    if n == 0 {
      CountFirst(x, p);
    } else {
      PushPreviousKeeps(x, n, x.chng[n], p);
      CountNext(x, n, x.chng[n], p, PushPrevious(p, x.chng[n]));
    }
  }
}
