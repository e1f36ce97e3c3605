/** Every step of the sampler keeps its invariant. */
module Stat4Steps {
  import opened Stat4Runs
  import opened Stat4
  import opened Stat4Order
  import opened Stat4Invariant

  lemma CollectedWeaken(x: Index, n: nat, i: int, i': int, s: Sample)
    requires x.Valid() && 0 < n <= |x.chng| && i' <= i && Collected(x, n, i, s)
    ensures Collected(x, n, i', s)
  {
    forall j | 0 <= j < x.nCol ensures CountOk(x, n, i', s, j) {
      assert CountOk(x, n, i, s, j);
    }
  }

  lemma SamplesWeaken(x: Index, n: nat, i: int, i': int, a: seq<Sample>)
    requires x.Valid() && 0 < n <= |x.chng| && i' <= i && SamplesOk(x, n, i, a)
    ensures SamplesOk(x, n, i', a)
  {
    forall k | 0 <= k < |a| ensures Collected(x, n, i', a[k]) { CollectedWeaken(x, n, i, i', a[k]); }
  }

  /** A count that is still zero belongs to the run of the last row. */
  lemma UnknownIsOpen(x: Index, n: nat, i: int, s: Sample, c: nat)
    requires x.Valid() && 0 < n <= |x.chng| && c < x.nCol && Collected(x, n, i, s)
    requires s.anEq[c] == 0
    ensures Open(x.chng, x.nCol, n, Row(s), c)
  {
    assert CountOk(x, n, i, s, c);
  }

  /** A sample with the length of the current c-run, included because of c, beats every sample still without it. */
  lemma LeaderBeats(x: Index, n: nat, i: int, c: nat, s: Sample, b: Sample)
    requires x.Valid() && 0 < n <= |x.chng| && c + 1 < x.nCol
    requires Located(x, n, s) && s.iCol == c && s.anEq[c] == n - Start(x.chng, n - 1, c)
    requires Collected(x, n, i, b) && !b.isPSample && b.anEq[c] == 0
    ensures b.iCol > c && IsBetter(s, b, x.nCol)
  {
    UnknownIsOpen(x, n, i, b, c);
    assert b.iCol > c;
    var r := Row(b);
    assert CountOk(x, n, i, b, b.iCol);
    EndMonotone(x.chng, n, r, c, b.iCol);
    StartMonotone(x.chng, r, c, b.iCol);
    StartShared(x.chng, n - 1, r, c);
  }

  /** aBest[i] once its own run length is known. */
  ghost predicate Candidate(x: Index, n: nat, i: nat, s: Sample)
    requires x.Valid() && 0 < n <= |x.chng| && i + 1 < x.nCol
  {
    BestOk(x, n, i, s) && s.anEq[i] == n - Start(x.chng, n - 1, i)
  }

  lemma CandidateCollected(x: Index, n: nat, i: nat, s: Sample)
    requires x.Valid() && 0 < n <= |x.chng| && i + 1 < x.nCol && Candidate(x, n, i, s)
    ensures Collected(x, n, i - 1, s.(anEq := ZeroPrefix(s.anEq, i)))
  {
    var t := s.(anEq := ZeroPrefix(s.anEq, i));
    var r := Row(s);
    StartShared(x.chng, n - 1, r, i);
    EndOfOpen(x.chng, n, r, i);
    var i' := i - 1;
    forall j | 0 <= j < x.nCol ensures CountOk(x, n, i', t, j) {
      if j < i {
        StartMonotone(x.chng, n - 1, j, i);
      } else if j > i {
        EndMonotone(x.chng, n, r, i + 1, j);
      }
    }
  }

  lemma ClosedBestIsCandidate(x: Index, n: nat, i: nat, p: Accum)
    requires Pushing(x, n, i, p)
    ensures Candidate(x, n, i, CloseBest(p, i))
    ensures BestsOk(x, n, p.aBest[i := CloseBest(p, i)])
  {
    assert BestOk(x, n, i, p.aBest[i]);
  }

  lemma NewMinOk(p: Accum)
    requires WellFormed(p)
    requires |p.a| == p.mxSample ==> exists k :: 0 <= k < |p.a| && !p.a[k].isPSample
    ensures MinOk(FindNewMin(p))
  {
    MinScanFindsLeast(p.a, |p.a|, p.nCol);
  }

  lemma HasAfterRemoval(a: seq<Sample>, nCol: nat, i: nat, r: nat)
    requires nCol > 0 && AllShaped(a, nCol) && i < |a| && !a[i].isPSample && Has(a, nCol, r)
    ensures Has(a[..i] + a[i + 1..], nCol, r)
  {
    var k :| 0 <= k < |a| && a[k].isPSample && Row(a[k]) == r;
    assert (a[..i] + a[i + 1..])[if k < i then k else k - 1] == a[k];
  }

  lemma HasAppended(a: seq<Sample>, nCol: nat, s: Sample, r: nat)
    requires nCol > 0 && AllShaped(a, nCol) && Shaped(s, nCol)
    requires Has(a, nCol, r) || (s.isPSample && Row(s) == r)
    ensures Has(a + [s], nCol, r)
  {
    if Has(a, nCol, r) {
      var k :| 0 <= k < |a| && a[k].isPSample && Row(a[k]) == r;
      assert (a + [s])[k] == a[k];
    } else {
      assert (a + [s])[|a|] == s;
    }
  }

  lemma HasAfterUpdate(a: seq<Sample>, nCol: nat, u: nat, s: Sample, r: nat)
    requires nCol > 0 && AllShaped(a, nCol) && Shaped(s, nCol) && u < |a| && !a[u].isPSample && Has(a, nCol, r)
    ensures Has(a[u := s], nCol, r)
  {
    var k :| 0 <= k < |a| && a[k].isPSample && Row(a[k]) == r;
    assert a[u := s][k] == a[k];
  }

  lemma RemovalKeeps(x: Index, n: nat, i: int, m: nat, a: seq<Sample>, d: nat)
    requires x.Valid() && n <= |x.chng|
    requires SamplesOk(x, n, i, a) && InOrder(a, x.nCol) && PeriodicKept(x, m, a)
    requires d < |a| && !a[d].isPSample
    ensures var b := a[..d] + a[d + 1..]; SamplesOk(x, n, i, b) && InOrder(b, x.nCol) && PeriodicKept(x, m, b)
  {
    var b := a[..d] + a[d + 1..];
    forall k | 0 <= k < |b| ensures Collected(x, n, i, b[k]) {
      assert b[k] == a[if k < d then k else k + 1];
    }
    forall k, l | 0 <= k < l < |b| ensures Row(b[k]) < Row(b[l]) {
      assert b[k] == a[if k < d then k else k + 1] && b[l] == a[if l < d then l else l + 1];
    }
    forall r | 0 <= r < m && Periodic(x.Period(), r) ensures Has(b, x.nCol, r) {
      HasAfterRemoval(a, x.nCol, d, r);
    }
  }

  lemma MakeRoomKeeps(x: Index, n: nat, i: int, m: nat, p: Accum)
    requires SameIndex(x, p) && 0 < n <= |x.chng| && ListOk(x, n, i, m, p)
    ensures SamplesOk(x, n, i, MakeRoom(p)) && InOrder(MakeRoom(p), x.nCol) && PeriodicKept(x, m, MakeRoom(p))
    ensures forall s :: s in MakeRoom(p) ==> s in p.a
  {
    if |p.a| == p.mxSample {
      assert LeastOf(p.a, |p.a|, p.iMin, p.nCol);
      RemovalKeeps(x, n, i, m, p.a, p.iMin);
      RemainingIn(p.a, p.iMin, MakeRoom(p));
    }
  }

  lemma RemainingIn(a: seq<Sample>, d: nat, b: seq<Sample>)
    requires d < |a| && b == a[..d] + a[d + 1..]
    ensures forall s :: s in b ==> s in a
  {
    forall s | s in b ensures s in a {
      var k :| 0 <= k < |b| && b[k] == s;
      assert s == a[if k < d then k else k + 1];
    }
  }

  lemma AppendedList(x: Index, n: nat, i: int, m: nat, a: seq<Sample>, s: Sample)
    requires x.Valid() && n <= |x.chng|
    requires SamplesOk(x, n, i, a) && InOrder(a, x.nCol) && PeriodicKept(x, m, a)
    requires Collected(x, n, i, s) && forall k :: 0 <= k < |a| ==> Row(a[k]) < Row(s)
    ensures var b := a + [s]; SamplesOk(x, n, i, b) && InOrder(b, x.nCol) && PeriodicKept(x, m, b)
  {
    var b := a + [s];
    forall k | 0 <= k < |b| ensures Collected(x, n, i, b[k]) {
      if k < |a| { assert b[k] == a[k]; }
    }
    forall k, l | 0 <= k < l < |b| ensures Row(b[k]) < Row(b[l]) {
      assert b[k] == a[k] && (l < |a| ==> b[l] == a[l]);
    }
    forall r | 0 <= r < m && Periodic(x.Period(), r) ensures Has(b, x.nCol, r) {
      HasAppended(a, x.nCol, s, r);
    }
  }

  lemma UpdatedList(x: Index, n: nat, i: int, m: nat, a: seq<Sample>, u: nat, s: Sample)
    requires x.Valid() && n <= |x.chng|
    requires SamplesOk(x, n, i, a) && InOrder(a, x.nCol) && PeriodicKept(x, m, a)
    requires u < |a| && !a[u].isPSample && Collected(x, n, i, s) && Row(s) == Row(a[u])
    ensures var b := a[u := s]; SamplesOk(x, n, i, b) && InOrder(b, x.nCol) && PeriodicKept(x, m, b)
  {
    var b := a[u := s];
    forall k | 0 <= k < |b| ensures Collected(x, n, i, b[k]) {
      if k != u { assert b[k] == a[k]; }
    }
    forall k, l | 0 <= k < l < |b| ensures Row(b[k]) < Row(b[l]) {
      assert Row(b[k]) == Row(a[k]) && Row(b[l]) == Row(a[l]);
    }
    forall r | 0 <= r < m && Periodic(x.Period(), r) ensures Has(b, x.nCol, r) {
      HasAfterUpdate(a, x.nCol, u, s, r);
    }
  }

  lemma AppendedMin(p: Accum, b: seq<Sample>, t: Sample)
    requires WellFormed(p.(a := b + [t]))
    requires |b| + 1 == p.mxSample ==> !t.isPSample || exists k :: 0 <= k < |b| && !b[k].isPSample
    ensures MinOk(FindNewMin(p.(a := b + [t])))
  {
    var q := p.(a := b + [t]);
    assert q.a[|b|] == t && forall k :: 0 <= k < |b| ==> q.a[k] == b[k];
    NewMinOk(q);
  }

  lemma AppendedBound(p: Accum, b: seq<Sample>, t: Sample)
    requires WellFormed(p) && ZeroBound(p) && WellFormed(p.(a := b + [t])) && forall s :: s in b ==> s in p.a
    requires Shaped(t, p.nCol) && forall j :: p.nMaxEqZero <= j < p.nCol ==> t.anEq[j] > 0
    ensures ZeroBound(p.(a := b + [t]))
  {
    forall k, j | 0 <= k < |b| + 1 && p.nMaxEqZero <= j < p.nCol ensures (b + [t])[k].anEq[j] > 0 {
      if k < |b| { assert (b + [t])[k] == b[k] && b[k] in p.a; }
    }
  }

  /** Appending a sample behind all others. */
  lemma AppendKeeps(x: Index, n: nat, i: int, m: nat, p: Accum, s: Sample, nEqZero: nat)
    requires SameIndex(x, p) && 0 < n <= |x.chng| && ListOk(x, n, i, m, p)
    requires Shaped(s, x.nCol) && Collected(x, n, i, s.(anEq := ZeroPrefix(s.anEq, nEqZero)))
    requires forall j :: nEqZero <= j < x.nCol ==> s.anEq[j] > 0
    requires nEqZero <= p.nMaxEqZero
    requires forall k :: 0 <= k < |p.a| ==> Row(p.a[k]) < Row(s)
    requires |p.a| + 1 >= p.mxSample ==> !s.isPSample || exists k :: 0 <= k < |MakeRoom(p)| && !MakeRoom(p)[k].isPSample
    ensures SameIndex(x, Append(p, s, nEqZero)) && ListOk(x, n, i, m, Append(p, s, nEqZero))
  {
    MakeRoomKeeps(x, n, i, m, p);
    var b := MakeRoom(p);
    var t := s.(anEq := ZeroPrefix(s.anEq, nEqZero));
    AppendedList(x, n, i, m, b, t);
    AppendedMin(p, b, t);
    AppendedBound(p, b, t);
  }

  lemma UpgradedCollected(x: Index, n: nat, c: nat, b: Sample, s: Sample)
    requires x.Valid() && 0 < n <= |x.chng| && c + 1 < x.nCol && Candidate(x, n, c, s)
    requires Collected(x, n, c, b) && !b.isPSample && b.anEq[c] == 0 && b.anEq[c + 1] > 0
    ensures Collected(x, n, c - 1, Upgraded(b, s)) && Leads(x, n, c, Upgraded(b, s))
  {
    var t := Upgraded(b, s);
    UnknownIsOpen(x, n, c, b, c);
    EndOfOpen(x.chng, n, Row(b), c);
    StartShared(x.chng, n - 1, Row(b), c);
    var c' := c - 1;
    forall j | 0 <= j < x.nCol ensures CountOk(x, n, c', t, j) {
      assert CountOk(x, n, c, b, j);
    }
  }

  /** Giving column c's priority to a sample whose counts right of c are all known. */
  lemma UpgradeKeeps(x: Index, n: nat, c: nat, p: Accum, s: Sample, u: nat)
    requires Pushing(x, n, c, p) && Candidate(x, n, c, s)
    requires u < |p.a| && p.a[u].anEq[c] == 0 && !p.a[u].isPSample && p.a[u].anEq[c + 1] > 0
    ensures var q := FindNewMin(p.(a := p.a[u := Upgraded(p.a[u], s)]));
            SameIndex(x, q) && ListOk(x, n, c - 1, n, q) && Represented(x, n, c, q.a)
  {
    var t := Upgraded(p.a[u], s);
    SamplesWeaken(x, n, c, c - 1, p.a);
    UpgradedCollected(x, n, c, p.a[u], s);
    UpdatedList(x, n, c - 1, n, p.a, u, t);
    var q := p.(a := p.a[u := t]);
    assert q.a[u] == t;
    NewMinOk(q);
    assert Leads(x, n, c, q.a[u]);
  }

  /** A run contains the runs of longer prefixes. */
  lemma UnknownLeft(x: Index, n: nat, c: nat, p: Accum, q: nat)
    requires Pushing(x, n, c, p) && q < |p.a|
    requires p.a[q].anEq[c + 1] == 0 || Leads(x, n, c + 1, p.a[q])
    ensures Unknown(p.a, 0, c, q)
  {
    assert Collected(x, n, c, p.a[q]);
    assert CountOk(x, n, c, p.a[q], c);
    StartMonotone(x.chng, n - 1, c, c + 1);
  }

  lemma NoLeader(x: Index, n: nat, c: nat, p: Accum, u: nat, q: nat)
    requires Pushing(x, n, c, p) && BestUnknown(p.a, 0, c, u, x.nCol) && p.a[u].anEq[c + 1] == 0 && q < |p.a|
    ensures !Leads(x, n, c + 1, p.a[q])
  {
    assert Collected(x, n, c, p.a[u]) && Collected(x, n, c, p.a[q]);
    if Leads(x, n, c + 1, p.a[q]) {
      LeaderBeats(x, n, c, c + 1, p.a[q], p.a[u]);
      UnknownLeft(x, n, c, p, q);
    }
  }

  /** The sample chosen for an upgrade already has its count in the next column. */
  lemma UpgradeIsKnown(x: Index, n: nat, c: nat, p: Accum, u: nat)
    requires Pushing(x, n, c, p) && BestUnknown(p.a, 0, c, u, x.nCol)
    ensures p.a[u].anEq[c + 1] > 0
  {
    if p.a[u].anEq[c + 1] == 0 {
      assert Unknown(p.a, 0, c + 1, u);
      if q :| Unknown(p.a, 0, c + 1, q) && p.a[q].isPSample {
        UnknownLeft(x, n, c, p, q);
      } else {
        var q :| 0 <= q < |p.a| && Leads(x, n, c + 1, p.a[q]);
        NoLeader(x, n, c, p, u, q);
      }
    }
  }

  /** A candidate that is turned down finds its run represented, or not sampled at all. */
  lemma RejectedIsRepresented(x: Index, n: nat, c: nat, p: Accum, s: Sample)
    requires Pushing(x, n, c, p) && Candidate(x, n, c, s) && !Accepts(p, s)
    ensures Represented(x, n, c, p.a)
  {
    forall q | Unknown(p.a, 0, c, q) ensures p.a[q].isPSample {
      assert LeastOf(p.a, |p.a|, p.iMin, p.nCol);
      if !p.a[q].isPSample {
        NotBetterTransitive(s, p.a[p.iMin], p.a[q], p.nCol);
        LeaderBeats(x, n, c, c, s, p.a[q]);
      }
    }
  }

  /** A candidate whose run has no sample yet lies behind all samples. */
  lemma NoSampleMeansBehind(x: Index, n: nat, c: nat, p: Accum, s: Sample)
    requires Pushing(x, n, c, p) && Candidate(x, n, c, s)
    requires forall q :: !Unknown(p.a, 0, c, q)
    ensures forall k :: 0 <= k < |p.a| ==> Row(p.a[k]) < Row(s)
  {
    forall k | 0 <= k < |p.a| ensures Row(p.a[k]) < Row(s) {
      assert !Unknown(p.a, 0, c, k);
      assert Collected(x, n, c, p.a[k]);
      assert CountOk(x, n, c, p.a[k], c);
    }
  }

  ghost predicate Inserted(x: Index, n: nat, c: nat, q: Accum) {
    SameIndex(x, q) && 0 < n <= |x.chng| && c < x.nCol && ListOk(x, n, c - 1, n, q) && Represented(x, n, c, q.a)
  }

  lemma BlockedCandidate(x: Index, n: nat, c: nat, p: Accum)
    requires Pushing(x, n, c, p) && UpgradeScan(p.a, 0, c, x.nCol).Blocked?
    ensures Inserted(x, n, c, p)
  {
    UpgradeScanFindsBest(p.a, 0, c, x.nCol);
    SamplesWeaken(x, n, c, c - 1, p.a);
  }

  lemma UpgradeCandidate(x: Index, n: nat, c: nat, p: Accum, s: Sample, u: nat)
    requires Pushing(x, n, c, p) && Candidate(x, n, c, s) && UpgradeScan(p.a, 0, c, x.nCol) == Upgrade(u)
    ensures Inserted(x, n, c, FindNewMin(p.(a := p.a[u := Upgraded(p.a[u], s)])))
  {
    UpgradeScanFindsBest(p.a, 0, c, x.nCol);
    UpgradeIsKnown(x, n, c, p, u);
    UpgradeKeeps(x, n, c, p, s, u);
  }

  /** sampleInsert of a candidate, nMaxEqZero already raised. */
  lemma InsertCandidate(x: Index, n: nat, c: nat, p: Accum, s: Sample)
    requires Pushing(x, n, c, p) && Candidate(x, n, c, s) && c <= p.nMaxEqZero
    ensures Inserted(x, n, c, Insert(p, s, c))
  {
    var f := UpgradeScan(p.a, 0, c, x.nCol);
    assert p.(nMaxEqZero := p.nMaxEqZero) == p;
    if f.Blocked? {
      BlockedCandidate(x, n, c, p);
    } else if f.NoSample? {
      UpgradeScanFindsBest(p.a, 0, c, x.nCol);
      AppendCandidate(x, n, c, p, s);
    } else {
      UpgradeCandidate(x, n, c, p, s, f.index);
    }
  }

  lemma AppendCandidate(x: Index, n: nat, c: nat, p: Accum, s: Sample)
    requires Pushing(x, n, c, p) && Candidate(x, n, c, s) && c <= p.nMaxEqZero
    requires forall q :: !Unknown(p.a, 0, c, q)
    ensures Inserted(x, n, c, Append(p, s, c))
  {
    NoSampleMeansBehind(x, n, c, p, s);
    CandidateCollected(x, n, c, s);
    SamplesWeaken(x, n, c, c - 1, p.a);
    assert ListOk(x, n, c - 1, n, p);
    AppendKeeps(x, n, c - 1, n, p, s, c);
    AppendRepresents(x, n, c, p, s);
  }

  lemma RaiseBound(x: Index, n: nat, c: nat, p: Accum, z: nat)
    requires Pushing(x, n, c, p) && z >= p.nMaxEqZero
    ensures Pushing(x, n, c, p.(nMaxEqZero := z))
  {
  }

  lemma AcceptedKeeps(x: Index, n: nat, c: nat, p: Accum, s: Sample)
    requires Pushing(x, n, c, p) && Candidate(x, n, c, s)
    ensures Pushing(x, n, c - 1, Insert(p, s, c))
  {
    var p2 := p.(nMaxEqZero := if c > p.nMaxEqZero then c else p.nMaxEqZero);
    RaiseBound(x, n, c, p, p2.nMaxEqZero);
    InsertCandidate(x, n, c, p2, s);
    assert Insert(p2, s, c) == Insert(p, s, c);
  }

  lemma RejectedKeeps(x: Index, n: nat, c: nat, p: Accum, s: Sample)
    requires Pushing(x, n, c, p) && Candidate(x, n, c, s) && !Accepts(p, s)
    ensures Pushing(x, n, c - 1, p)
  {
    RejectedIsRepresented(x, n, c, p, s);
    SamplesWeaken(x, n, c, c - 1, p.a);
  }

  lemma PushOneKeeps(x: Index, n: nat, c: nat, p: Accum)
    requires Pushing(x, n, c, p)
    ensures Pushing(x, n, c - 1, PushOne(p, c))
  {
    var s := CloseBest(p, c);
    ClosedBestIsCandidate(x, n, c, p);
    var p1 := p.(aBest := p.aBest[c := s]);
    assert Pushing(x, n, c, p1);
    if Accepts(p1, s) {
      AcceptedKeeps(x, n, c, p1, s);
    } else {
      RejectedKeeps(x, n, c, p1, s);
    }
  }

  lemma AppendRepresents(x: Index, n: nat, c: nat, p: Accum, s: Sample)
    requires Pushing(x, n, c, p) && Candidate(x, n, c, s)
    requires forall k :: 0 <= k < |Append(p, s, c).a| ==> Located(x, n, Append(p, s, c).a[k])
    ensures Represented(x, n, c, Append(p, s, c).a)
  {
    var q := Append(p, s, c);
    assert Leads(x, n, c, q.a[|q.a| - 1]);
  }

  lemma {:induction false} PushBestKeeps(x: Index, n: nat, i: int, iChng: nat, p: Accum)
    requires Pushing(x, n, i, p) && iChng <= i + 1
    ensures Pushing(x, n, iChng - 1, PushBest(p, i, iChng))
    decreases i + 1
  {
    if i >= iChng {
      PushOneKeeps(x, n, i, p);
      PushBestKeeps(x, n, i - 1, iChng, PushOne(p, i));
    }
  }
}
