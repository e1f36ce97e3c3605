/**
 The sampler of ANALYZE (STAT4 build) as functions on values: one call per SQL function
 of the original, and one per static helper. `Stat4Accum` refines these with loops over arrays.
 */
module Stat4 {

  /** One candidate or collected sample. `anLt` of the last column numbers the row. */
  datatype Sample = Sample(
    anEq: seq<nat>,
    anLt: seq<nat>,
    anDLt: seq<nat>,
    rowid: int,
    isPSample: bool,
    iCol: nat,
    iHash: nat)

  datatype Accum = Accum(
    nRow: nat,
    nPSample: nat,
    nCol: nat,
    mxSample: nat,
    current: Sample,
    iPrn: nat,
    aBest: seq<Sample>,
    iMin: int,
    nMaxEqZero: nat,
    a: seq<Sample>)

  predicate Shaped(s: Sample, nCol: nat) {
    |s.anEq| == nCol && |s.anLt| == nCol && |s.anDLt| == nCol && s.iCol < nCol
  }

  predicate WellFormed(p: Accum) {
    p.nCol > 0 && p.mxSample > 0 && p.nPSample > 0
    && Shaped(p.current, p.nCol)
    && |p.aBest| == p.nCol
    && (forall i :: 0 <= i < p.nCol ==> Shaped(p.aBest[i], p.nCol) && !p.aBest[i].isPSample && p.aBest[i].iCol == i)
    && |p.a| <= p.mxSample
    && (forall k :: 0 <= k < |p.a| ==> Shaped(p.a[k], p.nCol))
  }

  function Zeros(n: nat): (z: seq<nat>) { seq(n, _ => 0) }

  function Ones(n: nat): (z: seq<nat>) { seq(n, _ => 1) }

  const HASH_MODULUS: nat := 0x1_0000_0000

  function NextHash(h: nat): nat { (h * 1103515245 + 12345) % HASH_MODULUS }

  /** stat_init(N,K,C); `seed` stands for the initial value of the tie-breaker. */
  function Init(nCol: nat, nRowTotal: nat, mxSample: nat, seed: nat): (p: Accum)
    requires nCol > 0 && mxSample > 0
    ensures WellFormed(p)
  {
    var blank := Sample(Zeros(nCol), Zeros(nCol), Zeros(nCol), 0, false, 0, 0);
    Accum(0, nRowTotal / (mxSample / 3 + 1) + 1, nCol, mxSample, blank, seed,
          seq(nCol, i requires 0 <= i < nCol => blank.(iCol := i)), 0, 0, [])
  }

  /** Compare columns i and up, then the tie-breaker. */
  predicate BetterFrom(x: Sample, y: Sample, i: nat)
    requires i <= |x.anEq| == |y.anEq|
    decreases |x.anEq| - i
  {
    if i == |x.anEq| then x.iHash > y.iHash
    else if x.anEq[i] > y.anEq[i] then true
    else if x.anEq[i] < y.anEq[i] then false
    else BetterFrom(x, y, i + 1)
  }

  predicate IsBetterPost(x: Sample, y: Sample, nCol: nat)
    requires Shaped(x, nCol) && Shaped(y, nCol)
  {
    BetterFrom(x, y, x.iCol + 1)
  }

  predicate IsBetter(x: Sample, y: Sample, nCol: nat)
    requires Shaped(x, nCol) && Shaped(y, nCol)
  {
    var ex, ey := x.anEq[x.iCol], y.anEq[y.iCol];
    if ex > ey then true
    else if ex == ey then x.iCol < y.iCol || (x.iCol == y.iCol && IsBetterPost(x, y, nCol))
    else false
  }

  ghost predicate AllShaped(a: seq<Sample>, nCol: nat) {
    forall k :: 0 <= k < |a| ==> Shaped(a[k], nCol)
  }

  /** First least-preferred non-periodic sample among the first k, or -1. */
  ghost function MinScan(a: seq<Sample>, k: nat, nCol: nat): (m: int)
    requires k <= |a| && AllShaped(a, nCol)
    ensures -1 <= m < k
  {
    if k == 0 then -1
    else
      var m := MinScan(a, k - 1, nCol);
      if a[k - 1].isPSample then m
      else if m < 0 || IsBetter(a[m], a[k - 1], nCol) then k - 1
      else m
  }

  /** What the search for a sample that shares the prefix of a new one found. */
  datatype Found = Blocked | NoSample | Upgrade(index: nat)

  ghost function UpgradeScan(a: seq<Sample>, k: nat, c: nat, nCol: nat): (f: Found)
    requires k <= |a| && c < nCol && AllShaped(a, nCol)
    ensures f.Upgrade? ==> k <= f.index < |a|
    decreases |a| - k
  {
    if k == |a| then NoSample
    else
      var f := UpgradeScan(a, k + 1, c, nCol);
      if f.Blocked? || a[k].anEq[c] != 0 then f
      else if a[k].isPSample then Blocked
      else if f.NoSample? || IsBetter(a[k], a[f.index], nCol) then Upgrade(k)
      else f
  }

  /** p and q differ in the sample list and its two bounds only. */
  ghost predicate SameScan(p: Accum, q: Accum) {
    q == p.(a := q.a, iMin := q.iMin, nMaxEqZero := q.nMaxEqZero)
  }

  ghost function FindNewMin(p: Accum): (q: Accum)
    requires WellFormed(p)
    ensures WellFormed(q) && SameScan(p, q)
  {
    if |p.a| >= p.mxSample then p.(iMin := MinScan(p.a, |p.a|, p.nCol)) else p
  }

  /** Sample list with room for one more; the sampler keeps iMin in range whenever the list is full. */
  ghost function MakeRoom(p: Accum): (a: seq<Sample>)
    requires WellFormed(p)
    ensures |a| < p.mxSample
    ensures AllShaped(a, p.nCol)
  {
    if |p.a| < p.mxSample then p.a
    else if 0 <= p.iMin < |p.a| then p.a[..p.iMin] + p.a[p.iMin + 1..]
    else p.a[..|p.a| - 1]
  }

  function ZeroPrefix(counts: seq<nat>, n: nat): (z: seq<nat>)
    ensures |z| == |counts|
  {
    seq(|counts|, j requires 0 <= j < |counts| => if j < n then 0 else counts[j])
  }

  ghost function Append(p: Accum, s: Sample, nEqZero: nat): (q: Accum)
    requires WellFormed(p) && Shaped(s, p.nCol)
    ensures WellFormed(q) && SameScan(p, q)
  {
    FindNewMin(p.(a := MakeRoom(p) + [s.(anEq := ZeroPrefix(s.anEq, nEqZero))]))
  }

  function Upgraded(prev: Sample, s: Sample): (u: Sample)
    requires s.iCol < |s.anEq| == |prev.anEq|
  {
    prev.(iCol := s.iCol, anEq := prev.anEq[s.iCol := s.anEq[s.iCol]])
  }

  /** sampleInsert */
  ghost function Insert(p: Accum, s: Sample, nEqZero: nat): (q: Accum)
    requires WellFormed(p) && Shaped(s, p.nCol)
    ensures WellFormed(q) && SameScan(p, q)
  {
    var p := p.(nMaxEqZero := if nEqZero > p.nMaxEqZero then nEqZero else p.nMaxEqZero);
    if s.isPSample then Append(p, s, nEqZero)
    else
      match UpgradeScan(p.a, 0, s.iCol, p.nCol)
      case Blocked => p
      case NoSample => Append(p, s, nEqZero)
      case Upgrade(u) => FindNewMin(p.(a := p.a[u := Upgraded(p.a[u], s)]))
  }

  lemma AppendIgnoresCurrent(p: Accum, c: Sample, s: Sample, nEqZero: nat, q: Accum)
    requires WellFormed(p) && Shaped(s, p.nCol) && Shaped(c, p.nCol) && q == p.(current := c)
    ensures WellFormed(q) && Append(q, s, nEqZero) == Append(p, s, nEqZero).(current := c)
  {
    assert MakeRoom(q) == MakeRoom(p);
  }

  /** Inserting does not look at the row being read. */
  lemma InsertIgnoresCurrent(p: Accum, c: Sample, s: Sample, nEqZero: nat, q: Accum)
    requires WellFormed(p) && Shaped(s, p.nCol) && Shaped(c, p.nCol) && q == p.(current := c)
    ensures WellFormed(q) && Insert(q, s, nEqZero) == Insert(p, s, nEqZero).(current := c)
  {
    var z := if nEqZero > p.nMaxEqZero then nEqZero else p.nMaxEqZero;
    AppendIgnoresCurrent(p.(nMaxEqZero := z), c, s, nEqZero, q.(nMaxEqZero := z));
  }

  /** Inserting the row being read itself. */
  lemma CurrentInserted(p: Accum, c: Sample, nEqZero: nat, q: Accum, d: Sample, r: Accum)
    requires WellFormed(p) && Shaped(c, p.nCol) && q == p.(current := c) && WellFormed(q)
    requires r == Insert(q, c, nEqZero).(current := d)
    ensures r == Insert(p, c, nEqZero).(current := d)
  {
    InsertIgnoresCurrent(p, c, c, nEqZero, q);
  }

  /** aBest[i] with the length of its own run filled in. */
  ghost function CloseBest(p: Accum, i: nat): (s: Sample)
    requires WellFormed(p) && i < p.nCol
    ensures Shaped(s, p.nCol)
  {
    p.aBest[i].(anEq := p.aBest[i].anEq[i := p.current.anEq[i]])
  }

  ghost predicate Accepts(p: Accum, s: Sample)
    requires WellFormed(p) && Shaped(s, p.nCol)
  {
    |p.a| < p.mxSample || (0 <= p.iMin < |p.a| && IsBetter(s, p.a[p.iMin], p.nCol))
  }

  ghost function PushOne(p: Accum, i: nat): (q: Accum)
    requires WellFormed(p) && i < p.nCol
    ensures WellFormed(q) && q.current == p.current
  {
    var s := CloseBest(p, i);
    var p1 := p.(aBest := p.aBest[i := s]);
    if Accepts(p1, s) then Insert(p1, s, i) else p1
  }

  /** The columns i, i-1, .., iChng of samplePushPrevious. */
  ghost function PushBest(p: Accum, i: int, iChng: nat): (q: Accum)
    requires WellFormed(p) && i < p.nCol
    ensures WellFormed(q) && q.current == p.current
    decreases i + 1
  {
    if i < iChng then p else PushBest(PushOne(p, i), i - 1, iChng)
  }

  ghost function FillOne(s: Sample, counts: seq<nat>, iChng: nat): (t: Sample)
    requires |s.anEq| <= |counts|
    ensures |t.anEq| == |s.anEq|
  {
    s.(anEq := seq(|s.anEq|, j requires 0 <= j < |s.anEq| =>
      if j >= iChng && s.anEq[j] == 0 then counts[j] else s.anEq[j]))
  }

  ghost function Fill(p: Accum, iChng: nat): (q: Accum)
    requires WellFormed(p)
    ensures WellFormed(q) && SameScan(p, q)
  {
    if iChng < p.nMaxEqZero then
      p.(nMaxEqZero := iChng,
         a := seq(|p.a|, k requires 0 <= k < |p.a| => FillOne(p.a[k], p.current.anEq, iChng)))
    else p
  }

  /** samplePushPrevious */
  ghost function PushPrevious(p: Accum, iChng: nat): (q: Accum)
    requires WellFormed(p)
    ensures WellFormed(q) && q.current == p.current
  {
    Fill(PushBest(p, p.nCol - 2, iChng), iChng)
  }

  ghost function Advance(s: Sample, iChng: nat, nCol: nat): (t: Sample)
    requires Shaped(s, nCol)
    ensures Shaped(t, nCol)
  {
    s.(anEq := seq(nCol, j requires 0 <= j < nCol => if j < iChng then s.anEq[j] + 1 else 1),
       anDLt := seq(nCol, j requires 0 <= j < nCol => if j < iChng then s.anDLt[j] else s.anDLt[j] + 1),
       anLt := seq(nCol, j requires 0 <= j < nCol => if j < iChng then s.anLt[j] else s.anLt[j] + s.anEq[j]))
  }

  lemma CountIs(p: Accum, iChng: nat, rowid: int, p1: Accum, q: Accum)
    requires WellFormed(p) && p1 == Stepped(p, iChng)
    requires q == p1.(nRow := p1.nRow + 1, iPrn := NextHash(p1.iPrn),
                      current := p1.current.(rowid := rowid, iHash := NextHash(p1.iPrn)))
    ensures q == Count(p, iChng, rowid)
  {
  }

  /** A row is sampled periodically when a multiple of nPSample lies right after it. */
  predicate Periodic(nPSample: nat, row: nat)
    requires nPSample > 0
  {
    row / nPSample != (row + 1) / nPSample
  }

  /** Counters of the new row: the runs that it ends are pushed first. */
  ghost function Stepped(p: Accum, iChng: nat): (q: Accum)
    requires WellFormed(p)
    ensures WellFormed(q) && q.current.isPSample == p.current.isPSample
  {
    if p.nRow == 0 then p.(current := p.current.(anEq := Ones(p.nCol)))
    else PushPrevious(p, iChng).(current := Advance(p.current, iChng, p.nCol))
  }

  /** Counters, rowid and tie-breaker of the new row. */
  ghost function Count(p: Accum, iChng: nat, rowid: int): (q: Accum)
    requires WellFormed(p)
    ensures WellFormed(q) && q.current.isPSample == p.current.isPSample
  {
    var p1 := Stepped(p, iChng);
    var h := NextHash(p1.iPrn);
    p1.(nRow := p1.nRow + 1, iPrn := h, current := p1.current.(rowid := rowid, iHash := h))
  }

  ghost function SamplePeriodic(p: Accum): (q: Accum)
    requires WellFormed(p) && !p.current.isPSample
    ensures WellFormed(q) && !q.current.isPSample
  {
    if Periodic(p.nPSample, p.current.anLt[p.nCol - 1]) then
      var c := p.current.(isPSample := true, iCol := 0);
      Insert(p, c, p.nCol - 1).(current := c.(isPSample := false))
    else p
  }

  ghost function NewBest(p: Accum, i: nat, iChng: nat): (s: Sample)
    requires WellFormed(p) && i < p.nCol && !p.current.isPSample
    ensures Shaped(s, p.nCol) && s.iCol == i && !s.isPSample
  {
    var c := p.current.(iCol := i);
    if i + 1 < p.nCol && (i >= iChng || IsBetterPost(c, p.aBest[i], p.nCol)) then c else p.aBest[i]
  }

  ghost function UpdateBest(p: Accum, iChng: nat): (q: Accum)
    requires WellFormed(p) && !p.current.isPSample
    ensures WellFormed(q)
  {
    p.(aBest := seq(p.nCol, i requires 0 <= i < p.nCol => NewBest(p, i, iChng)),
       current := if p.nCol >= 2 then p.current.(iCol := p.nCol - 2) else p.current)
  }

  /** stat_push */
  ghost function Push(p: Accum, iChng: nat, rowid: int): (q: Accum)
    requires WellFormed(p) && !p.current.isPSample
    ensures WellFormed(q) && !q.current.isPSample
  {
    UpdateBest(SamplePeriodic(Count(p, iChng, rowid)), iChng)
  }
}
