/** What the best candidates of the sampler are: in every column the preferred row of the current run. */
module Stat4Best {
  import opened Stat4Runs
  import opened Stat4
  import opened Stat4Order
  import opened Stat4Invariant
  import opened Stat4Run

  /** Offering the candidates of columns c to i leaves those of the other columns. */
  lemma {:induction false} OtherBestsStay(p: Accum, i: int, c: nat, j: nat)
    requires WellFormed(p) && i < p.nCol && j < c && j < p.nCol
    ensures PushBest(p, i, c).nCol == p.nCol && PushBest(p, i, c).aBest[j] == p.aBest[j]
    decreases i + 1
  {
    if i >= c {
      OtherBestsStay(PushOne(p, i), i - 1, c, j);
    }
  }

  /** The row just read, as a candidate for column i. */
  ghost function Candidate(p: Accum, i: nat): (s: Sample)
    requires WellFormed(p) && i < p.nCol
    ensures Shaped(s, p.nCol)
  {
    p.current.(iCol := i)
  }

  lemma CountKeepsBest(p: Accum, c: nat, rowid: int, i: nat)
    requires WellFormed(p) && i < c && i < p.nCol
    ensures Count(p, c, rowid).nCol == p.nCol && Count(p, c, rowid).aBest[i] == p.aBest[i]
  {
    OtherBestsStay(p, p.nCol - 2, c, i);
  }

  /** After a row: the candidate is the row if its run is new or it is preferred, and what it was before if not. */
  lemma BestAfterPush(p: Accum, c: nat, rowid: int, i: nat, q: Accum)
    requires WellFormed(p) && !p.current.isPSample && i + 1 < p.nCol && q == Push(p, c, rowid)
    ensures q.nCol == p.nCol && WellFormed(q)
    ensures q.aBest[i] ==
      if i >= c || IsBetterPost(Candidate(q, i), p.aBest[i], p.nCol) then Candidate(q, i) else p.aBest[i]
  {
    var k := Count(p, c, rowid);
    if i < c {
      CountKeepsBest(p, c, rowid, i);
    }
    var m := SamplePeriodic(k);
    assert q.aBest[i] == NewBest(m, i, c);
    assert Candidate(q, i) == m.current.(iCol := i);
  }

  /** What a row has done to candidate i, for all of the first n rows. */
  ghost predicate Stepwise(x: Index, t: seq<Accum>, n: nat, i: nat) {
    && i + 1 < x.nCol && n < |t| && n <= |x.chng|
    && (forall k :: 0 <= k <= n ==> WellFormed(t[k]) && t[k].nCol == x.nCol)
    && forall k :: 0 < k <= n ==> StepAt(x, t, i, k)
  }

  ghost predicate StepAt(x: Index, t: seq<Accum>, i: nat, k: nat)
    requires 0 < k < |t| && k <= |x.chng| && i + 1 < x.nCol
    requires WellFormed(t[k]) && WellFormed(t[k - 1]) && t[k].nCol == t[k - 1].nCol == x.nCol
  {
    t[k].aBest[i] ==
    if i >= x.chng[k - 1] || IsBetterPost(Candidate(t[k], i), t[k - 1].aBest[i], x.nCol) then Candidate(t[k], i)
    else t[k - 1].aBest[i]
  }

  lemma RunStepwise(x: Index, seed: nat, t: seq<Accum>, n: nat, i: nat)
    requires Run(x, seed, t) && n < |t| && i + 1 < x.nCol
    ensures Stepwise(x, t, n, i)
  {
    forall k | 0 <= k <= n ensures WellFormed(t[k]) && t[k].nCol == x.nCol {
      RunKeeps(x, seed, t, k);
    }
    forall k | 0 < k <= n ensures StepAt(x, t, i, k) {
      assert Pushed(x, k - 1, t[k - 1], t[k]);
      BestAfterPush(t[k - 1], x.chng[k - 1], x.rowids[k - 1], i, t[k]);
    }
  }

  /** Row b of the run that column i is in after n rows. */
  ghost predicate InRun(x: Index, n: nat, i: nat, b: nat) {
    0 < n <= |x.chng| && Start(x.chng, n - 1, i) <= b < n
  }

  lemma {:induction false} StepwiseRow(x: Index, t: seq<Accum>, n: nat, i: nat) returns (b: nat)
    requires Stepwise(x, t, n, i) && 0 < n && x.chng[0] == 0
    ensures InRun(x, n, i, b) && t[n].aBest[i] == Candidate(t[b + 1], i)
    decreases n
  {
    assert StepAt(x, t, i, n);
    b := n - 1;
    if x.chng[n - 1] > i && !IsBetterPost(Candidate(t[n], i), t[n - 1].aBest[i], x.nCol) {
      b := StepwiseRow(x, t, n - 1, i);
    }
  }

  lemma {:induction false} StepwiseUnbeaten(x: Index, t: seq<Accum>, n: nat, i: nat, r: nat)
    requires Stepwise(x, t, n, i) && 0 < n && x.chng[0] == 0 && InRun(x, n, i, r)
    ensures !IsBetterPost(Candidate(t[r + 1], i), t[n].aBest[i], x.nCol)
    decreases n
  {
    assert StepAt(x, t, i, n);
    if r < n - 1 {
      StepwiseUnbeaten(x, t, n - 1, i, r);
    }
    KeepingUnbeaten(Candidate(t[r + 1], i), Candidate(t[n], i), t[n - 1].aBest[i], t[n].aBest[i],
                    i >= x.chng[n - 1], x.nCol);
  }

  /** Keeping the preferred one of two leaves nothing that was not preferred to the old one, and not the new one. */
  lemma KeepingUnbeaten(row: Sample, cand: Sample, was: Sample, best: Sample, always: bool, nCol: nat)
    requires Shaped(row, nCol) && Shaped(cand, nCol) && Shaped(was, nCol) && row.iCol == cand.iCol
    requires best == if always || IsBetterPost(cand, was, nCol) then cand else was
    requires row == cand || (!always && !IsBetterPost(row, was, nCol))
    ensures !IsBetterPost(row, best, nCol)
  {
    var i := row.iCol + 1;
    if row == cand {
      if BetterFrom(cand, cand, i) {
        BetterFromAsymmetric(cand, cand, i);
      }
    } else if BetterFrom(cand, was, i) {
      BetterFromAsymmetric(cand, was, i);
      NotBetterFromTransitive(row, was, cand, i);
    }
  }

  /** In every column the candidate is one of the rows of the current run, just as it was when it was read. */
  lemma BestIsRow(x: Index, seed: nat, t: seq<Accum>, n: nat, i: nat) returns (b: nat)
    requires Run(x, seed, t) && 0 < n < |t| && i + 1 < x.nCol
    ensures InRun(x, n, i, b) && WellFormed(t[n]) && WellFormed(t[b + 1]) && t[n].nCol == t[b + 1].nCol == x.nCol
    ensures t[n].aBest[i] == Candidate(t[b + 1], i)
  {
    RunStepwise(x, seed, t, n, i);
    b := StepwiseRow(x, t, n, i);
  }

  /** And no row of the run is preferred to it. */
  lemma BestIsUnbeaten(x: Index, seed: nat, t: seq<Accum>, n: nat, i: nat, r: nat)
    requires Run(x, seed, t) && 0 < n < |t| && i + 1 < x.nCol && InRun(x, n, i, r)
    ensures WellFormed(t[n]) && WellFormed(t[r + 1]) && t[n].nCol == t[r + 1].nCol == x.nCol
    ensures !IsBetterPost(Candidate(t[r + 1], i), t[n].aBest[i], x.nCol)
  {
    RunStepwise(x, seed, t, n, i);
    StepwiseUnbeaten(x, t, n, i, r);
  }
}
