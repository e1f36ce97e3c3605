/** The built-in self-test of bit vectors: it finds the faults that its program plants and nothing else. */
module BitvecSelfTest {
  import opened BitvecHash
  import opened BitvecProgram
  import opened Bitvec

  /** TESTBIT numbers the bits from 0. */
  predicate TestBit(v: seq<bv8>, i: nat)
    requires i < 8 * |v|
  {
    Bit(v[i / 8], i % 8)
  }

  /** SETBIT */
  method SetRef(pV: array<bv8>, i: nat)
    requires i < 8 * pV.Length
    modifies pV
    ensures forall j :: 0 <= j < 8 * pV.Length ==> (TestBit(pV[..], j) <==> j == i || old(TestBit(pV[..], j)))
  {
    ghost var was := pV[..];
    pV[i / 8] := pV[i / 8] | Mask(i % 8);
    ghost var now := pV[..];
    forall j | 0 <= j < 8 * |now| ensures TestBit(now, j) <==> j == i || TestBit(was, j) {
      SetBit(was[i / 8], i % 8, j % 8);
    }
  }

  /** CLEARBIT */
  method ClearRef(pV: array<bv8>, i: nat)
    requires i < 8 * pV.Length
    modifies pV
    ensures forall j :: 0 <= j < 8 * pV.Length ==> (TestBit(pV[..], j) <==> j != i && old(TestBit(pV[..], j)))
  {
    ghost var was := pV[..];
    pV[i / 8] := pV[i / 8] & !Mask(i % 8);
    ghost var now := pV[..];
    forall j | 0 <= j < 8 * |now| ensures TestBit(now, j) <==> j != i && TestBit(was, j) {
      ClearBit(was[i / 8], i % 8, j % 8);
    }
  }

  /** The linear array and the bit vector hold what these operations leave in them. */
  ghost predicate Follows(pV: array<bv8>, p: Bitvec, sz: nat, work: seq<Op>)
    reads pV, p
  {
    && sz < 8 * pV.Length && p.S == SetBy(work, false)
    && forall i :: 1 <= i <= sz ==> (TestBit(pV[..], i) <==> i in SetBy(work, true))
  }

  /** Operands of one instruction: the number it works on, and where the program and the random numbers go on. */
  method Fetch(aOp: array<int>, pc: nat, sz: nat, rnd: nat -> int, k: nat) returns (i: nat, pc': nat, k': nat)
    requires WellFormed(aOp[..], pc) && aOp[pc] != 0 && sz > 0
    modifies aOp
    ensures 1 <= i <= sz && aOp[pc] == old(aOp[pc]) && WellFormed(aOp[..], pc')
    ensures old(Work(aOp[..], pc, sz, rnd, k)) == [Op(aOp[pc], i)] + Work(aOp[..], pc', sz, rnd, k')
    ensures pc' == pc + Length(aOp[pc]) || (pc' == pc && 0 < aOp[pc + 1] < old(aOp[pc + 1]))
  {
    var op := aOp[pc];
    ghost var was := aOp[..];
    var nx, x;
    k' := k;
    if op == 1 || op == 2 || op == 5 {
      nx := 4;
      x := aOp[pc + 2] - 1;
      aOp[pc + 2] := aOp[pc + 2] + aOp[pc + 3];
    } else {
      nx := 2;
      x, k' := rnd(k), k + 1;
    }
    aOp[pc + 1] := aOp[pc + 1] - 1;
    if aOp[pc + 1] > 0 { nx := 0; }
    pc' := pc + nx;
    i := (x % 0x8000_0000) % sz + 1;
    if Strides(op) {
      assert aOp[..] == was[pc + 1 := was[pc + 1] - 1][pc + 2 := was[pc + 2] + was[pc + 3]];
      StrideStep(was, aOp[..], pc, pc', sz, rnd, k);
    } else {
      assert aOp[..] == was[pc + 1 := was[pc + 1] - 1];
      DrawStep(was, aOp[..], pc, pc', sz, rnd, k);
    }
  }

  lemma LastOp(work: seq<Op>, w: Op, faults: bool)
    ensures SetBy(work + [w], faults) ==
      if w.op == 5 && !faults then SetBy(work, faults)
      else if w.op % 2 != 0 then SetBy(work, faults) + {w.i}
      else SetBy(work, faults) - {w.i}
  {
    assert (work + [w])[..|work|] == work;
  }

  /** Set or clear number i, in the array and, short of opcode 5, in the vector. */
  method Apply(op: int, i: nat, pV: array<bv8>, p: Bitvec, sz: nat, fails: nat -> bool, n: nat, ghost work: seq<Op>)
    returns (ok: bool, n': nat)
    requires p.Valid() && p.iSize == sz && pV !in p.Repr && 1 <= i <= sz && Follows(pV, p, sz, work)
    modifies pV, p.Repr
    ensures p.Valid() && fresh(p.Repr - old(p.Repr)) && pV !in p.Repr
    ensures ok ==> Follows(pV, p, sz, work + [Op(op, i)])
    ensures n' >= n && (ok <==> Granted(fails, n, n'))
  {
    LastOp(work, Op(op, i), true);
    LastOp(work, Op(op, i), false);
    ok, n' := true, n;
    if op % 2 != 0 {
      SetRef(pV, i);
      if op != 5 {
        var rc;
        rc, n' := p.Set(i, fails, n);
        ok := rc == OK;
      }
    } else {
      ClearRef(pV, i);
      p.Clear(i);
    }
  }

  /** The final comparison: the first number at which the two differ, or 0. */
  method Compare(pV: array<bv8>, p: Bitvec, sz: nat) returns (rc: int)
    requires p.Valid() && p.iSize == sz && sz + 1 < U32 && sz < 8 * pV.Length
    requires forall i :: i in p.S ==> 1 <= i <= sz
    ensures rc == 0 ==> forall i :: 1 <= i <= sz ==> (TestBit(pV[..], i) <==> i in p.S)
    ensures rc != 0 ==> 1 <= rc <= sz && (TestBit(pV[..], rc) <==> rc !in p.S)
    ensures rc != 0 ==> forall i :: 1 <= i < rc ==> (TestBit(pV[..], i) <==> i in p.S)
  {
    var none := BitvecTest(null, 0);
    var above := p.TestNotNull(sz + 1);
    var zero := p.TestNotNull(0);
    rc := (if none then 1 else 0) + (if above then 1 else 0) + (if zero then 1 else 0) + (p.iSize - sz);
    for i := 1 to sz + 1
      invariant rc == 0 && forall j :: 1 <= j < i ==> (TestBit(pV[..], j) <==> j in p.S)
    {
      var b := p.TestNotNull(i);
      if Bit(pV[i / 8], i % 8) != b {
        assert TestBit(pV[..], i) != b;
        return i;
      }
      assert TestBit(pV[..], i) == b;
    }
  }

  /** What is left to do: all of `goal` but the operations done so far. */
  ghost predicate Left(goal: seq<Op>, done: seq<Op>, ops: seq<int>, pc: nat, sz: nat, rnd: nat -> int, k: nat) {
    sz > 0 && WellFormed(ops, pc) && goal == done + Work(ops, pc, sz, rnd, k)
  }

  /** One turn of the loop over the program. */
  method Turn(sz: nat, aOp: array<int>, pc: nat, rnd: nat -> int, k: nat, pV: array<bv8>, pBitvec: Bitvec,
          fails: nat -> bool, n: nat, ghost goal: seq<Op>, ghost done: seq<Op>)
    returns (ok: bool, pc': nat, k': nat, n': nat, ghost done': seq<Op>)
    requires Left(goal, done, aOp[..], pc, sz, rnd, k) && aOp[pc] != 0
    requires pBitvec.Valid() && pBitvec.iSize == sz && pV !in pBitvec.Repr && Follows(pV, pBitvec, sz, done)
    requires aOp !in pBitvec.Repr && aOp != pV as object
    modifies aOp, pV, pBitvec.Repr
    ensures Left(goal, done', aOp[..], pc', sz, rnd, k')
    ensures pBitvec.Valid() && fresh(pBitvec.Repr - old(pBitvec.Repr)) && pV !in pBitvec.Repr
    ensures ok ==> Follows(pV, pBitvec, sz, done')
    ensures n' >= n && (ok <==> Granted(fails, n, n'))
    ensures pc' > pc || (pc' == pc && aOp[pc] != 0 && 0 < aOp[pc + 1] < old(aOp[pc + 1]))
  {
    var op := aOp[pc];
    var i;
    i, pc', k' := Fetch(aOp, pc, sz, rnd, k);
    ok, n' := Apply(op, i, pV, pBitvec, sz, fails, n, done);
    Associate(done, [Op(op, i)], Work(aOp[..], pc', sz, rnd, k'));
    done' := done + [Op(op, i)];
  }

  /** The program of the self-test, up to its halt or a refused request for memory. */
  method RunProgram(sz: nat, aOp: array<int>, rnd: nat -> int, pV: array<bv8>, pBitvec: Bitvec, fails: nat -> bool,
          first: nat)
    returns (ok: bool, n: nat)
    requires sz > 0 && WellFormed(aOp[..], 0)
    requires pBitvec.Valid() && pBitvec.iSize == sz && pV !in pBitvec.Repr && Follows(pV, pBitvec, sz, [])
    requires aOp !in pBitvec.Repr && aOp != pV as object
    modifies aOp, pV, pBitvec.Repr
    ensures n >= first && (ok <==> Granted(fails, first, n))
    ensures ok ==> pBitvec.Valid() && Follows(pV, pBitvec, sz, old(Work(aOp[..], 0, sz, rnd, 0)))
  {
    ghost var goal, done: seq<Op> := Work(aOp[..], 0, sz, rnd, 0), [];
    ok, n := true, first;
    var pc: nat, k: nat := 0, 0;
    while ok && aOp[pc] != 0
      invariant Left(goal, done, aOp[..], pc, sz, rnd, k)
      invariant pBitvec.Valid() && (ok ==> Follows(pV, pBitvec, sz, done))
      invariant fresh(pBitvec.Repr - old(pBitvec.Repr)) && pV !in pBitvec.Repr && aOp !in pBitvec.Repr
      invariant n >= first && (ok <==> Granted(fails, first, n))
      decreases ok, aOp.Length - pc, if aOp[pc] != 0 then aOp[pc + 1] else 0
    {
      ok, pc, k, n, done := Turn(sz, aOp, pc, rnd, k, pV, pBitvec, fails, n, goal, done);
    }
    assert ok ==> goal == done;
  }

  /** The vector, the array and the space for the program. */
  method AllocateAll(fails: nat -> bool) returns (ok: bool, n: nat)
    ensures n == 3 && (ok <==> Granted(fails, 0, n))
  {
    var gotBitvec, gotArray, gotSpace;
    gotBitvec, n := Malloc(fails, 0);
    gotArray, n := Malloc(fails, n);
    gotSpace, n := Malloc(fails, n);
    ok := gotBitvec && gotArray && gotSpace;
    assert !ok ==> fails(0) || fails(1) || fails(2);
  }

  /** rc names the first number, from 1 to sz, in just one of the two sets; 0 says that there is none. */
  ghost predicate FirstDifference(rc: int, sz: nat, a: set<nat>, b: set<nat>) {
    if rc == 0 then forall i :: 1 <= i <= sz ==> (i in a <==> i in b)
    else 1 <= rc <= sz && (rc in a <==> rc !in b) && forall i :: 1 <= i < rc ==> (i in a <==> i in b)
  }

  /** What the self-test does once it has its space. */
  method Exercise(sz: nat, aOp: array<int>, rnd: nat -> int, fails: nat -> bool, first: nat) returns (rc: int, n: nat)
    requires 0 < sz < 0x8000_0000 && WellFormed(aOp[..], 0)
    modifies aOp
    ensures n >= first && (rc == -1 <==> !Granted(fails, first, n))
    ensures Granted(fails, first, n) ==>
      var work := old(Work(aOp[..], 0, sz, rnd, 0));
      FirstDifference(rc, sz, SetBy(work, true), SetBy(work, false))
  {
    var pBitvec := new Bitvec(sz);
    var pV := new bv8[(sz + 7) / 8 + 1](_ => 0);
    var ok;
    ok, n := RunProgram(sz, aOp, rnd, pV, pBitvec, fails, first);
    rc := -1;
    if ok {
      rc := Compare(pV, pBitvec, sz);
    }
  }

  lemma NothingToFind(ops: seq<int>, sz: nat, rnd: nat -> int, rc: int)
    requires WellFormed(ops, 0) && sz > 0 && Faultless(ops, 0)
    requires FirstDifference(rc, sz, SetBy(Work(ops, 0, sz, rnd, 0), true), SetBy(Work(ops, 0, sz, rnd, 0), false))
    ensures rc == 0
  {
    FaultlessWork(ops, 0, sz, rnd, 0);
    NoFaults(Work(ops, 0, sz, rnd, 0));
  }

  /**
   sqlite3BitvecBuiltinTest. Whatever the program and whatever the random numbers, it halts. If a request for memory is
   refused it returns -1, and otherwise the first number at which the operations leave the linear array and the bit
   vector different, 0 if there is none: always so without opcode 5. `n` counts the requests.
   */
  method BuiltinTest(sz: nat, aOp: array<int>, rnd: nat -> int, fails: nat -> bool) returns (rc: int, n: nat)
    requires 0 < sz < 0x8000_0000 && WellFormed(aOp[..], 0)
    modifies aOp
    ensures n >= 3 && (rc == -1 <==> !Granted(fails, 0, n))
    ensures Granted(fails, 0, n) ==>
      var work := old(Work(aOp[..], 0, sz, rnd, 0));
      FirstDifference(rc, sz, SetBy(work, true), SetBy(work, false))
    ensures old(Faultless(aOp[..], 0)) && Granted(fails, 0, n) ==> rc == 0
  {
    ghost var ops := aOp[..];
    rc := -1;
    var got;
    got, n := AllocateAll(fails);
    if !got {
      return;
    }
    var ignored;
    ignored, n := BitvecSet(null, 1, fails, n);
    BitvecClear(null, 1);
    rc, n := Exercise(sz, aOp, rnd, fails, n);
    if rc != -1 && Faultless(ops, 0) {
      NothingToFind(ops, sz, rnd, rc);
    }
  }
}
