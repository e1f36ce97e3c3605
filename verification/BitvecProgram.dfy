/** The programs of the bit vector self-test: what they ask for, and which faults they plant. */
module BitvecProgram {

  /** Opcodes whose numbers the program gives; the others draw theirs at random. */
  predicate Strides(op: int) {
    op == 1 || op == 2 || op == 5
  }

  /** Length of the instruction with this opcode. */
  function Length(op: int): nat {
    if Strides(op) then 4 else 2
  }

  /** From pc on, whole instructions up to a halt. */
  ghost predicate WellFormed(ops: seq<int>, pc: nat)
    decreases |ops| - pc
  {
    && pc < |ops|
    && (ops[pc] != 0 ==> pc + Length(ops[pc]) <= |ops| && WellFormed(ops, pc + Length(ops[pc])))
  }

  /** One operation: number i is set if op is odd, else cleared; opcode 5 sets it in the linear array only. */
  datatype Op = Op(op: int, i: nat)

  /** (x & 0x7fffffff)%sz, counted from 1. */
  function Index(x: int, sz: nat): (i: nat)
    requires sz > 0
    ensures 1 <= i <= sz
  {
    (x % 0x8000_0000) % sz + 1
  }

  /** n operations, at least one, on x and the numbers behind it in steps of d. */
  function Strided(op: int, n: int, x: int, d: int, sz: nat): seq<Op>
    requires sz > 0
    decreases if n > 1 then n else 1
  {
    [Op(op, Index(x, sz))] + (if n > 1 then Strided(op, n - 1, x + d, d, sz) else [])
  }

  /** n operations, at least one, on the random numbers from the k-th on. */
  function Drawn(op: int, n: int, rnd: nat -> int, k: nat, sz: nat): seq<Op>
    requires sz > 0
    decreases if n > 1 then n else 1
  {
    [Op(op, Index(rnd(k), sz))] + (if n > 1 then Drawn(op, n - 1, rnd, k + 1, sz) else [])
  }

  /** All operations of a program, in order. */
  ghost function Work(ops: seq<int>, pc: nat, sz: nat, rnd: nat -> int, k: nat): seq<Op>
    requires WellFormed(ops, pc) && sz > 0
    decreases |ops| - pc
  {
    if ops[pc] == 0 then []
    else if Strides(ops[pc]) then
      Strided(ops[pc], ops[pc + 1], ops[pc + 2] - 1, ops[pc + 3], sz) + Work(ops, pc + 4, sz, rnd, k)
    else
      Drawn(ops[pc], ops[pc + 1], rnd, k, sz)
      + Work(ops, pc + 2, sz, rnd, k + if ops[pc + 1] > 1 then ops[pc + 1] else 1)
  }

  lemma {:induction false} WorkReads(a: seq<int>, b: seq<int>, pc: nat, sz: nat, rnd: nat -> int, k: nat)
    requires |a| == |b| && WellFormed(a, pc) && sz > 0 && forall j :: pc <= j < |a| ==> a[j] == b[j]
    ensures WellFormed(b, pc) && Work(a, pc, sz, rnd, k) == Work(b, pc, sz, rnd, k)
    decreases |a| - pc
  {
    if a[pc] != 0 {
      var next := if Strides(a[pc]) then k else k + if a[pc + 1] > 1 then a[pc + 1] else 1;
      WorkReads(a, b, pc + Length(a[pc]), sz, rnd, next);
    }
  }

  /** Counting down a strided instruction, and moving its start on, leaves the operations behind its first one. */
  lemma StrideStep(a: seq<int>, b: seq<int>, pc: nat, next: nat, sz: nat, rnd: nat -> int, k: nat)
    requires WellFormed(a, pc) && sz > 0 && a[pc] != 0 && Strides(a[pc])
    requires b == a[pc + 1 := a[pc + 1] - 1][pc + 2 := a[pc + 2] + a[pc + 3]]
    requires next == if a[pc + 1] - 1 > 0 then pc else pc + 4
    ensures WellFormed(b, next)
    ensures Work(a, pc, sz, rnd, k) == [Op(a[pc], Index(a[pc + 2] - 1, sz))] + Work(b, next, sz, rnd, k)
  {
    WorkReads(a, b, pc + 4, sz, rnd, k);
    if next == pc {
      StrideStays(a, b, pc, sz, rnd, k);
    }
  }

  lemma StrideStays(a: seq<int>, b: seq<int>, pc: nat, sz: nat, rnd: nat -> int, k: nat)
    requires WellFormed(a, pc) && sz > 0 && a[pc] != 0 && Strides(a[pc]) && a[pc + 1] > 1 && WellFormed(b, pc)
    requires |a| == |b| && b[pc] == a[pc] && b[pc + 1] == a[pc + 1] - 1
    requires b[pc + 2] == a[pc + 2] + a[pc + 3] && b[pc + 3] == a[pc + 3]
    requires Work(a, pc + 4, sz, rnd, k) == Work(b, pc + 4, sz, rnd, k)
    ensures Work(a, pc, sz, rnd, k) == [Op(a[pc], Index(a[pc + 2] - 1, sz))] + Work(b, pc, sz, rnd, k)
  {
    var op, n, x, d := a[pc], a[pc + 1], a[pc + 2] - 1, a[pc + 3];
    Associate([Op(op, Index(x, sz))], Strided(op, n - 1, x + d, d, sz), Work(b, pc + 4, sz, rnd, k));
  }

  lemma DrawStep(a: seq<int>, b: seq<int>, pc: nat, next: nat, sz: nat, rnd: nat -> int, k: nat)
    requires WellFormed(a, pc) && sz > 0 && a[pc] != 0 && !Strides(a[pc])
    requires b == a[pc + 1 := a[pc + 1] - 1]
    requires next == if a[pc + 1] - 1 > 0 then pc else pc + 2
    ensures WellFormed(b, next)
    ensures Work(a, pc, sz, rnd, k) == [Op(a[pc], Index(rnd(k), sz))] + Work(b, next, sz, rnd, k + 1)
  {
    var behind := k + if a[pc + 1] > 1 then a[pc + 1] else 1;
    WorkReads(a, b, pc + 2, sz, rnd, behind);
    if next == pc {
      var first, more := [Op(a[pc], Index(rnd(k), sz))], Drawn(a[pc], b[pc + 1], rnd, k + 1, sz);
      assert Drawn(a[pc], a[pc + 1], rnd, k, sz) == first + more;
      Associate(first, more, Work(b, pc + 2, sz, rnd, behind));
    }
  }

  lemma Associate<T>(a: seq<T>, b: seq<T>, c: seq<T>)
    ensures (a + b) + c == a + (b + c)
  {
  }

  /** What is set after these operations: in the linear array if the faults count, in the bit vector if not. */
  ghost function SetBy(work: seq<Op>, faults: bool): set<nat> {
    if work == [] then {}
    else
      var was, w := SetBy(work[..|work| - 1], faults), work[|work| - 1];
      if w.op == 5 && !faults then was
      else if w.op % 2 != 0 then was + {w.i}
      else was - {w.i}
  }

  /** Operation j plants a fault that is still there at the end. */
  ghost predicate Planted(work: seq<Op>, j: nat, i: nat) {
    && j < |work| && work[j] == Op(5, i) && i !in SetBy(work[..j], false)
    && forall k :: j < k < |work| && work[k].i == i ==> work[k].op == 5
  }

  ghost predicate HasFault(work: seq<Op>, i: nat) {
    exists j: nat :: Planted(work, j, i)
  }

  /**
   Where the linear array and the bit vector differ at the end: exactly at the numbers that opcode 5 sets when the
   vector does not have them, and that no other opcode works on later.
   */
  lemma {:induction false} FaultsShow(work: seq<Op>, i: nat)
    ensures i in SetBy(work, false) ==> i in SetBy(work, true)
    ensures i in SetBy(work, true) && i !in SetBy(work, false) <==> HasFault(work, i)
    decreases |work|
  {
    if work != [] {
      FaultsShow(work[..|work| - 1], i);
      if work[|work| - 1].i != i {
        OtherNumber(work, i);
      } else if work[|work| - 1].op == 5 {
        FaultLast(work, i);
      }
    }
  }

  /** A planted fault was planted before the last operation, unless it is that operation. */
  lemma PlantedBefore(work: seq<Op>, j: nat, i: nat)
    requires j < |work| - 1
    ensures Planted(work, j, i) <==>
      Planted(work[..|work| - 1], j, i) && (work[|work| - 1].i == i ==> work[|work| - 1].op == 5)
  {
    var was := work[..|work| - 1];
    assert was[..j] == work[..j];
    if Planted(work, j, i) {
      forall k | j < k < |was| && was[k].i == i ensures was[k].op == 5 { assert work[k].i == i; }
    }
  }

  lemma OtherNumber(work: seq<Op>, i: nat)
    requires work != [] && work[|work| - 1].i != i
    ensures HasFault(work, i) <==> HasFault(work[..|work| - 1], i)
  {
    if j: nat :| Planted(work, j, i) { PlantedBefore(work, j, i); }
    var was := work[..|work| - 1];
    if j: nat :| Planted(was, j, i) { PlantedBefore(work, j, i); }
  }

  lemma FaultLast(work: seq<Op>, i: nat)
    requires work != [] && work[|work| - 1] == Op(5, i)
    requires i in SetBy(work[..|work| - 1], false) ==> !HasFault(work[..|work| - 1], i)
    ensures HasFault(work, i) <==> i !in SetBy(work, false)
  {
    if i !in SetBy(work, false) {
      assert Planted(work, |work| - 1, i);
    } else if j: nat :| Planted(work, j, i) {
      if j < |work| - 1 { PlantedBefore(work, j, i); }
    }
  }

  /** Without opcode 5 there is nothing to find. */
  lemma {:induction false} NoFaults(work: seq<Op>)
    requires forall j :: 0 <= j < |work| ==> work[j].op != 5
    ensures SetBy(work, true) == SetBy(work, false)
    decreases |work|
  {
    if work != [] { NoFaults(work[..|work| - 1]); }
  }

  /** The program has no instruction with opcode 5. */
  ghost predicate Faultless(ops: seq<int>, pc: nat)
    requires WellFormed(ops, pc)
    decreases |ops| - pc
  {
    ops[pc] != 0 ==> ops[pc] != 5 && Faultless(ops, pc + Length(ops[pc]))
  }

  lemma {:induction false} InstructionOps(op: int, n: int, x: int, d: int, rnd: nat -> int, k: nat, sz: nat)
    requires sz > 0
    ensures forall j :: 0 <= j < |Strided(op, n, x, d, sz)| ==> Strided(op, n, x, d, sz)[j].op == op
    ensures forall j :: 0 <= j < |Drawn(op, n, rnd, k, sz)| ==> Drawn(op, n, rnd, k, sz)[j].op == op
    decreases if n > 1 then n else 1
  {
    if n > 1 { InstructionOps(op, n - 1, x + d, d, rnd, k + 1, sz); }
  }

  lemma {:induction false} FaultlessWork(ops: seq<int>, pc: nat, sz: nat, rnd: nat -> int, k: nat)
    requires WellFormed(ops, pc) && sz > 0 && Faultless(ops, pc)
    ensures forall j :: 0 <= j < |Work(ops, pc, sz, rnd, k)| ==> Work(ops, pc, sz, rnd, k)[j].op != 5
    decreases |ops| - pc
  {
    if ops[pc] != 0 {
      var next := if Strides(ops[pc]) then k else k + if ops[pc + 1] > 1 then ops[pc + 1] else 1;
      var x, d := if Strides(ops[pc]) then ops[pc + 2] - 1 else 0, if Strides(ops[pc]) then ops[pc + 3] else 0;
      InstructionOps(ops[pc], ops[pc + 1], x, d, rnd, k, sz);
      FaultlessWork(ops, pc + Length(ops[pc]), sz, rnd, next);
    }
  }
}
