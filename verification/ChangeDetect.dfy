/** The byte code that finds the first changed index column of every row, and the part of the machine that runs it. */
module ChangeDetect {

  datatype Value = Null | Number(n: int) | Text(s: string)

  datatype Opcode = OpRewind | OpInteger | OpGoto | OpNotNull | OpColumn | OpNe | OpIdxRowid | OpStatPush | OpNext

  /** An instruction; a negative jump target is a label. `coll` is the collating sequence of an OpNe. */
  datatype Op = Op(code: Opcode, p1: int, p2: int, p3: int, coll: nat)

  datatype Program = Program(ops: seq<Op>, labels: seq<int>)

  /**
   An index scan; values with the same key are equal under the collating sequence of column i, NULL like any other.
   */
  datatype Scan = Scan(rows: seq<seq<Value>>, rowid: nat -> int, key: (nat, Value) -> int)

  /**
   The registers of the program: the Stat4Accum, then the argument registers, a scratch register, the previous row.
   */
  datatype Regs = Regs(cursor: int, stat4: int, temp: int, prev: int) {
    const chng := stat4 + 1
    const rowid := stat4 + 2

    predicate Distinct() {
      stat4 + 2 < temp < prev
    }
  }

  /** The arguments of a stat_push call. */
  datatype Push = Push(chng: Value, rowid: Value)

  datatype Vm = Vm(pc: int, regs: map<int, Value>, row: nat, pushed: seq<Push>)

  function Get(regs: map<int, Value>, r: int): Value {
    if r in regs then regs[r] else Null
  }

  function Cell(scan: Scan, row: nat, i: int): Value {
    if row < |scan.rows| && 0 <= i < |scan.rows[row]| then scan.rows[row][i] else Null
  }

  function Target(p: Program, p2: int): int {
    if p2 >= 0 then p2 else if -1 - p2 < |p.labels| then p.labels[-1 - p2] else 0
  }

  /** One instruction. */
  function Exec(p: Program, scan: Scan, m: Vm): Vm
    requires 0 <= m.pc < |p.ops|
  {
    var op := p.ops[m.pc];
    match op.code
    case OpRewind => if scan.rows == [] then m.(pc := Target(p, op.p2)) else m.(row := 0, pc := m.pc + 1)
    case OpInteger => m.(regs := m.regs[op.p2 := Number(op.p1)], pc := m.pc + 1)
    case OpGoto => m.(pc := Target(p, op.p2))
    case OpNotNull => if Get(m.regs, op.p1) != Null then m.(pc := Target(p, op.p2)) else m.(pc := m.pc + 1)
    case OpColumn => m.(regs := m.regs[op.p3 := Cell(scan, m.row, op.p2)], pc := m.pc + 1)
    case OpNe =>
      if scan.key(op.coll, Get(m.regs, op.p3)) != scan.key(op.coll, Get(m.regs, op.p1)) then m.(pc := Target(p, op.p2))
      else m.(pc := m.pc + 1)
    case OpIdxRowid => m.(regs := m.regs[op.p2 := Number(scan.rowid(m.row))], pc := m.pc + 1)
    case OpStatPush =>
      m.(pushed := m.pushed + [Push(Get(m.regs, op.p2 + 1), Get(m.regs, op.p2 + 2))],
         regs := m.regs[op.p3 := Null], pc := m.pc + 1)
    case OpNext => if m.row + 1 < |scan.rows| then m.(row := m.row + 1, pc := Target(p, op.p2)) else m.(pc := m.pc + 1)
  }

  /** n instructions lead from a to b. */
  ghost predicate Steps(p: Program, scan: Scan, a: Vm, b: Vm, n: nat)
    decreases n
  {
    if n == 0 then a == b
    else 0 <= a.pc < |p.ops| && Steps(p, scan, Exec(p, scan, a), b, n - 1)
  }

  ghost predicate Reaches(p: Program, scan: Scan, a: Vm, b: Vm) {
    exists n: nat :: Steps(p, scan, a, b, n)
  }

  lemma {:induction false} StepsJoin(p: Program, scan: Scan, a: Vm, b: Vm, c: Vm, n: nat, k: nat)
    requires Steps(p, scan, a, b, n) && Steps(p, scan, b, c, k)
    ensures Steps(p, scan, a, c, n + k)
    decreases n
  {
    if n > 0 {
      StepsJoin(p, scan, Exec(p, scan, a), b, c, n - 1, k);
    }
  }

  lemma Join(p: Program, scan: Scan, a: Vm, b: Vm, c: Vm)
    requires Reaches(p, scan, a, b) && Reaches(p, scan, b, c)
    ensures Reaches(p, scan, a, c)
  {
    var n: nat, k: nat :| Steps(p, scan, a, b, n) && Steps(p, scan, b, c, k);
    StepsJoin(p, scan, a, b, c, n, k);
  }

  lemma Then(p: Program, scan: Scan, a: Vm, c: Vm)
    requires 0 <= a.pc < |p.ops| && Reaches(p, scan, Exec(p, scan, a), c)
    ensures Reaches(p, scan, a, c)
  {
    var k: nat :| Steps(p, scan, Exec(p, scan, a), c, k);
    assert Steps(p, scan, a, c, k + 1);
  }

  lemma Here(p: Program, scan: Scan, a: Vm)
    ensures Reaches(p, scan, a, a)
  {
    assert Steps(p, scan, a, a, 0);
  }

  /**
   Where the program starts, how many columns it tests, and whether it has the shortcut for a unique index with a single
   column.
   */
  datatype Layout = Layout(base: nat, n: nat, unique: bool) {
    predicate Valid() {
      unique ==> n == 1
    }

    const tests := base + 3 + if unique then 1 else 0
    const nextRow := if n > 0 then base + 3 else base + 2
    const done := if n > 0 then tests + 2 + 4 * n else base + 2

    /** chng_addr_i */
    function Changed(i: nat): int {
      tests + 2 + 3 * n + i
    }
  }

  /** The tests for column i: `regChng = i; if( idx(i) != regPrev(i) ) goto chng_addr_i`. */
  predicate TestAt(p: Program, l: Layout, r: Regs, i: nat) {
    var a := l.tests + 3 * i;
    && a + 2 < |p.ops|
    && p.ops[a] == Op(OpInteger, i, r.chng, 0, 0)
    && p.ops[a + 1] == Op(OpColumn, r.cursor, i, r.temp, 0)
    && p.ops[a + 2] == Op(OpNe, r.temp, l.Changed(i), r.prev + i, i)
  }

  /** chng_addr_i: `regPrev(i) = idx(i)` */
  predicate CopyAt(p: Program, l: Layout, r: Regs, i: nat) {
    l.Changed(i) < |p.ops| && p.ops[l.Changed(i)] == Op(OpColumn, r.cursor, i, r.prev + i, 0)
  }

  /** The instruction at address a jumps to the end of the tests. */
  predicate EndsTests(p: Program, l: Layout, a: nat) {
    a < |p.ops| && Target(p, p.ops[a].p2) == l.done
  }

  /** What the generator has to leave in the program. */
  ghost predicate Emitted(p: Program, l: Layout, r: Regs) {
    && l.Valid() && |p.ops| >= l.done + 3
    && p.ops[l.base].code == OpRewind
    && p.ops[l.base + 1] == Op(OpInteger, 0, r.chng, 0, 0)
    && p.ops[l.done] == Op(OpIdxRowid, r.cursor, r.rowid, 0, 0)
    && p.ops[l.done + 1] == Op(OpStatPush, 1, r.stat4, r.temp, 0)
    && p.ops[l.done + 2] == Op(OpNext, r.cursor, l.nextRow, 0, 0)
    && (l.n > 0 ==>
         && p.ops[l.base + 2] == Op(OpGoto, 0, l.Changed(0), 0, 0)
         && p.ops[l.tests + 3 * l.n] == Op(OpInteger, l.n, r.chng, 0, 0)
         && p.ops[l.tests + 3 * l.n + 1].code == OpGoto && EndsTests(p, l, l.tests + 3 * l.n + 1))
    && (l.unique ==>
         && p.ops[l.base + 3].code == OpNotNull && p.ops[l.base + 3].p1 == r.prev && EndsTests(p, l, l.base + 3))
    && (forall i :: 0 <= i < l.n ==> TestAt(p, l, r, i))
    && (forall i :: 0 <= i < l.n ==> CopyAt(p, l, r, i))
  }

  predicate SameKey(scan: Scan, a: nat, b: nat, i: nat) {
    scan.key(i, Cell(scan, a, i)) == scan.key(i, Cell(scan, b, i))
  }

  /** The first of the columns i..n where two rows differ, n if there is none. */
  function FirstChange(scan: Scan, a: nat, b: nat, i: nat, n: nat): (c: nat)
    requires i <= n
    ensures i <= c <= n
    ensures forall j :: i <= j < c ==> SameKey(scan, a, b, j)
    ensures c < n ==> !SameKey(scan, a, b, c)
    decreases n - i
  {
    if i == n || !SameKey(scan, a, b, i) then i else FirstChange(scan, a, b, i + 1, n)
  }

  /** regPrev(j) */
  function Prev(r: Regs, regs: map<int, Value>, j: int): Value {
    Get(regs, r.prev + j)
  }

  /** regPrev holds values equal to those of row k. */
  ghost predicate PrevIs(scan: Scan, r: Regs, n: nat, regs: map<int, Value>, k: nat) {
    forall j :: 0 <= j < n ==> PrevAt(scan, r, regs, k, j)
  }

  predicate PrevAt(scan: Scan, r: Regs, regs: map<int, Value>, k: nat, j: nat) {
    scan.key(j, Prev(r, regs, j)) == scan.key(j, Cell(scan, k, j))
  }

  /** From chng_addr_i: regPrev is rewritten from column i on, and nothing else changes. */
  lemma {:induction false} CopyFrom(p: Program, scan: Scan, l: Layout, r: Regs, m: Vm, i: nat) returns (e: Vm)
    requires Emitted(p, l, r) && r.Distinct() && 0 < l.n && i <= l.n && m.pc == l.Changed(i)
    ensures Reaches(p, scan, m, e) && e == m.(pc := l.done, regs := e.regs)
    ensures Get(e.regs, r.chng) == Get(m.regs, r.chng)
    ensures forall j :: 0 <= j < l.n ==>
      Prev(r, e.regs, j) == if j < i then Prev(r, m.regs, j) else Cell(scan, m.row, j)
    decreases l.n - i
  {
    if i == l.n {
      Here(p, scan, m);
      e := m;
    } else {
      assert CopyAt(p, l, r, i);
      var f := Exec(p, scan, m);
      e := CopyFrom(p, scan, l, r, f, i + 1);
      Then(p, scan, m, e);
      forall j | 0 <= j < l.n
        ensures Prev(r, e.regs, j) == if j < i then Prev(r, m.regs, j) else Cell(scan, m.row, j)
      {
        assert Prev(r, f.regs, j) == if j == i then Cell(scan, m.row, i) else Prev(r, m.regs, j);
      }
    }
  }

  /** The registers after the test of column i: regPrev is as before. */
  ghost predicate Tested(r: Regs, n: nat, regs: map<int, Value>, regs': map<int, Value>, i: nat) {
    && Get(regs', r.chng) == Number(i)
    && forall j :: 0 <= j < n ==> Prev(r, regs', j) == Prev(r, regs, j)
  }

  /** The test of one column: regChng and the scratch register are loaded. */
  lemma LoadColumn(p: Program, scan: Scan, l: Layout, r: Regs, m: Vm, i: nat) returns (e: Vm)
    requires Emitted(p, l, r) && i < l.n && m.pc == l.tests + 3 * i
    ensures e == m.(pc := m.pc + 2, regs := m.regs[r.chng := Number(i)][r.temp := Cell(scan, m.row, i)])
    ensures Reaches(p, scan, m, e)
  {
    assert TestAt(p, l, r, i);
    var f := Exec(p, scan, m);
    e := Exec(p, scan, f);
    Here(p, scan, e);
    Then(p, scan, f, e);
    Then(p, scan, m, e);
  }

  /** And compared. */
  lemma TestColumn(p: Program, scan: Scan, l: Layout, r: Regs, m: Vm, k: nat, i: nat) returns (e: Vm)
    requires Emitted(p, l, r) && r.Distinct() && i < l.n && m.pc == l.tests + 3 * i
    requires PrevAt(scan, r, m.regs, k, i)
    ensures Reaches(p, scan, m, e) && Tested(r, l.n, m.regs, e.regs, i)
    ensures e == m.(pc := if SameKey(scan, k, m.row, i) then m.pc + 3 else l.Changed(i), regs := e.regs)
  {
    var f := LoadColumn(p, scan, l, r, m, i);
    assert Tested(r, l.n, m.regs, f.regs, i);
    assert TestAt(p, l, r, i) && Prev(r, f.regs, i) == Prev(r, m.regs, i);
    e := Exec(p, scan, f);
    Here(p, scan, e);
    Then(p, scan, f, e);
    Join(p, scan, m, f, e);
  }

  /**
   From the test of column i: the first changed column from i on ends up in regChng, and regPrev is brought up to date.
   */
  lemma {:induction false} TestFrom(p: Program, scan: Scan, l: Layout, r: Regs, m: Vm, k: nat, i: nat) returns (e: Vm)
    requires Emitted(p, l, r) && r.Distinct() && 0 < l.n && i <= l.n && m.pc == l.tests + 3 * i
    requires PrevIs(scan, r, l.n, m.regs, k)
    requires forall j :: 0 <= j < i ==> SameKey(scan, k, m.row, j)
    ensures Reaches(p, scan, m, e) && e == m.(pc := l.done, regs := e.regs)
    ensures Get(e.regs, r.chng) == Number(FirstChange(scan, k, m.row, i, l.n))
    ensures PrevIs(scan, r, l.n, e.regs, m.row)
    decreases l.n - i
  {
    if i == l.n {
      e := NoChange(p, scan, l, r, m, k);
    } else {
      assert PrevAt(scan, r, m.regs, k, i);
      var f := TestColumn(p, scan, l, r, m, k, i);
      PrevStays(scan, r, l.n, m.regs, f.regs, k);
      if SameKey(scan, k, m.row, i) {
        e := TestFrom(p, scan, l, r, f, k, i + 1);
      } else {
        e := CopyFrom(p, scan, l, r, f, i);
        PrevAfterCopy(scan, r, l.n, f.regs, e.regs, k, m.row, i);
      }
      Join(p, scan, m, f, e);
    }
  }

  lemma PrevStays(scan: Scan, r: Regs, n: nat, regs: map<int, Value>, regs': map<int, Value>, k: nat)
    requires PrevIs(scan, r, n, regs, k)
    requires forall j :: 0 <= j < n ==> Prev(r, regs', j) == Prev(r, regs, j)
    ensures PrevIs(scan, r, n, regs', k)
  {
    forall j | 0 <= j < n ensures PrevAt(scan, r, regs', k, j) {
      assert PrevAt(scan, r, regs, k, j);
    }
  }

  /** Only a suffix is rewritten; before it the two rows have equal values. */
  lemma PrevAfterCopy(scan: Scan, r: Regs, n: nat, regs: map<int, Value>, regs': map<int, Value>, k: nat, row: nat,
          i: nat)
    requires PrevIs(scan, r, n, regs, k)
    requires forall j :: 0 <= j < i ==> SameKey(scan, k, row, j)
    requires forall j :: 0 <= j < n ==>
      Prev(r, regs', j) == if j < i then Prev(r, regs, j) else Cell(scan, row, j)
    ensures PrevIs(scan, r, n, regs', row)
  {
    forall j | 0 <= j < n ensures PrevAt(scan, r, regs', row, j) {
      assert PrevAt(scan, r, regs, k, j);
      if j < i {
        assert SameKey(scan, k, row, j);
      }
    }
  }

  lemma NoChange(p: Program, scan: Scan, l: Layout, r: Regs, m: Vm, k: nat) returns (e: Vm)
    requires Emitted(p, l, r) && r.Distinct() && 0 < l.n && m.pc == l.tests + 3 * l.n
    requires PrevIs(scan, r, l.n, m.regs, k)
    requires forall j :: 0 <= j < l.n ==> SameKey(scan, k, m.row, j)
    ensures Reaches(p, scan, m, e) && e == m.(pc := l.done, regs := e.regs)
    ensures Get(e.regs, r.chng) == Number(l.n)
    ensures PrevIs(scan, r, l.n, e.regs, m.row)
  {
    var m1 := Exec(p, scan, m);
    e := Exec(p, scan, m1);
    Here(p, scan, e);
    Then(p, scan, m1, e);
    Then(p, scan, m, e);
    PrevAfterCopy(scan, r, l.n, m.regs, e.regs, k, m.row, l.n);
  }

  /** What stat_push is to be told about row k: the first tested column where it differs from the row before. */
  function Expected(scan: Scan, n: nat, k: nat): nat {
    if k == 0 then 0 else FirstChange(scan, k - 1, k, 0, n)
  }

  predicate IsNull(scan: Scan, k: nat) {
    Cell(scan, k, 0) == Null
  }

  /** NULL equals only NULL. */
  ghost predicate NullApart(scan: Scan) {
    forall v :: scan.key(0, v) == scan.key(0, Null) ==> v == Null
  }

  ghost predicate ValueBefore(scan: Scan, k: nat) {
    exists j :: 0 <= j < k && !IsNull(scan, j)
  }

  /** What stat_push is told about row k: with the shortcut, 0 once there has been a value. */
  ghost function Told(scan: Scan, l: Layout, k: nat): nat {
    if l.unique && ValueBefore(scan, k) then 0 else Expected(scan, l.n, k)
  }

  /** regPrev is up to date, unless the shortcut no longer looks at it: then regChng stays 0. */
  ghost predicate Ready(scan: Scan, l: Layout, r: Regs, regs: map<int, Value>, k: nat) {
    if l.unique && Prev(r, regs, 0) != Null then ValueBefore(scan, k + 1) && Get(regs, r.chng) == Number(0)
    else PrevIs(scan, r, l.n, regs, k) && !(l.unique && ValueBefore(scan, k + 1))
  }

  /** Brought up to date by the tests, the registers are ready for the shortcut as well. */
  lemma TestedReady(scan: Scan, l: Layout, r: Regs, regs: map<int, Value>, k: nat)
    requires l.Valid() && (l.unique ==> NullApart(scan) && !ValueBefore(scan, k)) && PrevIs(scan, r, l.n, regs, k)
    requires Get(regs, r.chng) == Number(Expected(scan, l.n, k))
    ensures Ready(scan, l, r, regs, k)
  {
    if l.unique {
      assert PrevAt(scan, r, regs, k, 0);
      assert Prev(r, regs, 0) == Null <==> IsNull(scan, k);
      if k > 0 {
        assert IsNull(scan, k - 1);
        assert !IsNull(scan, k) ==> !SameKey(scan, k - 1, k, 0);
      }
    }
  }

  ghost predicate PushedAt(scan: Scan, l: Layout, pushed: seq<Push>, k: nat) {
    k < |pushed| && pushed[k] == Push(Number(Told(scan, l, k)), Number(scan.rowid(k)))
  }

  /** The machine stands where row k is about to be pushed. */
  ghost predicate AtPush(scan: Scan, l: Layout, r: Regs, m: Vm, k: nat) {
    && m.pc == l.done && m.row == k < |scan.rows| && |m.pushed| == k
    && (forall j :: 0 <= j < k ==> PushedAt(scan, l, m.pushed, j))
    && Get(m.regs, r.chng) == Number(Told(scan, l, k))
    && Ready(scan, l, r, m.regs, k)
  }

  /** The first row: regChng is 0, and all of regPrev is set. */
  lemma FirstRow(p: Program, scan: Scan, l: Layout, r: Regs, m: Vm) returns (e: Vm)
    requires Emitted(p, l, r) && (l.unique ==> NullApart(scan)) && r.Distinct()
    requires scan.rows != [] && m.pc == l.base && m.pushed == []
    ensures Reaches(p, scan, m, e) && AtPush(scan, l, r, e, 0)
  {
    var m1 := Exec(p, scan, m);
    var m2 := Exec(p, scan, m1);
    if l.n == 0 {
      e := m2;
      Here(p, scan, e);
    } else {
      var m3 := Exec(p, scan, m2);
      e := CopyFrom(p, scan, l, r, m3, 0);
      forall j | 0 <= j < l.n ensures PrevAt(scan, r, e.regs, 0, j) {}
      Then(p, scan, m2, e);
    }
    TestedReady(scan, l, r, e.regs, 0);
    Then(p, scan, m1, e);
    Then(p, scan, m, e);
  }

  lemma ValueStays(scan: Scan, j: nat, k: nat)
    requires j <= k && ValueBefore(scan, j)
    ensures ValueBefore(scan, k)
  {
  }

  /** next_row, with the shortcut if the program has it. */
  lemma TestRow(p: Program, scan: Scan, l: Layout, r: Regs, m: Vm, k: nat) returns (e: Vm)
    requires Emitted(p, l, r) && (l.unique ==> NullApart(scan)) && r.Distinct()
    requires l.n > 0 && m.pc == l.nextRow && m.row == k + 1 < |scan.rows| && Ready(scan, l, r, m.regs, k)
    ensures Reaches(p, scan, m, e) && e == m.(pc := l.done, regs := e.regs)
    ensures Get(e.regs, r.chng) == Number(Told(scan, l, k + 1)) && Ready(scan, l, r, e.regs, k + 1)
  {
    if l.unique {
      assert EndsTests(p, l, l.base + 3);
      var f := Exec(p, scan, m);
      if Prev(r, m.regs, 0) != Null {
        e := f;
        Here(p, scan, e);
        ValueStays(scan, k + 1, k + 2);
      } else {
        assert PrevAt(scan, r, m.regs, k, 0);
        e := TestFrom(p, scan, l, r, f, k, 0);
        TestedReady(scan, l, r, e.regs, k + 1);
      }
      Then(p, scan, m, e);
    } else {
      e := TestFrom(p, scan, l, r, m, k, 0);
    }
  }

  /** The call of stat_push for row k. */
  lemma PushNow(p: Program, scan: Scan, l: Layout, r: Regs, m: Vm, k: nat) returns (e: Vm)
    requires Emitted(p, l, r) && r.Distinct() && AtPush(scan, l, r, m, k)
    ensures Reaches(p, scan, m, e) && e == m.(pc := l.done + 2, regs := e.regs, pushed := e.pushed)
    ensures |e.pushed| == k + 1 && forall j :: 0 <= j <= k ==> PushedAt(scan, l, e.pushed, j)
    ensures Ready(scan, l, r, e.regs, k) && Get(e.regs, r.chng) == Get(m.regs, r.chng)
  {
    var m1 := Exec(p, scan, m);
    e := Exec(p, scan, m1);
    assert e.pushed == m.pushed + [Push(Number(Told(scan, l, k)), Number(scan.rowid(k)))];
    forall j | 0 <= j <= k ensures PushedAt(scan, l, e.pushed, j) {
      assert j < k ==> PushedAt(scan, l, m.pushed, j);
    }
    assert Get(e.regs, r.chng) == Get(m.regs, r.chng);
    assert forall j :: 0 <= j ==> Prev(r, e.regs, j) == Prev(r, m.regs, j);
    if !(l.unique && Prev(r, m.regs, 0) != Null) {
      PrevStays(scan, r, l.n, m.regs, e.regs, k);
    }
    Here(p, scan, e);
    Then(p, scan, m1, e);
    Then(p, scan, m, e);
  }

  /** stat_push and Next: either the next row gets ready to be pushed, or the scan ends. */
  lemma PushRow(p: Program, scan: Scan, l: Layout, r: Regs, m: Vm, k: nat) returns (e: Vm)
    requires Emitted(p, l, r) && (l.unique ==> NullApart(scan)) && r.Distinct() && AtPush(scan, l, r, m, k)
    ensures Reaches(p, scan, m, e)
    ensures k + 1 < |scan.rows| ==> AtPush(scan, l, r, e, k + 1)
    ensures k + 1 == |scan.rows| ==> e.pc == l.done + 3 && AllPushed(scan, l, e.pushed)
  {
    var f := PushNow(p, scan, l, r, m, k);
    var g := Exec(p, scan, f);
    if k + 1 < |scan.rows| && l.n > 0 {
      e := TestRow(p, scan, l, r, g, k);
    } else {
      e := g;
      Here(p, scan, e);
    }
    Then(p, scan, f, e);
    Join(p, scan, m, f, e);
  }

  /** One stat_push a row, in order. */
  ghost predicate AllPushed(scan: Scan, l: Layout, pushed: seq<Push>) {
    |pushed| == |scan.rows| && forall k :: 0 <= k < |pushed| ==> PushedAt(scan, l, pushed, k)
  }

  lemma {:induction false} PushRest(p: Program, scan: Scan, l: Layout, r: Regs, m: Vm, k: nat) returns (e: Vm)
    requires Emitted(p, l, r) && (l.unique ==> NullApart(scan)) && r.Distinct() && AtPush(scan, l, r, m, k)
    ensures Reaches(p, scan, m, e) && e.pc == l.done + 3 && AllPushed(scan, l, e.pushed)
    decreases |scan.rows| - k
  {
    e := PushRow(p, scan, l, r, m, k);
    if k + 1 < |scan.rows| {
      var f := e;
      e := PushRest(p, scan, l, r, f, k + 1);
      Join(p, scan, m, f, e);
    }
  }

  /**
   A whole scan, whatever the registers hold at first: the program ends, and stat_push has been called once for each
   row, in order, with the rowid and the first tested column where the row differs from the one before it; but if the
   program has the shortcut, with 0 for every row after a value.
   */
  lemma ScanPushes(p: Program, scan: Scan, l: Layout, r: Regs, m: Vm) returns (e: Vm)
    requires Emitted(p, l, r) && (l.unique ==> NullApart(scan)) && r.Distinct()
    requires scan.rows != [] && m.pc == l.base && m.pushed == []
    ensures Reaches(p, scan, m, e) && e.pc == l.done + 3
    ensures AllPushed(scan, l, e.pushed)
  {
    var f := FirstRow(p, scan, l, r, m);
    e := PushRest(p, scan, l, r, f, 0);
    Join(p, scan, m, f, e);
  }

  /** No row behind a value equals the row before it. */
  ghost predicate LaterDistinct(scan: Scan) {
    forall k :: 0 < k < |scan.rows| && ValueBefore(scan, k) ==> !SameKey(scan, k - 1, k, 0)
  }

  /** The shortcut pushes what the tests would exactly for the scans in which all rows behind a value are distinct. */
  lemma ShortcutIsRight(scan: Scan, l: Layout)
    requires l.Valid() && l.unique
    ensures (forall k :: 0 <= k < |scan.rows| ==> Told(scan, l, k) == Expected(scan, l.n, k)) <==> LaterDistinct(scan)
  {
    forall k | 0 < k < |scan.rows| ensures Expected(scan, 1, k) == 0 <==> !SameKey(scan, k - 1, k, 0) {}
    if forall k :: 0 <= k < |scan.rows| ==> Told(scan, l, k) == Expected(scan, l.n, k) {
      forall k | 0 < k < |scan.rows| && ValueBefore(scan, k) ensures !SameKey(scan, k - 1, k, 0) {
        assert Told(scan, l, k) == Expected(scan, 1, k);
      }
    }
  }

  /** In an ascending unique index NULLs come first and values are distinct: there it is right. */
  lemma AscendingUnique(scan: Scan)
    requires forall j, k :: 0 <= j < k < |scan.rows| && !IsNull(scan, j) ==> !IsNull(scan, k) && !SameKey(scan, j, k, 0)
    ensures LaterDistinct(scan)
  {
    forall k | 0 < k < |scan.rows| && ValueBefore(scan, k) ensures !SameKey(scan, k - 1, k, 0) {
      var j :| 0 <= j < k && !IsNull(scan, j);
      assert !IsNull(scan, k - 1);
    }
  }

  /** In a descending one the NULLs come last, and from the second on they are equal: there it is not. */
  lemma DescendingUnique(scan: Scan, l: Layout)
    requires l.Valid() && l.unique && scan.rows == [[Number(1)], [Null], [Null]]
    ensures !LaterDistinct(scan)
    ensures Told(scan, l, 2) == 0 && Expected(scan, l.n, 2) == 1
  {
    assert !IsNull(scan, 0);
    var k := 2;
    assert ValueBefore(scan, k) && SameKey(scan, k - 1, k, 0);
    assert FirstChange(scan, 1, 2, 1, 1) == 1;
  }
}
