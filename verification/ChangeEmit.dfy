/** The generator of the scan program, and what its pushes tell the STAT4 sampler. */
module ChangeEmit {
  import opened ChangeDetect
  import E = Stat4Exact
  import R = Stat4Run
  import S = Stat4
  import I = Stat4Invariant

  class Vdbe {
    var aOp: seq<Op>
    var aLabel: seq<int>

    constructor (aOp: seq<Op>, aLabel: seq<int>)
      ensures this.aOp == aOp && this.aLabel == aLabel
    {
      this.aOp, this.aLabel := aOp, aLabel;
    }

    /** sqlite3VdbeAddOp4 */
    method AddOp(code: Opcode, p1: int, p2: int, p3: int, coll: nat) returns (addr: nat)
      modifies this`aOp
      ensures aOp == old(aOp) + [Op(code, p1, p2, p3, coll)] && addr == |old(aOp)|
    {
      addr := |aOp|;
      aOp := aOp + [Op(code, p1, p2, p3, coll)];
    }

    /** sqlite3VdbeJumpHere */
    method JumpHere(addr: nat)
      requires addr < |aOp|
      modifies this`aOp
      ensures aOp == old(aOp)[addr := old(aOp)[addr].(p2 := |old(aOp)|)]
    {
      aOp := aOp[addr := aOp[addr].(p2 := |aOp|)];
    }

    /** sqlite3VdbeMakeLabel */
    method MakeLabel() returns (x: int)
      modifies this`aLabel
      ensures aLabel == old(aLabel) + [-1] && x == -1 - |old(aLabel)|
    {
      x := -1 - |aLabel|;
      aLabel := aLabel + [-1];
    }

    /** sqlite3VdbeResolveLabel */
    method ResolveLabel(x: int)
      requires x < 0 && -1 - x < |aLabel|
      modifies this`aLabel
      ensures aLabel == old(aLabel)[-1 - x := |aOp|]
    {
      aLabel := aLabel[-1 - x := |aOp|];
    }
  }

  /** The tests for column i, the jump of which may still be open. */
  predicate TestDraft(ops: seq<Op>, l: Layout, r: Regs, i: nat) {
    var a := l.tests + 3 * i;
    && a + 2 < |ops|
    && ops[a] == Op(OpInteger, i, r.chng, 0, 0)
    && ops[a + 1] == Op(OpColumn, r.cursor, i, r.temp, 0)
    && ops[a + 2] == Op(OpNe, r.temp, ops[a + 2].p2, r.prev + i, i)
  }

  /** The loop over the columns to test. */
  method EmitTests(v: Vdbe, ghost l: Layout, nColTest: nat, r: Regs, aGotoChng: array<nat>)
    requires |v.aOp| == l.tests && nColTest == l.n && aGotoChng.Length == nColTest
    modifies v`aOp, aGotoChng
    ensures |v.aOp| == l.tests + 3 * nColTest && old(v.aOp) <= v.aOp
    ensures forall i :: 0 <= i < nColTest ==> TestDraft(v.aOp, l, r, i)
    ensures forall i :: 0 <= i < nColTest ==> aGotoChng[i] == l.tests + 2 + 3 * i
  {
    var i := 0;
    while i < nColTest
      invariant 0 <= i <= nColTest && |v.aOp| == l.tests + 3 * i && old(v.aOp) <= v.aOp
      invariant forall j :: 0 <= j < i ==> TestDraft(v.aOp, l, r, j)
      invariant forall j :: 0 <= j < i ==> aGotoChng[j] == l.tests + 2 + 3 * j
    {
      ghost var was := v.aOp;
      var a := v.AddOp(OpInteger, i, r.chng, 0, 0);
      a := v.AddOp(OpColumn, r.cursor, i, r.temp, 0);
      a := v.AddOp(OpNe, r.temp, 0, r.prev + i, i);
      aGotoChng[i] := a;
      DraftsKept(was, v.aOp, l, r, i);
      i := i + 1;
    }
  }

  lemma DraftsKept(was: seq<Op>, now: seq<Op>, l: Layout, r: Regs, n: nat)
    requires was <= now && forall j :: 0 <= j < n ==> TestDraft(was, l, r, j)
    ensures forall j :: 0 <= j < n ==> TestDraft(now, l, r, j)
  {
    forall j | 0 <= j < n ensures TestDraft(now, l, r, j) {
      assert TestDraft(was, l, r, j);
    }
  }

  /** The tests for column i, closed up to column k. */
  predicate TestPatched(ops: seq<Op>, l: Layout, r: Regs, i: nat, k: nat) {
    TestDraft(ops, l, r, i) && (i < k ==> ops[l.tests + 2 + 3 * i].p2 == l.Changed(i))
  }

  predicate CopyDraft(ops: seq<Op>, l: Layout, r: Regs, i: nat) {
    l.Changed(i) < |ops| && ops[l.Changed(i)] == Op(OpColumn, r.cursor, i, r.prev + i, 0)
  }

  /** The two instructions behind the tests. */
  predicate AfterTests(ops: seq<Op>, was: seq<Op>, l: Layout) {
    var a := l.tests + 3 * l.n;
    a + 1 < |ops| && a + 1 < |was| && ops[a] == was[a] && ops[a + 1] == was[a + 1]
  }

  /** The loop that copies the columns and closes the jumps of the tests. */
  method EmitCopies(v: Vdbe, ghost l: Layout, n: nat, r: Regs, aGotoChng: array<nat>)
    requires |v.aOp| == l.tests + 2 + 3 * n && n == l.n && aGotoChng.Length == n
    requires forall i :: 0 <= i < n ==> TestDraft(v.aOp, l, r, i)
    requires forall i :: 0 <= i < n ==> aGotoChng[i] == l.tests + 2 + 3 * i
    modifies v`aOp
    ensures |v.aOp| == l.Changed(n)
    ensures v.aOp[..l.tests] == old(v.aOp)[..l.tests] && AfterTests(v.aOp, old(v.aOp), l)
    ensures forall i :: 0 <= i < n ==> TestPatched(v.aOp, l, r, i, n) && CopyDraft(v.aOp, l, r, i)
  {
    var i := 0;
    while i < n
      invariant 0 <= i <= n && |v.aOp| == l.Changed(i)
      invariant v.aOp[..l.tests] == old(v.aOp)[..l.tests] && AfterTests(v.aOp, old(v.aOp), l)
      invariant forall j :: 0 <= j < n ==> TestPatched(v.aOp, l, r, j, i)
      invariant forall j :: 0 <= j < i ==> CopyDraft(v.aOp, l, r, j)
    {
      i := EmitCopy(v, l, r, i, aGotoChng[i]);
    }
  }

  /** chng_addr_i, and the jump to it. */
  method EmitCopy(v: Vdbe, ghost l: Layout, r: Regs, i: nat, aGotoChng: nat) returns (next: nat)
    requires i < l.n && |v.aOp| == l.Changed(i) && aGotoChng == l.tests + 2 + 3 * i
    requires forall j :: 0 <= j < l.n ==> TestPatched(v.aOp, l, r, j, i)
    requires forall j :: 0 <= j < i ==> CopyDraft(v.aOp, l, r, j)
    modifies v`aOp
    ensures next == i + 1 && |v.aOp| == l.Changed(next)
    ensures v.aOp[..l.tests] == old(v.aOp)[..l.tests] && AfterTests(v.aOp, old(v.aOp), l)
    ensures forall j :: 0 <= j < l.n ==> TestPatched(v.aOp, l, r, j, next)
    ensures forall j :: 0 <= j < next ==> CopyDraft(v.aOp, l, r, j)
  {
    v.JumpHere(aGotoChng);
    var a := v.AddOp(OpColumn, r.cursor, i, r.prev + i, 0);
    next := i + 1;
    PatchKept(old(v.aOp), v.aOp, l, r, i, next);
  }

  lemma PatchKept(was: seq<Op>, now: seq<Op>, l: Layout, r: Regs, i: nat, next: nat)
    requires i < l.n && next == i + 1 && |was| == l.Changed(i)
    requires now == was[l.tests + 2 + 3 * i := was[l.tests + 2 + 3 * i].(p2 := |was|)]
                    + [Op(OpColumn, r.cursor, i, r.prev + i, 0)]
    requires forall j :: 0 <= j < l.n ==> TestPatched(was, l, r, j, i)
    requires forall j :: 0 <= j < i ==> CopyDraft(was, l, r, j)
    ensures forall j :: 0 <= j < l.n ==> TestPatched(now, l, r, j, next)
    ensures forall j :: 0 <= j < next ==> CopyDraft(now, l, r, j)
  {
    forall j | 0 <= j < l.n ensures TestPatched(now, l, r, j, next) {
      assert TestPatched(was, l, r, j, i);
    }
    forall j | 0 <= j < next ensures CopyDraft(now, l, r, j) {
      assert j < i ==> CopyDraft(was, l, r, j);
    }
  }

  /** Everything up to endDistinctTest. */
  ghost predicate Head(p: Program, l: Layout, r: Regs) {
    && l.Valid() && |p.ops| == l.done
    && p.ops[l.base].code == OpRewind
    && p.ops[l.base + 1] == Op(OpInteger, 0, r.chng, 0, 0)
    && (l.n > 0 ==>
         && p.ops[l.base + 2] == Op(OpGoto, 0, l.Changed(0), 0, 0)
         && p.ops[l.tests + 3 * l.n] == Op(OpInteger, l.n, r.chng, 0, 0)
         && p.ops[l.tests + 3 * l.n + 1].code == OpGoto && EndsTests(p, l, l.tests + 3 * l.n + 1))
    && (l.unique ==>
         && p.ops[l.base + 3].code == OpNotNull && p.ops[l.base + 3].p1 == r.prev && EndsTests(p, l, l.base + 3))
    && (forall i :: 0 <= i < l.n ==> TestPatched(p.ops, l, r, i, l.n))
    && (forall i :: 0 <= i < l.n ==> CopyDraft(p.ops, l, r, i))
  }

  lemma HeadEmitted(p: Program, l: Layout, r: Regs, tail: seq<Op>)
    requires Head(p, l, r)
    requires tail == [Op(OpIdxRowid, r.cursor, r.rowid, 0, 0), Op(OpStatPush, 1, r.stat4, r.temp, 0),
                      Op(OpNext, r.cursor, l.nextRow, 0, 0)]
    ensures Emitted(Program(p.ops + tail, p.labels), l, r)
  {
    var q := Program(p.ops + tail, p.labels);
    if l.n > 0 {
      assert EndsTests(p, l, l.tests + 3 * l.n + 1);
    }
    forall i | 0 <= i < l.n ensures TestAt(q, l, r, i) && CopyAt(q, l, r, i) {
      assert TestPatched(p.ops, l, r, i, l.n) && CopyDraft(p.ops, l, r, i);
    }
  }

  /** The test for changes, of at least one column. */
  method EmitDistinct(v: Vdbe, ghost base: nat, nColTest: nat, unique: bool, r: Regs)
    requires |v.aOp| == base + 2 && nColTest > 0 && (unique ==> nColTest == 1)
    requires v.aOp[base].code == OpRewind && v.aOp[base + 1] == Op(OpInteger, 0, r.chng, 0, 0)
    modifies v`aOp, v`aLabel
    ensures Head(Program(v.aOp, v.aLabel), Layout(base, nColTest, unique), r)
    ensures v.aOp[..base + 2] == old(v.aOp)
  {
    ghost var l := Layout(base, nColTest, unique);
    var endDistinctTest := v.MakeLabel();
    var aGotoChng := new nat[nColTest];
    var a := v.AddOp(OpGoto, 0, 0, 0, 0);
    var addrNextRow := |v.aOp|;
    if unique {
      a := v.AddOp(OpNotNull, r.prev, endDistinctTest, 0, 0);
    }
    ghost var start := v.aOp;
    EmitTests(v, l, nColTest, r, aGotoChng);
    ghost var tests := v.aOp;
    a := v.AddOp(OpInteger, nColTest, r.chng, 0, 0);
    a := v.AddOp(OpGoto, 0, endDistinctTest, 0, 0);
    v.JumpHere(addrNextRow - 1);
    DraftsPatched(tests, v.aOp, l, r, nColTest);
    ghost var closed := v.aOp;
    EmitCopies(v, l, nColTest, r, aGotoChng);
    v.ResolveLabel(endDistinctTest);
    PrefixAt(v.aOp, closed, l.tests);
    PrefixAt(tests, start, l.tests);
    assert v.aOp[..base + 2] == old(v.aOp);
  }

  lemma PrefixAt(a: seq<Op>, b: seq<Op>, n: nat)
    requires n <= |a| && n <= |b| && a[..n] == b[..n]
    ensures forall i :: 0 <= i < n ==> a[i] == b[i]
  {
    forall i | 0 <= i < n ensures a[i] == b[i] {
      assert a[..n][i] == b[..n][i];
    }
  }

  /** The rowid, the call of stat_push, and the way to the next row. */
  method EmitPush(v: Vdbe, ghost l: Layout, addrNextRow: int, r: Regs)
    requires Head(Program(v.aOp, v.aLabel), l, r) && addrNextRow == l.nextRow
    modifies v`aOp
    ensures Emitted(Program(v.aOp, v.aLabel), l, r) && |v.aOp| == l.done + 3 && old(v.aOp) <= v.aOp
  {
    ghost var head := v.aOp;
    var a := v.AddOp(OpIdxRowid, r.cursor, r.rowid, 0, 0);
    a := v.AddOp(OpStatPush, 1, r.stat4, r.temp, 0);
    a := v.AddOp(OpNext, r.cursor, addrNextRow, 0, 0);
    ghost var tail := [Op(OpIdxRowid, r.cursor, r.rowid, 0, 0), Op(OpStatPush, 1, r.stat4, r.temp, 0),
                       Op(OpNext, r.cursor, l.nextRow, 0, 0)];
    HeadEmitted(Program(head, v.aLabel), l, r, tail);
    assert v.aOp == head + tail;
  }

  /** The part of analyzeOneTable that emits the scan of one index. */
  method EmitScan(v: Vdbe, nColTest: nat, nKeyCol: nat, isUnique: bool, r: Regs)
    modifies v`aOp, v`aLabel
    ensures var l := Layout(|old(v.aOp)|, nColTest, nColTest == 1 && nKeyCol == 1 && isUnique);
      Emitted(Program(v.aOp, v.aLabel), l, r) && |v.aOp| == l.done + 3
    ensures v.aOp[..|old(v.aOp)|] == old(v.aOp)
  {
    ghost var base := |v.aOp|;
    var unique := nColTest == 1 && nKeyCol == 1 && isUnique;
    ghost var l := Layout(base, nColTest, unique);
    var a := v.AddOp(OpRewind, r.cursor, 0, 0, 0);
    a := v.AddOp(OpInteger, 0, r.chng, 0, 0);
    var addrNextRow := |v.aOp|;
    ghost var start := v.aOp;
    if nColTest > 0 {
      addrNextRow := |v.aOp| + 1;
      EmitDistinct(v, base, nColTest, unique, r);
    }
    ghost var head := v.aOp;
    assert head[..base + 2][..base] == head[..base];
    assert start[..base] == old(v.aOp);
    EmitPush(v, l, addrNextRow, r);
    assert v.aOp[..base] == head[..base];
  }

  lemma DraftsPatched(was: seq<Op>, now: seq<Op>, l: Layout, r: Regs, n: nat)
    requires |was| >= l.tests && |now| >= |was| && was[l.tests..] == now[l.tests..|was|]
    requires forall j :: 0 <= j < n ==> TestDraft(was, l, r, j)
    ensures forall j :: 0 <= j < n ==> TestDraft(now, l, r, j)
  {
    forall j | 0 <= j < n ensures TestDraft(now, l, r, j) {
      assert TestDraft(was, l, r, j);
      forall i | l.tests <= i < |was| ensures was[i] == now[i] {
        assert was[l.tests..][i - l.tests] == now[l.tests..|was|][i - l.tests];
      }
    }
  }

  /** The key of row k under the collating sequences of the first nCol columns. */
  function KeyOf(scan: Scan, k: nat, nCol: nat): E.Key {
    seq(nCol, i requires 0 <= i < nCol => scan.key(i, Cell(scan, k, i)))
  }

  function Keys(scan: Scan, nCol: nat): (keys: seq<E.Key>)
    ensures |keys| == |scan.rows| && forall k :: 0 <= k < |keys| ==> keys[k] == KeyOf(scan, k, nCol)
  {
    seq(|scan.rows|, k requires 0 <= k < |scan.rows| => KeyOf(scan, k, nCol))
  }

  /** b comes after a, and differs from it in one of the first n + 1 columns. */
  ghost predicate Rises(a: E.Key, b: E.Key, n: nat) {
    exists d :: 0 <= d <= n && E.SmallerAt(a, b, d)
  }

  /** Rows in index order, no two neighbours equal in their first n + 1 columns. */
  ghost predicate Ordered(scan: Scan, nCol: nat, n: nat) {
    n < nCol && forall k :: 0 < k < |scan.rows| ==> Rises(Keys(scan, nCol)[k - 1], Keys(scan, nCol)[k], n)
  }

  /**
   The changes the program pushes are the ones the sampler is proved for: they describe the scan of the index, for any
   number of tested columns that leaves at most one more column to tell neighbouring rows apart.
   */
  lemma PushesDescribe(scan: Scan, nCol: nat, n: nat, rowids: seq<int>, mxSample: nat, chng: seq<nat>)
    requires Ordered(scan, nCol, n) && |rowids| == |scan.rows| && mxSample > 0
    requires |chng| == |scan.rows| && forall k :: 0 <= k < |chng| ==> chng[k] == Expected(scan, n, k)
    ensures E.Describes(I.Index(chng, rowids, nCol, mxSample), Keys(scan, nCol))
  {
    var keys := Keys(scan, nCol);
    forall k | 0 < k < |keys| ensures E.SmallerAt(keys[k - 1], keys[k], chng[k]) {
      assert Rises(keys[k - 1], keys[k], n);
      var d :| 0 <= d <= n && E.SmallerAt(keys[k - 1], keys[k], d);
      FirstIsSmaller(scan, nCol, n, k, d, keys[k - 1], keys[k]);
    }
  }

  lemma FirstIsSmaller(scan: Scan, nCol: nat, n: nat, k: nat, d: nat, a: E.Key, b: E.Key)
    requires k > 0 && d <= n < nCol && a == KeyOf(scan, k - 1, nCol) && b == KeyOf(scan, k, nCol)
    requires E.SmallerAt(a, b, d)
    ensures FirstChange(scan, k - 1, k, 0, n) == d
  {
    var c := FirstChange(scan, k - 1, k, 0, n);
    forall j | 0 <= j < nCol ensures SameKey(scan, k - 1, k, j) <==> a[j] == b[j] {}
    forall j | 0 <= j < d ensures a[j] == b[j] {
      assert a[..d][j] == b[..d][j];
    }
    assert SameKey(scan, k - 1, k, d) <==> a[d] == b[d];
    assert SameKey(scan, k - 1, k, c) <==> a[c] == b[c];
  }

  /** The changes and rowids that a program for this layout pushes. */
  ghost predicate PushedIndex(scan: Scan, pushed: seq<Push>, x: I.Index) {
    && |pushed| == |x.chng| == |x.rowids| == |scan.rows|
    && forall k :: 0 <= k < |pushed| ==> pushed[k] == Push(Number(x.chng[k]), Number(x.rowids[k]))
  }

  /** What the sampler ends with when it is given these changes and rowids. */
  ghost predicate SamplesExact(x: I.Index, keys: seq<E.Key>)
    requires E.Describes(x, keys)
  {
    forall seed: nat, t: seq<S.Accum> :: R.Run(x, seed, t) && |t| == |keys| + 1 ==>
      S.WellFormed(t[|keys|]) && E.Exact(x, keys, S.PushPrevious(t[|keys|], 0).a)
  }

  /**
   From the instructions to the samples. An emitted program that scans an index in order ends; what it has pushed is a
   scan of that index, and whatever the sample limit and the tie-breaker, the sampler that is given it ends with exact
   samples. If the program has the shortcut, all rows behind a value have to be distinct.
   */
  lemma EmittedScanIsExact(p: Program, scan: Scan, l: Layout, r: Regs, m: Vm, nCol: nat, mxSample: nat)
    returns (e: Vm, x: I.Index)
    requires Emitted(p, l, r) && r.Distinct() && scan.rows != [] && m.pc == l.base && m.pushed == []
    requires Ordered(scan, nCol, l.n) && mxSample > 0
    requires l.unique ==> NullApart(scan) && LaterDistinct(scan)
    ensures Reaches(p, scan, m, e) && e.pc == l.done + 3
    ensures PushedIndex(scan, e.pushed, x) && x.nCol == nCol && x.mxSample == mxSample
    ensures E.Describes(x, Keys(scan, nCol)) && SamplesExact(x, Keys(scan, nCol))
  {
    var keys := Keys(scan, nCol);
    e := ScanPushes(p, scan, l, r, m);
    if l.unique {
      ShortcutIsRight(scan, l);
    }
    var chng := seq(|scan.rows|, k requires 0 <= k < |scan.rows| => Expected(scan, l.n, k));
    var rowids := seq(|scan.rows|, k requires 0 <= k < |scan.rows| => scan.rowid(k));
    x := I.Index(chng, rowids, nCol, mxSample);
    forall k | 0 <= k < |e.pushed| ensures e.pushed[k] == Push(Number(chng[k]), Number(rowids[k])) {
      assert PushedAt(scan, l, e.pushed, k) && Told(scan, l, k) == Expected(scan, l.n, k);
    }
    PushesDescribe(scan, nCol, l.n, rowids, mxSample, chng);
    forall seed: nat, t: seq<S.Accum> | R.Run(x, seed, t) && |t| == |keys| + 1
      ensures S.WellFormed(t[|keys|]) && E.Exact(x, keys, S.PushPrevious(t[|keys|], 0).a)
    {
      E.SamplesAreExact(x, keys, seed, t);
    }
  }
}
