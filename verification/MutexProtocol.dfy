/**
 The locking protocol of shared Btrees as a transition system: any number of connections, one thread each,
 run Enter and Leave calls in any interleaving. A connection owns a list of handles sorted by the address of
 the BtShared they share; a BtShared has one mutex.
 */
module MutexProtocol {

  /** Where the thread of a connection stands. `i` is the handle being entered, `k` the list position of a loop. */
  datatype Pc =
    | Idle
    | Try(i: nat)
    | Release(i: nat, k: nat)
    | Acquire(i: nat)
    | Relock(i: nat, k: nat)

  datatype Handle = Handle(pBt: nat, want: nat, locked: bool)

  datatype Conn = Conn(list: seq<Handle>, pc: Pc)

  /** `owner` maps a held mutex to its connection; `db` is the last connection recorded in each BtShared. */
  datatype State = State(conns: seq<Conn>, owner: map<nat, nat>, db: map<nat, nat>)

  datatype Step =
    | Enter(h: nat)    // wantToLock++, and done if already locked
    | TryOk            // the try-lock succeeds
    | TryFail          // the try-lock fails; it may do so even when the mutex is free
    | ReleaseOne       // one iteration of the releasing loop, or its end
    | AcquireOne       // the blocking lock of the handle itself
    | RelockOne        // one iteration of the relocking loop, or its end
    | Leave(h: nat)

  predicate InList(conn: Conn, i: nat) { i < |conn.list| }

  /** What a step does to the mutexes. */
  datatype Effect = Nothing | Locks(i: nat) | Unlocks(i: nat)

  /** The step is the next one of the thread, apart from having to wait. */
  predicate Due(conn: Conn, step: Step) {
    match step
    case Enter(h) => conn.pc.Idle? && InList(conn, h)
    case TryOk => conn.pc.Try? && InList(conn, conn.pc.i)
    case TryFail => conn.pc.Try?
    case ReleaseOne => conn.pc.Release?
    case AcquireOne => conn.pc.Acquire? && InList(conn, conn.pc.i)
    case RelockOne => conn.pc.Relock?
    case Leave(h) => conn.pc.Idle? && InList(conn, h) && conn.list[h].want > 0
  }

  function EffectOf(conn: Conn, step: Step): (e: Effect)
    requires Due(conn, step)
    ensures !e.Nothing? ==> InList(conn, e.i)
  {
    match step
    case Enter(h) => Nothing
    case TryOk => Locks(conn.pc.i)
    case TryFail => Nothing
    case ReleaseOne => if InList(conn, conn.pc.k) && conn.list[conn.pc.k].locked then Unlocks(conn.pc.k) else Nothing
    case AcquireOne => Locks(conn.pc.i)
    case RelockOne => if InList(conn, conn.pc.k) && conn.list[conn.pc.k].want > 0 then Locks(conn.pc.k) else Nothing
    case Leave(h) => if conn.list[h].want == 1 then Unlocks(h) else Nothing
  }

  function PcAfter(conn: Conn, step: Step): Pc
    requires Due(conn, step)
  {
    match step
    case Enter(h) => if conn.list[h].locked then Idle else Try(h)
    case TryOk => Idle
    case TryFail => Release(conn.pc.i, conn.pc.i + 1)
    case ReleaseOne => if InList(conn, conn.pc.k) then Release(conn.pc.i, conn.pc.k + 1) else Acquire(conn.pc.i)
    case AcquireOne => Relock(conn.pc.i, conn.pc.i + 1)
    case RelockOne => if InList(conn, conn.pc.k) then Relock(conn.pc.i, conn.pc.k + 1) else Idle
    case Leave(h) => Idle
  }

  function Touch(list: seq<Handle>, e: Effect): (r: seq<Handle>)
    requires !e.Nothing? ==> e.i < |list|
    ensures |r| == |list|
  {
    match e
    case Nothing => list
    case Locks(i) => list[i := list[i].(locked := true)]
    case Unlocks(i) => list[i := list[i].(locked := false)]
  }

  function Rewant(list: seq<Handle>, step: Step): (r: seq<Handle>)
    requires step.Enter? || step.Leave? ==> step.h < |list| && (step.Leave? ==> list[step.h].want > 0)
    ensures |r| == |list|
  {
    match step
    case Enter(h) => list[h := list[h].(want := list[h].want + 1)]
    case Leave(h) => list[h := list[h].(want := list[h].want - 1)]
    case _ => list
  }

  function ConnNext(conn: Conn, step: Step): (r: Conn)
    requires Due(conn, step)
    ensures |r.list| == |conn.list|
  {
    Conn(Touch(Rewant(conn.list, step), EffectOf(conn, step)), PcAfter(conn, step))
  }

  /** A call to the mutex of a BtShared: a try with its outcome, a blocking enter, or a leave. */
  datatype MutexCall = TryCall(b: nat, ok: bool) | EnterCall(b: nat) | LeaveCall(b: nat)

  /** The mutex call that a step is, if it is one. */
  function CallsOf(conn: Conn, step: Step): seq<MutexCall>
    requires Due(conn, step)
  {
    if step.TryOk? || (step.TryFail? && InList(conn, conn.pc.i)) then
      [TryCall(conn.list[conn.pc.i].pBt, step.TryOk?)]
    else
      match EffectOf(conn, step)
      case Nothing => []
      case Locks(i) => [EnterCall(conn.list[i].pBt)]
      case Unlocks(i) => [LeaveCall(conn.list[i].pBt)]
  }

  /** These steps of one connection, in this order, lead from a to b and make these mutex calls. */
  ghost predicate Walk(a: Conn, steps: seq<Step>, calls: seq<MutexCall>, b: Conn)
    decreases |steps|
  {
    if steps == [] then a == b && calls == []
    else
      && Due(a, steps[0]) && CallsOf(a, steps[0]) <= calls
      && Walk(ConnNext(a, steps[0]), steps[1..], calls[|CallsOf(a, steps[0])|..], b)
  }

  lemma OneStep(a: Conn, step: Step, calls: seq<MutexCall>, b: Conn)
    requires Due(a, step) && b == ConnNext(a, step) && calls == CallsOf(a, step)
    ensures Walk(a, [step], calls, b)
  {
    assert calls[|calls|..] == [];
  }

  lemma {:induction false} WalkJoin(a: Conn, s: seq<Step>, x: seq<MutexCall>, b: Conn, t: seq<Step>, y: seq<MutexCall>,
          c: Conn)
    requires Walk(a, s, x, b) && Walk(b, t, y, c)
    ensures Walk(a, s + t, x + y, c)
    decreases |s|
  {
    if s == [] {
      assert s + t == t && x + y == y;
    } else {
      var n := |CallsOf(a, s[0])|;
      assert (s + t)[1..] == s[1..] + t && (x + y)[n..] == x[n..] + y;
      WalkJoin(ConnNext(a, s[0]), s[1..], x[n..], b, t, y, c);
    }
  }

  /** The step does not have to wait. */
  predicate Enabled(s: State, c: nat, step: Step) {
    c < |s.conns| && Due(s.conns[c], step)
    && match EffectOf(s.conns[c], step)
       case Locks(i) => s.conns[c].list[i].pBt !in s.owner
       case _ => true
  }

  function Next(s: State, c: nat, step: Step): (t: State)
    requires Enabled(s, c, step)
  {
    var conn := s.conns[c];
    var conns := s.conns[c := ConnNext(conn, step)];
    match EffectOf(conn, step)
    case Nothing => State(conns, s.owner, s.db)
    case Locks(i) => State(conns, s.owner[conn.list[i].pBt := c], s.db[conn.list[i].pBt := c])
    case Unlocks(i) => State(conns, s.owner - {conn.list[i].pBt}, s.db)
  }

  ghost predicate Sorted(list: seq<Handle>) {
    forall i, j :: 0 <= i < j < |list| ==> list[i].pBt < list[j].pBt
  }

  /** Which handles are locked, by program point. Outside the calls: exactly the wanted ones. */
  ghost predicate LocksMatch(conn: Conn) {
    match conn.pc
    case Idle =>
      forall j :: 0 <= j < |conn.list| ==> (conn.list[j].locked <==> conn.list[j].want > 0)
    case Try(i) =>
      && InList(conn, i) && conn.list[i].want > 0 && !conn.list[i].locked
      && forall j :: 0 <= j < |conn.list| && j != i ==> (conn.list[j].locked <==> conn.list[j].want > 0)
    case Release(i, k) =>
      && InList(conn, i) && i < k <= |conn.list| && conn.list[i].want > 0 && !conn.list[i].locked
      && forall j :: 0 <= j < |conn.list| && j != i ==> (conn.list[j].locked <==> conn.list[j].want > 0 && !(i < j < k))
    case Acquire(i) =>
      && InList(conn, i) && conn.list[i].want > 0
      && forall j :: 0 <= j < |conn.list| ==> (conn.list[j].locked <==> conn.list[j].want > 0 && j < i)
    case Relock(i, k) =>
      && InList(conn, i) && i < k <= |conn.list| && conn.list[i].want > 0
      && forall j :: 0 <= j < |conn.list| ==> (conn.list[j].locked <==> conn.list[j].want > 0 && j < k)
  }

  ghost predicate ConnOk(conn: Conn) {
    Sorted(conn.list) && LocksMatch(conn)
  }

  /** Connection c holds mutex b through one of its handles. */
  ghost predicate Holds(conn: Conn, b: nat) {
    exists i :: 0 <= i < |conn.list| && conn.list[i].pBt == b && conn.list[i].locked
  }

  ghost predicate Owns(s: State, c: nat, b: nat) {
    b in s.owner && s.owner[b] == c && b in s.db && s.db[b] == c
  }

  ghost predicate Inv(s: State) {
    && (forall c :: 0 <= c < |s.conns| ==> ConnOk(s.conns[c]))
    && (forall c, i :: 0 <= c < |s.conns| && 0 <= i < |s.conns[c].list| && s.conns[c].list[i].locked ==>
          Owns(s, c, s.conns[c].list[i].pBt))
    && (forall b :: b in s.owner ==> s.owner[b] < |s.conns| && Holds(s.conns[s.owner[b]], b))
  }

  ghost predicate ConnQuiet(conn: Conn) {
    conn.pc.Idle? && Sorted(conn.list)
    && forall i :: 0 <= i < |conn.list| ==> conn.list[i].want == 0 && !conn.list[i].locked
  }

  /** All connections idle, nothing wanted. */
  ghost predicate Quiet(s: State) {
    s.owner == map[] && forall c :: 0 <= c < |s.conns| ==> ConnQuiet(s.conns[c])
  }

  lemma QuietHolds(s: State)
    requires Quiet(s)
    ensures Inv(s)
  {
  }

  lemma ListAfter(conn: Conn, step: Step)
    requires Due(conn, step)
    ensures forall j :: 0 <= j < |conn.list| ==> ConnNext(conn, step).list[j].pBt == conn.list[j].pBt
    ensures forall j :: 0 <= j < |conn.list| ==>
              ConnNext(conn, step).list[j].locked ==
                if EffectOf(conn, step) == Locks(j) then true
                else if EffectOf(conn, step) == Unlocks(j) then false
                else conn.list[j].locked
    ensures forall j :: 0 <= j < |conn.list| ==>
              ConnNext(conn, step).list[j].want ==
                if step == Enter(j) then conn.list[j].want + 1
                else if step == Leave(j) then conn.list[j].want - 1
                else conn.list[j].want
  {
  }

  lemma SortedAfter(conn: Conn, step: Step)
    requires Due(conn, step) && Sorted(conn.list)
    ensures Sorted(ConnNext(conn, step).list)
  {
    ListAfter(conn, step);
    var r := ConnNext(conn, step).list;
    forall i, j | 0 <= i < j < |r| ensures r[i].pBt < r[j].pBt {}
  }

  lemma EnterOrLeaveMatches(conn: Conn, step: Step)
    requires Due(conn, step) && ConnOk(conn) && (step.Enter? || step.Leave?)
    ensures LocksMatch(ConnNext(conn, step))
  {
    ListAfter(conn, step);
  }

  lemma LockMatches(conn: Conn, step: Step)
    requires Due(conn, step) && ConnOk(conn) && (step.TryOk? || step.AcquireOne?)
    ensures LocksMatch(ConnNext(conn, step))
  {
    ListAfter(conn, step);
  }

  lemma LoopMatches(conn: Conn, step: Step)
    requires Due(conn, step) && ConnOk(conn) && (step.TryFail? || step.ReleaseOne? || step.RelockOne?)
    ensures LocksMatch(ConnNext(conn, step))
  {
    ListAfter(conn, step);
  }

  lemma ConnKeeps(conn: Conn, step: Step)
    requires Due(conn, step) && ConnOk(conn)
    ensures ConnOk(ConnNext(conn, step))
  {
    SortedAfter(conn, step);
    if step.Enter? || step.Leave? {
      EnterOrLeaveMatches(conn, step);
    } else if step.TryOk? || step.AcquireOne? {
      LockMatches(conn, step);
    } else {
      LoopMatches(conn, step);
    }
  }

  /** Every step of every connection keeps the invariant. */
  lemma StepKeeps(s: State, c: nat, step: Step)
    requires Inv(s) && Enabled(s, c, step)
    ensures Inv(Next(s, c, step))
  {
    var t, conn := Next(s, c, step), s.conns[c];
    ConnKeeps(conn, step);
    ListAfter(conn, step);
    LockedAreOwned(s, c, step);
    forall b | b in t.owner ensures t.owner[b] < |t.conns| && Holds(t.conns[t.owner[b]], b) {
      OwnedAreLocked(s, c, step, b);
    }
  }

  lemma UnlockedWasHeld(conn: Conn, step: Step)
    requires Due(conn, step) && ConnOk(conn) && EffectOf(conn, step).Unlocks?
    ensures conn.list[EffectOf(conn, step).i].locked
  {
  }

  lemma LockedAreOwned(s: State, c: nat, step: Step)
    requires Inv(s) && Enabled(s, c, step)
    ensures var t := Next(s, c, step);
      forall d, i :: 0 <= d < |t.conns| && 0 <= i < |t.conns[d].list| && t.conns[d].list[i].locked ==>
              Owns(t, d, t.conns[d].list[i].pBt)
  {
    var t, conn := Next(s, c, step), s.conns[c];
    var e := EffectOf(conn, step);
    ListAfter(conn, step);
    if e.Unlocks? { UnlockedWasHeld(conn, step); }
    forall d, i | 0 <= d < |t.conns| && 0 <= i < |t.conns[d].list| && t.conns[d].list[i].locked
      ensures Owns(t, d, t.conns[d].list[i].pBt)
    {
      var b := t.conns[d].list[i].pBt;
      assert b == s.conns[d].list[i].pBt;
      if d == c && e == Locks(i) {
      } else {
        assert s.conns[d].list[i].locked && Owns(s, d, b);
        assert ConnOk(conn);
      }
    }
  }

  lemma OwnedAreLocked(s: State, c: nat, step: Step, b: nat)
    requires Inv(s) && Enabled(s, c, step) && b in Next(s, c, step).owner
    ensures var t := Next(s, c, step); t.owner[b] < |t.conns| && Holds(t.conns[t.owner[b]], b)
  {
    var t, conn := Next(s, c, step), s.conns[c];
    var e := EffectOf(conn, step);
    ListAfter(conn, step);
    if e.Locks? && b == conn.list[e.i].pBt {
      assert t.conns[c].list[e.i].locked;
    } else {
      var d := s.owner[b];
      var j :| 0 <= j < |s.conns[d].list| && s.conns[d].list[j].pBt == b && s.conns[d].list[j].locked;
      assert t.conns[d].list[j].pBt == b && t.conns[d].list[j].locked;
    }
  }

  datatype Event = Event(conn: nat, step: Step)

  /** One state of a run follows from the one before. */
  ghost predicate Follows(s: State, e: Event, t: State) {
    Enabled(s, e.conn, e.step) && t == Next(s, e.conn, e.step)
  }

  ghost predicate Run(states: seq<State>, events: seq<Event>) {
    |states| == |events| + 1 && Quiet(states[0])
    && forall k :: 0 <= k < |events| ==> Follows(states[k], events[k], states[k + 1])
  }

  lemma {:induction false} RunKeeps(states: seq<State>, events: seq<Event>, n: nat)
    requires Run(states, events) && n < |states|
    ensures Inv(states[n])
  {
    if n == 0 {
      QuietHolds(states[0]);
    } else {
      RunKeeps(states, events, n - 1);
      assert Follows(states[n - 1], events[n - 1], states[n]);
      StepKeeps(states[n - 1], events[n - 1].conn, events[n - 1].step);
    }
  }

  /** The mutex that the thread of c is waiting for, if it is stopped at a blocking lock. */
  ghost predicate WaitsFor(s: State, c: nat, b: nat) {
    c < |s.conns| && b in s.owner &&
    var conn := s.conns[c];
    || (conn.pc.Acquire? && InList(conn, conn.pc.i) && conn.list[conn.pc.i].pBt == b)
    || (conn.pc.Relock? && InList(conn, conn.pc.k) && conn.list[conn.pc.k].want > 0 && conn.list[conn.pc.k].pBt == b)
  }

  ghost predicate Blocked(s: State, c: nat) {
    exists b :: WaitsFor(s, c, b)
  }

  /**
   The lock order. Although the try-lock takes mutexes out of order, whoever waits, waits for a mutex above all
   the mutexes of its connection, and never for one of its own.
   */
  lemma WaitsAboveHeld(s: State, c: nat, b: nat)
    requires Inv(s) && WaitsFor(s, c, b)
    ensures forall x :: x in s.owner && s.owner[x] == c ==> x < b
  {
    var conn := s.conns[c];
    assert ConnOk(conn);
    forall x | x in s.owner && s.owner[x] == c ensures x < b {
      var i :| 0 <= i < |conn.list| && conn.list[i].pBt == x && conn.list[i].locked;
    }
  }

  /** A thread that is inside a call and not blocked has an enabled step. */
  lemma UnblockedCanStep(s: State, c: nat)
    requires Inv(s) && c < |s.conns| && !Blocked(s, c)
    requires !s.conns[c].pc.Idle?
    ensures exists step :: Enabled(s, c, step) && !step.Enter?
  {
    var conn := s.conns[c];
    assert ConnOk(conn);
    match conn.pc
    case Try(i) => assert Enabled(s, c, TryFail);
    case Release(i, k) => assert Enabled(s, c, ReleaseOne);
    case Acquire(i) =>
      assert !WaitsFor(s, c, conn.list[i].pBt);
      assert Enabled(s, c, AcquireOne);
    case Relock(i, k) =>
      if k < |conn.list| { assert !WaitsFor(s, c, conn.list[k].pBt); }
      assert Enabled(s, c, RelockOne);
  }

  lemma HolderCanStep(s: State, c: nat, b: nat)
    requires Inv(s) && b in s.owner && s.owner[b] == c && !Blocked(s, c)
    ensures exists step :: Enabled(s, c, step) && !step.Enter?
  {
    var conn := s.conns[c];
    if conn.pc.Idle? {
      var i :| 0 <= i < |conn.list| && conn.list[i].pBt == b && conn.list[i].locked;
      assert ConnOk(conn);
      assert Enabled(s, c, Leave(i));
    } else {
      UnblockedCanStep(s, c);
    }
  }

  ghost function Above(s: State, b: nat): set<nat> {
    set x | x in s.owner && x > b
  }

  /** Following the waits from c ends at a connection that holds a contended mutex and can move. */
  lemma {:induction false} ChainEnds(s: State, c: nat, b: nat) returns (d: nat)
    requires Inv(s) && WaitsFor(s, c, b)
    ensures d < |s.conns| && !Blocked(s, d)
    ensures exists x, w :: WaitsFor(s, w, x) && s.owner[x] == d
    ensures exists step :: Enabled(s, d, step) && !step.Enter?
    decreases |Above(s, b)|
  {
    d := s.owner[b];
    if y :| WaitsFor(s, d, y) {
      WaitsAboveHeld(s, d, y);
      assert y in Above(s, b) && y !in Above(s, y);
      assert Above(s, y) < Above(s, b);
      SubsetSmaller(Above(s, y), Above(s, b));
      d := ChainEnds(s, d, y);
    } else {
      assert WaitsFor(s, c, b) && s.owner[b] == d;
      HolderCanStep(s, d, b);
    }
  }

  lemma {:induction false} SubsetSmaller(a: set<nat>, b: set<nat>)
    requires a < b
    ensures |a| < |b|
    decreases b
  {
    var x :| x in b && x !in a;
    SubsetSize(a, b - {x});
  }

  lemma {:induction false} SubsetSize(a: set<nat>, b: set<nat>)
    requires a <= b
    ensures |a| <= |b|
    decreases b
  {
    if a != {} {
      var x :| x in a;
      SubsetSize(a - {x}, b - {x});
    }
  }

  /**
   Deadlock freedom. In every state of every run in which some connection waits, some connection that holds a
   mutex waited for is not itself waiting and can continue its call, or leave a Btree, right away.
   */
  lemma DeadlockFree(states: seq<State>, events: seq<Event>, n: nat, c: nat)
    requires Run(states, events) && n < |states| && Blocked(states[n], c)
    ensures exists d, x, w, step ::
              WaitsFor(states[n], w, x) && states[n].owner[x] == d && !Blocked(states[n], d)
              && Enabled(states[n], d, step) && !step.Enter?
  {
    RunKeeps(states, events, n);
    var b :| WaitsFor(states[n], c, b);
    var d := ChainEnds(states[n], c, b);
  }

  /** Connection c waits for mutex b, which connection d holds. */
  ghost predicate WaitsOn(s: State, c: nat, b: nat, d: nat) {
    WaitsFor(s, c, b) && s.owner[b] == d
  }

  /** No cycle of waits, of any length: along a chain of waiting connections the mutexes waited for increase. */
  lemma {:induction false} NoWaitCycle(s: State, conns: seq<nat>, mutexes: seq<nat>, k: nat)
    requires Inv(s) && |conns| == |mutexes| && k < |conns|
    requires forall i :: 0 <= i < |conns| ==> WaitsFor(s, conns[i], mutexes[i])
    requires forall i :: 0 < i < |conns| ==> WaitsOn(s, conns[i - 1], mutexes[i - 1], conns[i])
    ensures mutexes[0] <= mutexes[k] && !WaitsOn(s, conns[k], mutexes[k], conns[0])
  {
    WaitsAboveHeld(s, conns[0], mutexes[0]);
    if k > 0 {
      WaitsAboveHeld(s, conns[k], mutexes[k]);
      NoWaitCycle(s, conns, mutexes, k - 1);
      assert WaitsOn(s, conns[k - 1], mutexes[k - 1], conns[k]);
    }
  }

  function SumWant(list: seq<Handle>): nat {
    if list == [] then 0 else list[0].want + SumWant(list[1..])
  }

  /** Steps left in the current call of a connection, at most. */
  function CallWork(conn: Conn): int {
    var n := |conn.list|;
    match conn.pc
    case Idle => 0
    case Try(i) => 2 * n + 5
    case Release(i, k) => n + 3 + (if k < n then n - k else 0) + 1
    case Acquire(i) => n + 3
    case Relock(i, k) => (if k < n then n - k else 0) + 1
  }

  function Work(conn: Conn): int { SumWant(conn.list) + CallWork(conn) }

  function TotalWork(conns: seq<Conn>): int {
    if conns == [] then 0 else Work(conns[0]) + TotalWork(conns[1..])
  }

  lemma {:induction false} SumWantUpdate(list: seq<Handle>, i: nat, h: Handle)
    requires i < |list|
    ensures SumWant(list[i := h]) == SumWant(list) - list[i].want + h.want
  {
    if i > 0 {
      assert list[i := h][1..] == list[1..][i - 1 := h];
      SumWantUpdate(list[1..], i - 1, h);
    } else {
      assert list[i := h][1..] == list[1..];
    }
  }

  lemma {:induction false} TotalWorkUpdate(conns: seq<Conn>, i: nat, c: Conn)
    requires i < |conns|
    ensures TotalWork(conns[i := c]) == TotalWork(conns) - Work(conns[i]) + Work(c)
  {
    if i > 0 {
      assert conns[i := c][1..] == conns[1..][i - 1 := c];
      TotalWorkUpdate(conns[1..], i - 1, c);
    } else {
      assert conns[i := c][1..] == conns[1..];
    }
  }

  lemma {:induction false} TotalWorkPositive(conns: seq<Conn>)
    ensures TotalWork(conns) >= 0
  {
    if conns != [] { TotalWorkPositive(conns[1..]); }
  }

  lemma TouchKeepsSum(list: seq<Handle>, e: Effect)
    requires !e.Nothing? ==> e.i < |list|
    ensures SumWant(Touch(list, e)) == SumWant(list)
  {
    match e
    case Nothing =>
    case Locks(i) => SumWantUpdate(list, i, list[i].(locked := true));
    case Unlocks(i) => SumWantUpdate(list, i, list[i].(locked := false));
  }

  /** Every step other than the start of a new call uses up work. */
  lemma StepWorks(conn: Conn, step: Step)
    requires Due(conn, step) && ConnOk(conn) && !step.Enter?
    ensures Work(ConnNext(conn, step)) < Work(conn)
  {
    TouchKeepsSum(Rewant(conn.list, step), EffectOf(conn, step));
    if step.Leave? {
      SumWantUpdate(conn.list, step.h, conn.list[step.h].(want := conn.list[step.h].want - 1));
    }
  }

  /** As long as something is held or in progress, some step other than a new Enter can be taken. */
  lemma SomeStep(s: State) returns (c: nat, step: Step)
    requires Inv(s) && !Quiet(s)
    ensures Enabled(s, c, step) && !step.Enter?
  {
    if w, b :| WaitsFor(s, w, b) {
      c := ChainEnds(s, w, b);
      step :| Enabled(s, c, step) && !step.Enter?;
    } else if b :| b in s.owner {
      c := s.owner[b];
      HolderCanStep(s, c, b);
      step :| Enabled(s, c, step) && !step.Enter?;
    } else {
      c :| 0 <= c < |s.conns| && !ConnQuiet(s.conns[c]);
      BusyIsInCall(s, c);
      UnblockedCanStep(s, c);
      step :| Enabled(s, c, step) && !step.Enter?;
    }
  }

  lemma BusyIsInCall(s: State, c: nat)
    requires Inv(s) && c < |s.conns| && s.owner == map[] && !ConnQuiet(s.conns[c])
    ensures !s.conns[c].pc.Idle?
  {
    var conn := s.conns[c];
    assert ConnOk(conn);
    forall i | 0 <= i < |conn.list| ensures !conn.list[i].locked {
      assert !Owns(s, c, conn.list[i].pBt);
    }
  }

  /** A stretch of a run in which no new Enter call starts. */
  ghost predicate Drain(states: seq<State>, events: seq<Event>) {
    |states| == |events| + 1
    && forall k :: 0 <= k < |events| ==> Follows(states[k], events[k], states[k + 1]) && !events[k].step.Enter?
  }

  lemma {:induction false} DrainWorks(states: seq<State>, events: seq<Event>, n: nat)
    requires Drain(states, events) && Inv(states[0]) && n < |states|
    ensures Inv(states[n]) && TotalWork(states[n].conns) + n <= TotalWork(states[0].conns)
  {
    if n > 0 {
      DrainWorks(states, events, n - 1);
      var s, e := states[n - 1], events[n - 1];
      assert Follows(s, e, states[n]) && !e.step.Enter?;
      StepKeeps(s, e.conn, e.step);
      StepWorks(s.conns[e.conn], e.step);
      TotalWorkUpdate(s.conns, e.conn, ConnNext(s.conns[e.conn], e.step));
    }
  }

  /**
   Progress. From any reachable state, if no new Enter starts, every schedule is finite, and one that cannot be
   continued has finished all calls and freed all mutexes.
   */
  lemma EveryDrainQuiesces(states: seq<State>, events: seq<Event>)
    requires Drain(states, events) && Inv(states[0])
    ensures |events| <= TotalWork(states[0].conns)
    ensures (forall c, step :: Enabled(states[|events|], c, step) ==> step.Enter?) ==> Quiet(states[|events|])
  {
    DrainWorks(states, events, |events|);
    TotalWorkPositive(states[|events|].conns);
    if !Quiet(states[|events|]) {
      var c, step := SomeStep(states[|events|]);
    }
  }

  /** Enter calls of handle i by connection c, minus its Leave calls, among the first n events. */
  function Balance(events: seq<Event>, n: nat, c: nat, i: nat): int
    requires n <= |events|
  {
    if n == 0 then 0
    else Balance(events, n - 1, c, i)
         + (if events[n - 1] == Event(c, Enter(i)) then 1 else if events[n - 1] == Event(c, Leave(i)) then -1 else 0)
  }

  lemma WantAfter(s: State, e: Event, t: State, c: nat, i: nat)
    requires Follows(s, e, t) && c < |s.conns| && i < |s.conns[c].list|
    ensures c < |t.conns| && |t.conns[c].list| == |s.conns[c].list|
    ensures t.conns[c].list[i].want == s.conns[c].list[i].want
      + (if e == Event(c, Enter(i)) then 1 else if e == Event(c, Leave(i)) then -1 else 0)
  {
    ListAfter(s.conns[e.conn], e.step);
  }

  /**
   Lock accounting. After any run wantToLock counts the calls not yet matched, and a connection that is not inside
   a call holds exactly the mutexes of the handles entered more often than left, whatever back-offs happened.
   */
  lemma {:induction false} LockAccounting(states: seq<State>, events: seq<Event>, n: nat, c: nat, i: nat)
    requires Run(states, events) && n < |states|
    requires c < |states[0].conns| && i < |states[0].conns[c].list|
    ensures c < |states[n].conns| && |states[n].conns[c].list| == |states[0].conns[c].list|
    ensures states[n].conns[c].list[i].want == Balance(events, n, c, i)
    ensures states[n].conns[c].pc.Idle? ==>
              var h := states[n].conns[c].list[i];
              && (h.locked <==> Balance(events, n, c, i) > 0)
              && (h.locked <==> h.pBt in states[n].owner && states[n].owner[h.pBt] == c)
  {
    RunKeeps(states, events, n);
    if n > 0 {
      LockAccounting(states, events, n - 1, c, i);
      assert Follows(states[n - 1], events[n - 1], states[n]);
      WantAfter(states[n - 1], events[n - 1], states[n], c, i);
    }
    IdleOwns(states[n], c, i);
  }

  lemma IdleOwns(s: State, c: nat, i: nat)
    requires Inv(s) && c < |s.conns| && i < |s.conns[c].list|
    ensures s.conns[c].pc.Idle? ==> (s.conns[c].list[i].locked <==> s.conns[c].list[i].want > 0)
    ensures var h := s.conns[c].list[i]; h.locked <==> h.pBt in s.owner && s.owner[h.pBt] == c
  {
    var h := s.conns[c].list[i];
    assert ConnOk(s.conns[c]);
    if h.locked { assert Owns(s, c, h.pBt); }
  }
}
