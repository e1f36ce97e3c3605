/**
 The Btree mutex calls of one connection, in the form of the original: objects whose fields are updated in place.
 Other threads show only through the mutexes they hold. The calls are steps of `MutexProtocol`, which has the
 interleavings, and no call waits for a mutex while holding one of a higher address.
 */
module BtreeLocks {
  import P = MutexProtocol

  /** No connection holds the mutex. */
  const FREE: int := -1

  /**
   The thread in connection `id`: the mutexes it holds, by address, and the mutex calls it has made; and beside them the
   connection as the protocol has it, with the steps that have led there.
   */
  class Thread {
    const id: int
    ghost const start: P.Conn
    ghost var held: set<nat>
    ghost var calls: seq<P.MutexCall>
    ghost var conn: P.Conn
    ghost var steps: seq<P.Step>

    constructor (id: int, ghost handles: seq<P.Handle>)
      ensures this.id == id && held == {} && calls == [] && InStep() && conn == P.Conn(handles, P.Idle)
    {
      this.id := id;
      start, conn := P.Conn(handles, P.Idle), P.Conn(handles, P.Idle);
      held, calls, steps := {}, [], [];
    }

    /** The mutex calls so far are, in order, those of steps of the protocol. */
    ghost predicate InStep()
      reads this
    {
      P.Walk(start, steps, calls, conn)
    }

    /** One step of the protocol, the mutex call of which, if any, has just been made. */
    ghost method Advance(step: P.Step, before: seq<P.MutexCall>)
      requires P.Walk(start, steps, before, conn) && P.Due(conn, step) && calls == before + P.CallsOf(conn, step)
      modifies this`conn, this`steps
      ensures InStep() && conn == P.ConnNext(old(conn), step) && steps == old(steps) + [step]
    {
      P.OneStep(conn, step, P.CallsOf(conn, step), P.ConnNext(conn, step));
      P.WalkJoin(start, steps, before, conn, [step], P.CallsOf(conn, step), P.ConnNext(conn, step));
      conn, steps := P.ConnNext(conn, step), steps + [step];
    }
  }

  class BtShared {
    const address: nat
    var holder: int
    var db: int

    constructor (address: nat)
      ensures this.address == address && holder == FREE
    {
      this.address := address;
      holder := FREE;
      db := FREE;
    }

    /** sqlite3_mutex_try: may fail whenever another thread could have been in the way. */
    method Try(me: Thread) returns (ok: bool)
      requires holder != me.id && me.id != FREE
      modifies this`holder, me`held, me`calls
      ensures holder == if ok then me.id else old(holder)
      ensures me.held == (if ok then old(me.held) + {address} else old(me.held))
      ensures me.calls == old(me.calls) + [P.TryCall(address, ok)]
    {
      ok := *;
      if holder != FREE { ok := false; }
      if ok {
        holder := me.id;
        me.held := me.held + {address};
      }
      me.calls := me.calls + [P.TryCall(address, ok)];
    }

    /** sqlite3_mutex_enter: returns once the others have let go. Whoever waits holds only mutexes of lower address. */
    method EnterMutex(me: Thread)
      requires holder != me.id && me.id != FREE && forall a :: a in me.held ==> a < address
      modifies this`holder, me`held, me`calls
      ensures holder == me.id
      ensures me.held == old(me.held) + {address} && me.calls == old(me.calls) + [P.EnterCall(address)]
    {
      holder := me.id;
      me.held := me.held + {address};
      me.calls := me.calls + [P.EnterCall(address)];
    }

    method LeaveMutex(me: Thread)
      requires holder == me.id
      modifies this`holder, me`held, me`calls
      ensures holder == FREE
      ensures me.held == old(me.held) - {address} && me.calls == old(me.calls) + [P.LeaveCall(address)]
    {
      holder := FREE;
      me.held := me.held - {address};
      me.calls := me.calls + [P.LeaveCall(address)];
    }
  }

  class Btree {
    const db: int
    const pBt: BtShared
    const sharable: bool
    var wantToLock: nat
    var locked: bool
    var pNext: Btree?

    constructor (db: int, pBt: BtShared, sharable: bool)
      ensures this.db == db && this.pBt == pBt && this.sharable == sharable
      ensures wantToLock == 0 && !locked && pNext == null
    {
      this.db, this.pBt, this.sharable := db, pBt, sharable;
      wantToLock, locked, pNext := 0, false, null;
    }
  }

  /** The sharable Btrees of the connection, linked through pNext in the order of their BtShared addresses. */
  ghost predicate Linked(list: seq<Btree>, me: Thread)
    reads list`pNext
  {
    me.id != FREE
    && (forall k {:trigger list[k].sharable} {:trigger list[k].db} ::
          0 <= k < |list| ==> list[k].sharable && list[k].db == me.id)
    && (forall k {:trigger list[k].pNext} ::
          0 <= k < |list| ==> list[k].pNext == if k + 1 < |list| then list[k + 1] else null)
    && forall j, k {:trigger list[j].pBt.address, list[k].pBt.address} ::
        0 <= j < k < |list| ==> list[j].pBt.address < list[k].pBt.address
  }

  function Shared(list: seq<Btree>): set<object> {
    set b | b in list :: b.pBt
  }

  /** A Btree is marked locked exactly while the connection holds its mutex, and then it owns the BtShared. */
  ghost predicate HonestAt(b: Btree, me: Thread)
    reads b`locked, b.pBt`holder, b.pBt`db, me`held
  {
    && (b.locked <==> b.pBt.holder == me.id) && (b.locked <==> b.pBt.address in me.held)
    && (b.locked ==> b.pBt.db == me.id)
  }

  /** The mutexes held are those of listed Btrees. */
  ghost predicate Honest(list: seq<Btree>, me: Thread)
    reads list`locked, Shared(list), me`held
  {
    && (forall k {:trigger HonestAt(list[k], me)} :: 0 <= k < |list| ==> HonestAt(list[k], me))
    && forall a :: a in me.held ==> exists k :: 0 <= k < |list| && list[k].pBt.address == a
  }

  /** The protocol has the Btrees as they are. */
  ghost predicate Shown(list: seq<Btree>, handles: seq<P.Handle>)
    reads list
  {
    && |handles| == |list|
    && forall k {:trigger handles[k]} :: 0 <= k < |list| ==>
        handles[k] == P.Handle(list[k].pBt.address, list[k].wantToLock, list[k].locked)
  }

  /** The connection inside a call, at the place where the protocol has it. */
  ghost predicate At(list: seq<Btree>, me: Thread, pc: P.Pc)
    reads list, me
  {
    Shown(list, me.conn.list) && me.conn.pc == pc && me.InStep()
  }

  ghost predicate Wanted(list: seq<Btree>)
    reads list
  {
    forall k {:trigger list[k].locked} :: 0 <= k < |list| ==> (list[k].locked <==> list[k].wantToLock > 0)
  }

  /** Between calls: locked are exactly the wanted ones. */
  ghost predicate Settled(list: seq<Btree>, me: Thread)
    reads list, Shared(list), me
  {
    Linked(list, me) && Honest(list, me) && At(list, me, P.Idle) && Wanted(list)
  }

  lemma Distinct(list: seq<Btree>, me: Thread)
    requires Linked(list, me)
    ensures forall j, k :: 0 <= j < k < |list| ==> list[j] != list[k] && list[j].pBt != list[k].pBt
  {
    forall j, k | 0 <= j < k < |list| ensures list[j] != list[k] && list[j].pBt != list[k].pBt {
      assert list[j].pBt.address < list[k].pBt.address;
    }
  }

  lemma Behind(list: seq<Btree>, me: Thread, k: nat, b: Btree)
    requires Linked(list, me) && k < |list| && list[k] == b
    ensures b.pNext == if k + 1 < |list| then list[k + 1] else null
  {
  }

  /** lockBtreeMutex */
  method LockBtreeMutex(p: Btree, me: Thread)
    requires !p.locked && p.pBt.holder != p.db && p.db == me.id != FREE
    requires forall a :: a in me.held ==> a < p.pBt.address
    modifies p`locked, p.pBt, me`held, me`calls
    ensures p.locked && HonestAt(p, me)
    ensures me.held == old(me.held) + {p.pBt.address} && me.calls == old(me.calls) + [P.EnterCall(p.pBt.address)]
  {
    p.pBt.EnterMutex(me);
    p.pBt.db := p.db;
    p.locked := true;
  }

  /** unlockBtreeMutex */
  method UnlockBtreeMutex(p: Btree, me: Thread)
    requires p.locked && HonestAt(p, me) && p.db == me.id != FREE
    modifies p`locked, p.pBt`holder, me`held, me`calls
    ensures !p.locked && HonestAt(p, me)
    ensures me.held == old(me.held) - {p.pBt.address} && me.calls == old(me.calls) + [P.LeaveCall(p.pBt.address)]
  {
    p.pBt.LeaveMutex(me);
    p.locked := false;
  }

  lemma LowerHeld(list: seq<Btree>, k: nat, me: Thread)
    requires Linked(list, me) && Honest(list, me) && k < |list| && forall j :: k <= j < |list| ==> !list[j].locked
    ensures forall a :: a in me.held ==> a < list[k].pBt.address
  {
    forall a | a in me.held ensures a < list[k].pBt.address {
      var j :| 0 <= j < |list| && list[j].pBt.address == a;
      assert HonestAt(list[j], me);
    }
  }

  /** Blocking on Btree k while nothing from it on is locked. */
  method LockAt(b: Btree, ghost list: seq<Btree>, ghost k: nat, me: Thread)
    requires Linked(list, me) && Honest(list, me) && k < |list| && list[k] == b
    requires forall j :: k <= j < |list| ==> !list[j].locked
    modifies b`locked, b.pBt, me`held, me`calls
    ensures Honest(list, me) && b.locked && me.calls == old(me.calls) + [P.EnterCall(b.pBt.address)]
    ensures forall j :: 0 <= j < |list| && j != k ==> list[j].locked == old(list[j].locked)
  {
    Distinct(list, me);
    assert HonestAt(b, me);
    LowerHeld(list, k, me);
    LockBtreeMutex(b, me);
    forall j | 0 <= j < |list| ensures HonestAt(list[j], me) {
      if j != k { assert old(HonestAt(list[j], me)); }
    }
  }

  method UnlockAt(b: Btree, ghost list: seq<Btree>, ghost k: nat, me: Thread)
    requires Linked(list, me) && Honest(list, me) && k < |list| && list[k] == b && b.locked
    modifies b`locked, b.pBt, me`held, me`calls
    ensures Honest(list, me) && !b.locked && me.calls == old(me.calls) + [P.LeaveCall(b.pBt.address)]
    ensures forall j :: 0 <= j < |list| && j != k ==> list[j].locked == old(list[j].locked)
  {
    Distinct(list, me);
    assert HonestAt(b, me);
    UnlockBtreeMutex(b, me);
    forall j | 0 <= j < |list| ensures HonestAt(list[j], me) {
      if j != k { assert old(HonestAt(list[j], me)); }
    }
  }

  method TryAt(b: Btree, ghost list: seq<Btree>, ghost k: nat, me: Thread) returns (ok: bool)
    requires Linked(list, me) && Honest(list, me) && k < |list| && list[k] == b && !b.locked
    modifies b`locked, b.pBt, me`held, me`calls
    ensures Honest(list, me) && b.locked == ok && me.calls == old(me.calls) + [P.TryCall(b.pBt.address, ok)]
    ensures forall j :: 0 <= j < |list| && j != k ==> list[j].locked == old(list[j].locked)
  {
    Distinct(list, me);
    assert HonestAt(b, me);
    ok := b.pBt.Try(me);
    if ok {
      b.pBt.db := b.db;
      b.locked := true;
    }
    forall j | 0 <= j < |list| ensures HonestAt(list[j], me) {
      if j != k { assert old(HonestAt(list[j], me)); }
    }
  }

  /** The protocol makes the step that the code has just made. */
  ghost method Sync(list: seq<Btree>, me: Thread, step: P.Step, before: seq<P.MutexCall>)
    requires P.Walk(me.start, me.steps, before, me.conn) && P.Due(me.conn, step)
    requires me.calls == before + P.CallsOf(me.conn, step) && Shown(list, P.ConnNext(me.conn, step).list)
    modifies me`conn, me`steps
    ensures At(list, me, P.PcAfter(old(me.conn), step)) && me.steps == old(me.steps) + [step]
  {
    me.Advance(step, before);
  }

  /** The steps that were made since are parts of one call. */
  ghost predicate Within(was: seq<P.Step>, now: seq<P.Step>) {
    was <= now && forall j :: |was| <= j < |now| ==> !now[j].Enter? && !now[j].Leave?
  }

  /** The steps that were made since are those of one call, which starts with `step`. */
  ghost predicate OneCall(was: seq<P.Step>, step: P.Step, now: seq<P.Step>) {
    Within(was + [step], now)
  }

  lemma WithinNext(a: seq<P.Step>, b: seq<P.Step>, step: P.Step)
    requires Within(a, b) && !step.Enter? && !step.Leave?
    ensures Within(a, b + [step])
  {
  }

  lemma WithinJoin(a: seq<P.Step>, b: seq<P.Step>, c: seq<P.Step>)
    requires Within(a, b) && Within(b, c)
    ensures Within(a, c)
  {
    assert a <= c;
    forall j | |a| <= j < |c| ensures !c[j].Enter? && !c[j].Leave? {
      if j < |b| { assert c[j] == b[j]; }
    }
  }

  method TryLock(p: Btree, ghost list: seq<Btree>, ghost i: nat, me: Thread) returns (ok: bool)
    requires Linked(list, me) && Honest(list, me) && At(list, me, P.Try(i))
    requires i < |list| && list[i] == p && !p.locked
    modifies p`locked, p.pBt, me
    ensures Honest(list, me) && At(list, me, if ok then P.Idle else P.Release(i, i + 1)) && p.locked == ok
    ensures me.steps == old(me.steps) + [if ok then P.TryOk else P.TryFail]
    ensures forall j :: 0 <= j < |list| && j != i ==> list[j].locked == old(list[j].locked)
  {
    Distinct(list, me);
    ghost var before := me.calls;
    ok := TryAt(p, list, i, me);
    Sync(list, me, if ok then P.TryOk else P.TryFail, before);
  }

  /** The blocking lock of the Btree itself. */
  method Acquire(p: Btree, ghost list: seq<Btree>, ghost i: nat, me: Thread)
    requires Linked(list, me) && Honest(list, me) && At(list, me, P.Acquire(i))
    requires i < |list| && list[i] == p && forall j :: i <= j < |list| ==> !list[j].locked
    modifies p`locked, p.pBt, me
    ensures Honest(list, me) && At(list, me, P.Relock(i, i + 1)) && p.locked
    ensures me.steps == old(me.steps) + [P.AcquireOne]
    ensures forall j :: 0 <= j < |list| && j != i ==> list[j].locked == old(list[j].locked)
  {
    Distinct(list, me);
    ghost var before := me.calls;
    LockAt(p, list, i, me);
    Sync(list, me, P.AcquireOne, before);
  }

  /** One round of the releasing loop. */
  method ReleaseOne(b: Btree, ghost list: seq<Btree>, ghost i: nat, ghost k: nat, me: Thread)
    requires Linked(list, me) && Honest(list, me) && At(list, me, P.Release(i, k)) && k < |list| && list[k] == b
    modifies b`locked, b.pBt, me
    ensures Honest(list, me) && At(list, me, P.Release(i, k + 1)) && !b.locked
    ensures me.steps == old(me.steps) + [P.ReleaseOne]
    ensures forall j :: 0 <= j < |list| && j != k ==> list[j].locked == old(list[j].locked)
  {
    Distinct(list, me);
    ghost var before := me.calls;
    if b.locked { UnlockAt(b, list, k, me); }
    Sync(list, me, P.ReleaseOne, before);
  }

  lemma FlagsNow(list: seq<Btree>) returns (flags: seq<bool>)
    ensures |flags| == |list| && forall j :: 0 <= j < |list| ==> flags[j] == list[j].locked
  {
    flags := [];
    for n := 0 to |list|
      invariant |flags| == n && forall j :: 0 <= j < n ==> flags[j] == list[j].locked
    {
      flags := flags + [list[n].locked];
    }
  }

  /** The releasing loop before position k: the Btrees behind i that it has passed are not locked any more. */
  ghost predicate Releasing(list: seq<Btree>, me: Thread, i: nat, k: nat, orig: seq<bool>, was: seq<P.Step>)
    reads list, Shared(list), me
  {
    && Linked(list, me) && Honest(list, me) && At(list, me, P.Release(i, k)) && Within(was, me.steps)
    && |orig| == |list|
    && forall j :: 0 <= j < |list| ==> list[j].locked == (orig[j] && !(i < j < k))
  }

  method ReleaseRound(b: Btree, ghost list: seq<Btree>, ghost i: nat, ghost k: nat, me: Thread,
          ghost orig: seq<bool>, ghost was: seq<P.Step>)
    returns (pLater: Btree?, ghost next: nat)
    requires Releasing(list, me, i, k, orig, was) && i < k < |list| && list[k] == b
    modifies b`locked, b.pBt, me
    ensures next == k + 1 && Releasing(list, me, i, next, orig, was)
    ensures pLater == if next < |list| then list[next] else null
  {
    Behind(list, me, k, b);
    WithinNext(was, me.steps, P.ReleaseOne);
    ReleaseOne(b, list, i, k, me);
    pLater, next := b.pNext, k + 1;
  }

  /** The loop over the Btrees behind p that gives their locks up. */
  method ReleaseLater(p: Btree, ghost list: seq<Btree>, ghost i: nat, me: Thread,
          ghost orig: seq<bool>, ghost was: seq<P.Step>)
    requires Releasing(list, me, i, i + 1, orig, was) && i < |list| && list[i] == p
    modifies me
    modifies set b | b in list :: b`locked
    modifies Shared(list)
    ensures Linked(list, me) && Honest(list, me) && At(list, me, P.Acquire(i)) && Within(was, me.steps)
    ensures forall j :: 0 <= j < |list| ==> list[j].locked == (orig[j] && j <= i)
  {
    Behind(list, me, i, p);
    var pLater := p.pNext;
    ghost var k := i + 1;
    while pLater != null
      invariant i < k <= |list| && pLater == (if k < |list| then list[k] else null)
      invariant Releasing(list, me, i, k, orig, was)
      decreases |list| - k
    {
      assert pLater in list && pLater.pBt in Shared(list);
      pLater, k := ReleaseRound(pLater, list, i, k, me, orig, was);
    }
    WithinNext(was, me.steps, P.ReleaseOne);
    Sync(list, me, P.ReleaseOne, me.calls);
  }

  /** One round of the relocking loop. */
  method RelockOne(b: Btree, ghost list: seq<Btree>, ghost i: nat, ghost k: nat, me: Thread)
    requires Linked(list, me) && Honest(list, me) && At(list, me, P.Relock(i, k)) && k < |list| && list[k] == b
    requires forall j :: k <= j < |list| ==> !list[j].locked
    modifies b`locked, b.pBt, me
    ensures Honest(list, me) && At(list, me, P.Relock(i, k + 1)) && me.steps == old(me.steps) + [P.RelockOne]
    ensures b.locked <==> b.wantToLock > 0
    ensures forall j :: 0 <= j < |list| && j != k ==> list[j].locked == old(list[j].locked)
  {
    Distinct(list, me);
    ghost var before := me.calls;
    if b.wantToLock > 0 { LockAt(b, list, k, me); }
    Sync(list, me, P.RelockOne, before);
  }

  /** The relocking loop before position k: the Btrees behind i that it has passed are locked if they are wanted. */
  ghost predicate Relocking(list: seq<Btree>, me: Thread, i: nat, k: nat, orig: seq<bool>, was: seq<P.Step>)
    reads list, Shared(list), me
  {
    && Linked(list, me) && Honest(list, me) && At(list, me, P.Relock(i, k)) && Within(was, me.steps)
    && |orig| == |list|
    && forall j :: 0 <= j < |list| ==> list[j].locked == if i < j then j < k && list[j].wantToLock > 0 else orig[j]
  }

  method RelockRound(b: Btree, ghost list: seq<Btree>, ghost i: nat, ghost k: nat, me: Thread,
          ghost orig: seq<bool>, ghost was: seq<P.Step>)
    returns (pLater: Btree?, ghost next: nat)
    requires Relocking(list, me, i, k, orig, was) && i < k < |list| && list[k] == b
    modifies b`locked, b.pBt, me
    ensures next == k + 1 && Relocking(list, me, i, next, orig, was)
    ensures pLater == if next < |list| then list[next] else null
  {
    Behind(list, me, k, b);
    WithinNext(was, me.steps, P.RelockOne);
    RelockOne(b, list, i, k, me);
    pLater, next := b.pNext, k + 1;
  }

  /** The loop over the Btrees behind p that takes their locks again. */
  method RelockLater(p: Btree, ghost list: seq<Btree>, ghost i: nat, me: Thread,
          ghost orig: seq<bool>, ghost was: seq<P.Step>)
    requires Relocking(list, me, i, i + 1, orig, was) && i < |list| && list[i] == p
    modifies me
    modifies set b | b in list :: b`locked
    modifies Shared(list)
    ensures Linked(list, me) && Honest(list, me) && At(list, me, P.Idle) && Within(was, me.steps)
    ensures forall j :: 0 <= j < |list| ==> list[j].locked == if i < j then list[j].wantToLock > 0 else orig[j]
  {
    Behind(list, me, i, p);
    var pLater := p.pNext;
    ghost var k := i + 1;
    while pLater != null
      invariant i < k <= |list| && pLater == (if k < |list| then list[k] else null)
      invariant Relocking(list, me, i, k, orig, was)
      decreases |list| - k
    {
      assert pLater in list && pLater.pBt in Shared(list);
      pLater, k := RelockRound(pLater, list, i, k, me, orig, was);
    }
    WithinNext(was, me.steps, P.RelockOne);
    Sync(list, me, P.RelockOne, me.calls);
  }

  /** btreeLockCarefully: take the lock at position i, backing off from the later ones if it is not free. */
  method BtreeLockCarefully(p: Btree, ghost list: seq<Btree>, ghost i: nat, me: Thread)
    requires Linked(list, me) && Honest(list, me) && At(list, me, P.Try(i))
    requires i < |list| && list[i] == p && p.wantToLock > 0 && !p.locked
    requires forall k :: 0 <= k < |list| && k != i ==> (list[k].locked <==> list[k].wantToLock > 0)
    modifies me
    modifies set b | b in list :: b`locked
    modifies Shared(list)
    ensures Settled(list, me) && Within(old(me.steps), me.steps)
  {
    assert p in list && p.pBt in Shared(list);
    var ok := TryLock(p, list, i, me);
    if ok { return; }
    BackOff(p, list, i, me);
  }

  /** What follows a failed try: the later locks are given up before the thread waits, and taken again in order. */
  method BackOff(p: Btree, ghost list: seq<Btree>, ghost i: nat, me: Thread)
    requires Linked(list, me) && Honest(list, me) && At(list, me, P.Release(i, i + 1))
    requires i < |list| && list[i] == p && p.wantToLock > 0 && !p.locked
    requires forall k :: 0 <= k < |list| && k != i ==> (list[k].locked <==> list[k].wantToLock > 0)
    modifies me
    modifies set b | b in list :: b`locked
    modifies Shared(list)
    ensures Settled(list, me) && Within(old(me.steps), me.steps)
  {
    ghost var was := me.steps;
    ghost var orig := FlagsNow(list);
    ReleaseLater(p, list, i, me, orig, was);
    TakeAgain(p, list, i, me, orig, was);
  }

  /** The blocking lock and the loop behind it. */
  method TakeAgain(p: Btree, ghost list: seq<Btree>, ghost i: nat, me: Thread,
          ghost orig: seq<bool>, ghost was: seq<P.Step>)
    requires Linked(list, me) && Honest(list, me) && At(list, me, P.Acquire(i)) && Within(was, me.steps)
    requires i < |list| == |orig| && list[i] == p && p.wantToLock > 0 && !orig[i]
    requires forall j :: 0 <= j < |list| ==> list[j].locked == (orig[j] && j <= i)
    requires forall j :: 0 <= j < |list| && j != i ==> orig[j] == (list[j].wantToLock > 0)
    modifies me
    modifies set b | b in list :: b`locked
    modifies Shared(list)
    ensures Settled(list, me) && Within(was, me.steps)
  {
    assert p in list && p.pBt in Shared(list);
    WithinNext(was, me.steps, P.AcquireOne);
    Acquire(p, list, i, me);
    RelockLater(p, list, i, me, orig[i := true], was);
  }

  /** sqlite3BtreeEnter: the mutex calls are the steps of one call of the protocol. */
  method BtreeEnter(p: Btree, ghost list: seq<Btree>, me: Thread)
    requires Settled(list, me) && (p.sharable ==> p in list)
    modifies p`wantToLock, me
    modifies set b | b in list :: b`locked
    modifies Shared(list)
    ensures Settled(list, me)
    ensures p.wantToLock == old(p.wantToLock) + (if p.sharable then 1 else 0)
    ensures forall i :: 0 <= i < |list| && list[i] == p ==> OneCall(old(me.steps), P.Enter(i), me.steps)
    ensures !p.sharable ==> me.steps == old(me.steps)
  {
    if p.sharable {
      Distinct(list, me);
      ghost var i: nat :| i < |list| && list[i] == p;
      EnterListed(p, list, i, me);
    }
  }

  method EnterListed(p: Btree, ghost list: seq<Btree>, ghost i: nat, me: Thread)
    requires Settled(list, me) && i < |list| && list[i] == p
    modifies p`wantToLock, me
    modifies set b | b in list :: b`locked
    modifies Shared(list)
    ensures Settled(list, me) && p.wantToLock == old(p.wantToLock) + 1
    ensures OneCall(old(me.steps), P.Enter(i), me.steps)
  {
    Distinct(list, me);
    CountUp(p, list, i, me);
    if p.locked { return; }
    BtreeLockCarefully(p, list, i, me);
  }

  method CountUp(p: Btree, ghost list: seq<Btree>, ghost i: nat, me: Thread)
    requires Linked(list, me) && At(list, me, P.Idle) && i < |list| && list[i] == p
    modifies p`wantToLock, me`conn, me`steps
    ensures At(list, me, if p.locked then P.Idle else P.Try(i)) && me.steps == old(me.steps) + [P.Enter(i)]
    ensures p.wantToLock == old(p.wantToLock) + 1
  {
    Distinct(list, me);
    p.wantToLock := p.wantToLock + 1;
    Sync(list, me, P.Enter(i), me.calls);
  }

  /** sqlite3BtreeLeave, for a Btree that was entered: one step of the protocol. */
  method BtreeLeave(p: Btree, ghost list: seq<Btree>, me: Thread)
    requires Settled(list, me) && (p.sharable ==> p in list && p.wantToLock > 0)
    modifies p`wantToLock, p`locked, p.pBt, me
    ensures Settled(list, me)
    ensures p.wantToLock == old(p.wantToLock) - (if p.sharable then 1 else 0)
    ensures forall i :: 0 <= i < |list| && list[i] == p ==> me.steps == old(me.steps) + [P.Leave(i)]
    ensures !p.sharable ==> me.steps == old(me.steps)
  {
    if p.sharable {
      Distinct(list, me);
      ghost var i: nat :| i < |list| && list[i] == p;
      LeaveListed(p, list, i, me);
    }
  }

  method LeaveListed(p: Btree, ghost list: seq<Btree>, ghost i: nat, me: Thread)
    requires Settled(list, me) && i < |list| && list[i] == p && p.wantToLock > 0
    modifies p`wantToLock, p`locked, p.pBt, me
    ensures Settled(list, me) && p.wantToLock == old(p.wantToLock) - 1 && me.steps == old(me.steps) + [P.Leave(i)]
  {
    Distinct(list, me);
    ghost var before := me.calls;
    CountDown(p, list, i, me);
    Sync(list, me, P.Leave(i), before);
  }

  /** Counting down, and unlocking at zero. */
  method CountDown(p: Btree, ghost list: seq<Btree>, ghost i: nat, me: Thread)
    requires Linked(list, me) && Honest(list, me) && Wanted(list) && i < |list| && list[i] == p && p.wantToLock > 0
    modifies p`wantToLock, p`locked, p.pBt, me`held, me`calls
    ensures Linked(list, me) && Honest(list, me) && Wanted(list) && p.wantToLock == old(p.wantToLock) - 1
    ensures me.calls == old(me.calls) + (if p.wantToLock == 0 then [P.LeaveCall(p.pBt.address)] else [])
  {
    Distinct(list, me);
    p.wantToLock := p.wantToLock - 1;
    if p.wantToLock == 0 { UnlockAt(p, list, i, me); }
  }

  /** Number of times a call that visits the first n slots touches b. */
  ghost function Visits(slots: seq<Btree?>, b: Btree, n: nat): nat
    requires n <= |slots|
  {
    if n == 0 then 0 else Visits(slots, b, n - 1) + (if slots[n - 1] == b then 1 else 0)
  }

  lemma VisitsGrow(slots: seq<Btree?>, b: Btree, m: nat, n: nat)
    requires m <= n <= |slots|
    ensures Visits(slots, b, m) <= Visits(slots, b, n)
  {
    if m < n { VisitsGrow(slots, b, m, n - 1); }
  }

  predicate Unshared(slots: seq<Btree?>, n: nat)
    requires n <= |slots|
  {
    forall j :: 0 <= j < n && slots[j] != null ==> !slots[j].sharable
  }

  lemma UnsharedNext(slots: seq<Btree?>, n: nat)
    requires n < |slots|
    ensures Unshared(slots, n + 1) == (Unshared(slots, n) && !(slots[n] != null && slots[n].sharable))
  {
  }

  lemma UnsharedVisits(slots: seq<Btree?>, b: Btree, n: nat)
    requires n <= |slots| && Unshared(slots, n) && b.sharable
    ensures Visits(slots, b, n) == 0
  {
    if n > 0 { UnsharedVisits(slots, b, n - 1); }
  }

  /** Between calls, with the sharable ones of these slots among the Btrees of the list. */
  ghost predicate Ready(slots: seq<Btree?>, list: seq<Btree>, me: Thread)
    reads list, Shared(list), me
  {
    Settled(list, me) && forall i :: 0 <= i < |slots| && slots[i] != null && slots[i].sharable ==> slots[i] in list
  }

  /** The counts before a loop, with one more or one less for each visit in the first n slots. */
  ghost predicate Counted(slots: seq<Btree?>, list: seq<Btree>, counts: seq<int>, up: bool, n: nat)
    reads list`wantToLock
  {
    && |counts| == |list| && n <= |slots|
    && forall k :: 0 <= k < |list| ==>
        if up then list[k].wantToLock == counts[k] + Visits(slots, list[k], n)
        else list[k].wantToLock == counts[k] - Visits(slots, list[k], n)
  }

  lemma CountsNow(slots: seq<Btree?>, list: seq<Btree>, up: bool) returns (counts: seq<int>)
    ensures Counted(slots, list, counts, up, 0) && forall k :: 0 <= k < |list| ==> counts[k] == list[k].wantToLock
  {
    counts := [];
    for n := 0 to |list|
      invariant |counts| == n && forall k :: 0 <= k < n ==> counts[k] == list[k].wantToLock
    {
      counts := counts + [list[n].wantToLock];
    }
  }

  /** The loop body of btreeEnterAll for slot i. */
  method EnterSlot(slots: seq<Btree?>, i: nat, skipOk: bool, ghost list: seq<Btree>, me: Thread, ghost counts: seq<int>)
    returns (r: bool)
    requires Ready(slots, list, me) && Counted(slots, list, counts, true, i)
    requires i < |slots| && skipOk == Unshared(slots, i)
    modifies me
    modifies set b | b in list :: b`wantToLock
    modifies set b | b in list :: b`locked
    modifies Shared(list)
    ensures Ready(slots, list, me) && Counted(slots, list, counts, true, i + 1) && r == Unshared(slots, i + 1)
  {
    Distinct(list, me);
    UnsharedNext(slots, i);
    var p := slots[i];
    r := skipOk;
    if p != null && p.sharable {
      BtreeEnter(p, list, me);
      r := false;
    }
  }

  /** The loop of btreeEnterAll. */
  method EnterSlots(slots: seq<Btree?>, ghost list: seq<Btree>, me: Thread, ghost counts: seq<int>)
    returns (skipOk: bool)
    requires Ready(slots, list, me) && Counted(slots, list, counts, true, 0)
    modifies me
    modifies set b | b in list :: b`wantToLock
    modifies set b | b in list :: b`locked
    modifies Shared(list)
    ensures Ready(slots, list, me) && Counted(slots, list, counts, true, |slots|) && skipOk == Unshared(slots, |slots|)
  {
    skipOk := true;
    for i := 0 to |slots|
      invariant Ready(slots, list, me) && Counted(slots, list, counts, true, i) && skipOk == Unshared(slots, i)
    {
      skipOk := EnterSlot(slots, i, skipOk, list, me, counts);
    }
  }

  /** The loop body of sqlite3BtreeLeaveAll for slot i. */
  method LeaveSlot(slots: seq<Btree?>, i: nat, ghost list: seq<Btree>, me: Thread, ghost counts: seq<int>)
    requires Ready(slots, list, me) && Counted(slots, list, counts, false, i) && i < |slots|
    requires forall k :: 0 <= k < |list| ==> counts[k] >= Visits(slots, list[k], |slots|)
    modifies me
    modifies set b | b in list :: b`wantToLock
    modifies set b | b in list :: b`locked
    modifies Shared(list)
    ensures Ready(slots, list, me) && Counted(slots, list, counts, false, i + 1)
  {
    Distinct(list, me);
    var p := slots[i];
    if p != null && p.sharable {
      VisitsGrow(slots, p, i + 1, |slots|);
      BtreeLeave(p, list, me);
    }
  }

  /** The loop of sqlite3BtreeLeaveAll. */
  method LeaveSlots(slots: seq<Btree?>, ghost list: seq<Btree>, me: Thread, ghost counts: seq<int>)
    requires Ready(slots, list, me) && Counted(slots, list, counts, false, 0)
    requires forall k :: 0 <= k < |list| ==> counts[k] >= Visits(slots, list[k], |slots|)
    modifies me
    modifies set b | b in list :: b`wantToLock
    modifies set b | b in list :: b`locked
    modifies Shared(list)
    ensures Ready(slots, list, me) && Counted(slots, list, counts, false, |slots|)
  {
    for i := 0 to |slots|
      invariant Ready(slots, list, me) && Counted(slots, list, counts, false, i)
    {
      LeaveSlot(slots, i, list, me, counts);
    }
  }

  /** A database connection; each slot of aDb has its own Btree. */
  class Connection {
    const me: Thread
    var aDb: seq<Btree?>
    var noSharedCache: bool
    ghost var list: seq<Btree>

    constructor (me: Thread)
      ensures this.me == me && aDb == [] && list == [] && !noSharedCache
    {
      this.me := me;
      aDb, list, noSharedCache := [], [], false;
    }

    ghost predicate Valid()
      reads this, list, Shared(list), me
    {
      Ready(aDb, list, me)
    }

    /** sqlite3BtreeEnterAll */
    method EnterAll()
      requires Valid()
      modifies this`noSharedCache
      modifies me
      modifies set b | b in list :: b`wantToLock
      modifies set b | b in list :: b`locked
      modifies Shared(list)
      ensures Valid()
      ensures noSharedCache == (old(noSharedCache) || Unshared(aDb, |aDb|))
      ensures forall k :: 0 <= k < |list| ==>
                list[k].wantToLock ==
                old(list[k].wantToLock) + (if old(noSharedCache) then 0 else Visits(aDb, list[k], |aDb|))
    {
      if noSharedCache { return; }
      ghost var counts := CountsNow(aDb, list, true);
      noSharedCache := EnterSlots(aDb, list, me, counts);
    }

    /** sqlite3BtreeLeaveAll. The original also calls Leave for Btrees that are not sharable, which ignores them. */
    method LeaveAll()
      requires Valid()
      requires !noSharedCache ==> forall k :: 0 <= k < |list| ==> list[k].wantToLock >= Visits(aDb, list[k], |aDb|)
      modifies me
      modifies set b | b in list :: b`wantToLock
      modifies set b | b in list :: b`locked
      modifies Shared(list)
      ensures Valid()
      ensures forall k :: 0 <= k < |list| ==>
                list[k].wantToLock ==
                old(list[k].wantToLock) - (if noSharedCache then 0 else Visits(aDb, list[k], |aDb|))
    {
      if noSharedCache { return; }
      ghost var counts := CountsNow(aDb, list, false);
      LeaveSlots(aDb, list, me, counts);
    }

    /** Wanted, locked and owned are the same Btrees. */
    lemma Owned()
      requires Valid()
      ensures forall k :: 0 <= k < |list| ==>
        (list[k].locked <==> list[k].wantToLock > 0) && (list[k].pBt.holder == me.id <==> list[k].wantToLock > 0)
    {
      forall k | 0 <= k < |list|
        ensures list[k].locked <==> list[k].wantToLock > 0
        ensures list[k].pBt.holder == me.id <==> list[k].wantToLock > 0
      {
        assert HonestAt(list[k], me);
      }
    }

    /** EnterAll followed by LeaveAll over the same aDb restores every count and every lock. */
    method EnterAllLeaveAll()
      requires Valid()
      modifies this`noSharedCache
      modifies me
      modifies set b | b in list :: b`wantToLock
      modifies set b | b in list :: b`locked
      modifies Shared(list)
      ensures Valid()
      ensures forall k :: 0 <= k < |list| ==>
        list[k].wantToLock == old(list[k].wantToLock) && list[k].locked == old(list[k].locked)
      ensures forall k :: 0 <= k < |list| ==> (list[k].pBt.holder == me.id <==> old(list[k].pBt.holder) == me.id)
    {
      Owned();
      var skipped := noSharedCache;
      EnterAll();
      if noSharedCache && !skipped { NoVisits(); }
      LeaveAll();
      Owned();
    }

    lemma NoVisits()
      requires Valid() && Unshared(aDb, |aDb|)
      ensures forall k :: 0 <= k < |list| ==> Visits(aDb, list[k], |aDb|) == 0
    {
      forall k | 0 <= k < |list| ensures Visits(aDb, list[k], |aDb|) == 0 {
        assert list[k].sharable;
        UnsharedVisits(aDb, list[k], |aDb|);
      }
    }
  }
}
