/** What every run of a backup keeps, whatever the two page sizes and whatever the source does in between. */
module BackupRun {
  import opened BackupPages
  import opened BackupCopy
  import opened BackupSteps

  /** The destination has the source's byte at offset o; the page count of the header may differ. */
  predicate SameAt(src: seq<Page>, size: nat, d: Dest, o: nat)
    requires Paged(src, size) && Holds(src, size, o) && DestOk(d)
  {
    Holds(d.pages, d.size, o) && (At(d.pages, d.size, o) == At(src, size, o) || CountField(o))
  }

  /** Offset o is in a source page that the copying loop copies into a page of the destination. */
  predicate Copyable(size: nat, destSize: nat, o: nat)
    requires PageSize(size) && PageSize(destSize)
  {
    PageOf(size, o) != PendingPage(size) && PageOf(destSize, o) != PendingPage(destSize)
  }

  /** Every source page before page n has its present content in the destination. */
  ghost predicate Current(src: seq<Page>, size: nat, d: Dest, n: nat)
    requires Paged(src, size) && DestOk(d)
  {
    forall o: nat :: Holds(src, size, o) && PageOf(size, o) < n && Copyable(size, d.size, o) ==> SameAt(src, size, d, o)
  }

  datatype World = World(src: seq<Page>, b: Backup)

  /** The file is as long as the pager takes it to be. */
  predicate FileKnown(d: Dest) {
    |d.file| == d.tx.filePages * d.size
  }

  /** A rollback is still possible, and no page has been dropped. */
  predicate TxOpen(d: Dest) {
    d.tx.active && FileKnown(d) && d.tx.filePages <= |d.pages|
  }

  ghost predicate Inv(w: World, size: nat) {
    && Paged(w.src, size) && BackupOk(w.b)
    && (!Fatal(w.b.rc) ==>
      && Current(w.src, size, w.b.dest, w.b.iNext)
      && (w.b.attached || w.b.iNext == 1)
      && (if w.b.locked then TxOpen(w.b.dest) else w.b.iNext == 1))
  }

  /** Getting, writing and committing pages either succeeds or fails for good. */
  predicate Hard(rc: Rc) {
    rc == OK || (Fatal(rc) && rc != DONE)
  }

  ghost predicate HardEnv(env: Env) {
    && (forall k :: Hard(env.get(k))) && (forall k :: Hard(env.put(k)))
    && (forall k :: Hard(env.journal(k))) && (forall k :: Hard(env.write(k)))
    && Hard(env.newDb) && Hard(env.meta) && Hard(env.version) && Hard(env.phaseOne)
    && Hard(env.truncate) && Hard(env.sync) && Hard(env.phaseTwo)
  }

  lemma {:induction false} CopyBlocksHard(d: Dest, srcSize: nat, data: Page, off: nat, end: nat, count: Option<nat>,
          put: nat -> Rc, r: Dest, rc: Rc)
    requires BlocksLeft(d, srcSize, data, off, end) && forall k :: Hard(put(k))
    requires CopyBlocks(d, srcSize, data, off, end, count, put) == (r, rc)
    ensures Hard(rc)
    decreases end - off
  {
    if off < end {
      var k := PageOf(d.size, off);
      var first := if k == PendingPage(d.size) then OK else put(k);
      var e := if first == OK then Round(d, srcSize, data, off, count) else d;
      RoundComesTo(d, srcSize, data, off, end, count, put, first, e, (r, rc));
      if first == OK {
        CopyBlocksHard(e, srcSize, data, off + d.size, end, count, put, r, rc);
      }
    }
  }

  lemma CopyPageHard(d: Dest, size: nat, k: nat, data: Page, count: Option<nat>, put: nat -> Rc, r: Dest, rc: Rc)
    requires DestOk(d) && PageSize(size) && |data| == size && k >= 1 && forall j :: Hard(put(j))
    requires CopyPage(d, size, k, data, count, put) == (r, rc)
    ensures Hard(rc)
  {
    PageBlocks(d, size, k, data);
    if !(size != d.size && d.memdb) {
      CopyBlocksHard(d, size, data, (k - 1) * size, k * size, count, put, r, rc);
    }
  }

  lemma CopyPageKeepsAt(src: seq<Page>, size: nat, k: nat, count: Option<nat>, put: nat -> Rc, d: Dest, r: Dest,
          was: seq<Page>, o: nat)
    requires Paged(src, size) && Paged(was, size) && DestOk(d) && 1 <= k <= |src|
    requires CopyPage(d, size, k, src[k - 1], count, put) == (r, OK)
    requires Holds(src, size, o) && Copyable(size, d.size, o)
    requires PageOf(size, o) != k ==>
      Holds(was, size, o) && SameAt(was, size, d, o) && src[PageOf(size, o) - 1] == was[PageOf(size, o) - 1]
    ensures DestOk(r) && SameAt(src, size, r, o)
  {
    if PageOf(size, o) == k {
      CopyPageAt(d, size, k, src[k - 1], count, put, r, o);
    } else {
      CopyPageElsewhere(d, size, k, src[k - 1], count, put, r, OK, o);
    }
  }

  predicate SamePageAt(src: seq<Page>, was: seq<Page>, i: nat) {
    i < |src| && i < |was| && src[i] == was[i]
  }

  /** A page copied as it now is in the source joins those that were current. */
  lemma CopyPageKeeps(src: seq<Page>, size: nat, k: nat, count: Option<nat>, put: nat -> Rc, d: Dest, r: Dest,
          was: seq<Page>, n: nat)
    requires Paged(src, size) && Paged(was, size) && DestOk(d) && 1 <= k <= |src| && n >= 1
    requires CopyPage(d, size, k, src[k - 1], count, put) == (r, OK)
    requires Current(was, size, d, n)
    requires forall i: nat :: i < |src| && i != k - 1 && i < n - 1 ==> SamePageAt(src, was, i)
    ensures DestOk(r)
    ensures Current(src, size, r, if k == n then n + 1 else n)
  {
    var m := if k == n then n + 1 else n;
    forall o: nat | Holds(src, size, o) && PageOf(size, o) < m && Copyable(size, r.size, o)
      ensures SameAt(src, size, r, o)
    {
      var i := PageOf(size, o) - 1;
      assert i != k - 1 ==> SamePageAt(src, was, i);
      CopyPageKeepsAt(src, size, k, count, put, d, r, was, o);
    }
  }

  lemma PassUnused(src: seq<Page>, size: nat, d: Dest, n: nat)
    requires Paged(src, size) && DestOk(d) && Current(src, size, d, n) && n == PendingPage(size)
    ensures Current(src, size, d, n + 1)
  {
    forall o: nat | Holds(src, size, o) && PageOf(size, o) < n + 1 && Copyable(size, d.size, o)
      ensures SameAt(src, size, d, o)
    {
      assert PageOf(size, o) < n;
    }
  }

  lemma CopyPageTaken(src: seq<Page>, size: nat, k: nat, put: nat -> Rc, d: Dest, r: Dest, rc: Rc)
    requires Paged(src, size) && DestOk(d) && 1 <= k <= |src| && forall j :: Hard(put(j))
    requires CopyPage(d, size, k, src[k - 1], Some(|src|), put) == (r, rc) && Current(src, size, d, k)
    ensures DestOk(r) && Hard(rc)
    ensures rc == OK ==> Current(src, size, r, k + 1)
  {
    CopyPageHard(d, size, k, src[k - 1], Some(|src|), put, r, rc);
    if rc == OK {
      CopyPageKeeps(src, size, k, Some(|src|), put, d, r, src, k);
    }
  }

  lemma CopyNextKeeps(b: Backup, src: seq<Page>, size: nat, env: Env, e: Backup, rc: Rc)
    requires BackupOk(b) && Paged(src, size) && b.iNext <= |src| && (e, rc) == CopyNext(b, src, size, env)
    requires Current(src, size, b.dest, b.iNext) && HardEnv(env)
    ensures Hard(rc)
    ensures rc == OK ==> Current(src, size, e.dest, e.iNext)
  {
    var k := b.iNext;
    if k == PendingPage(size) {
      PassUnused(src, size, b.dest, k);
    } else if env.get(k) == OK {
      CopyPageTaken(src, size, k, env.put, b.dest, e.dest, rc);
    }
  }

  /** The copying loop, from any point: unless it fails for good, everything before iNext is current. */
  lemma {:induction false} CopyLoopKeeps(b: Backup, src: seq<Page>, size: nat, rc: Rc, ii: nat, nPage: int, env: Env,
          e: Backup, end: Rc)
    requires BackupOk(b) && Paged(src, size) && (e, end) == CopyLoop(b, src, size, rc, ii, nPage, env) && HardEnv(env)
    requires Current(src, size, b.dest, b.iNext)
    ensures rc != OK ==> e == b && end == rc
    ensures rc == OK ==> Hard(end)
    ensures rc == OK && end == OK ==> Current(src, size, e.dest, e.iNext)
    decreases |src| + 1 - b.iNext
  {
    if (nPage < 0 || ii < nPage) && b.iNext <= |src| && rc == OK {
      var (c, next) := CopyNext(b, src, size, env);
      CopyNextKeeps(b, src, size, env, c, next);
      if next == OK {
        CopyLoopKeeps(c, src, size, next, ii + 1, nPage, env, e, end);
      }
    }
  }

  lemma BeginKeeps(b: Backup, src: seq<Page>, size: nat, env: Env, e: Backup, rc: Rc)
    requires BackupOk(b) && EnvOk(b, env) && Paged(src, size) && (e, rc) == Begin(b, size, env)
    requires Current(src, size, b.dest, b.iNext) && if b.locked then TxOpen(b.dest) else b.iNext == 1
    ensures Current(src, size, e.dest, e.iNext) && rc != DONE
    ensures if e.locked then TxOpen(e.dest) else e.iNext == 1
    ensures rc == OK ==> e.locked
  {
    FlattenLength(env.found.pages, env.found.size);
  }

  /** The tail of a step ends in DONE or a fatal code. */
  lemma {:induction false} JournalTailHard(d: Dest, k: nat, last: nat, journal: nat -> Rc, r: Dest, rc: Rc)
    requires DestOk(d) && k >= 1 && (forall j :: Hard(journal(j))) && (r, rc) == JournalTail(d, k, last, journal)
    ensures Hard(rc)
    decreases last + 1 - k
  {
    if k <= last && k == PendingPage(d.size) {
      JournalTailHard(d, k + 1, last, journal, r, rc);
    } else if k <= last && journal(k) == OK {
      JournalTailHard(PagerWrite(d, k), k + 1, last, journal, r, rc);
    }
  }

  lemma {:induction false} WriteExtraHard(file: seq<byte>, src: seq<Page>, size: nat, off: nat, end: nat,
          write: nat -> Rc, r: seq<byte>, rc: Rc)
    requires HasBytes(src, size, off, end) && forall j :: Hard(write(j))
    requires WriteExtra(file, src, size, off, end, write) == (r, rc)
    ensures Hard(rc)
    decreases end - off
  {
    if off < end {
      assert Holds(src, size, off);
      if write(PageOf(size, off)) == OK {
        WriteExtraHard(FileWrite(file, off, src[PageOf(size, off) - 1]), src, size, off + size, end, write, r, rc);
      }
    }
  }

  /** How the end of a step comes out: done and over, or failed with the transaction still open. */
  predicate Ended(d: Dest, r: Dest, rc: Rc) {
    Fatal(rc) && r.tx.active == (d.tx.active && rc != DONE)
  }

  lemma DirectWritesFatal(d: Dest, src: seq<Page>, size: nat, n: nat, env: Env, r: Dest, rc: Rc)
    requires DestOk(d) && Paged(src, size) && size < d.size && (n == |src| || n == 1)
    requires HardEnv(env) && (r, rc) == DirectWrites(d, src, size, n, env)
    ensures Ended(d, r, rc)
  {
    var end := Min(PENDING_BYTE + d.size, size * n);
    ExtraInside(src, size, n, PENDING_BYTE + d.size);
    var (file, wrote) := WriteExtra(d.file, src, size, PENDING_BYTE + size, end, env.write);
    WriteExtraHard(d.file, src, size, PENDING_BYTE + size, end, env.write, file, wrote);
  }

  lemma FinishLargerFatal(d: Dest, src: seq<Page>, size: nat, n: nat, env: Env, r: Dest, rc: Rc)
    requires DestOk(d) && Paged(src, size) && size < d.size && |env.counter| == 4 && |env.validFor| == 8
    requires (n == |src| || n == 1) && n > 0 && HardEnv(env) && (r, rc) == FinishLarger(d, src, size, n, env)
    ensures Ended(d, r, rc)
  {
    DestPagesPositive(size, d.size, n);
    var t := DestPages(size, d.size, n);
    var (j, saved) := JournalTail(d, t, |d.pages|, env.journal);
    JournalTailHard(d, t, |d.pages|, env.journal, j, saved);
    var e := PhaseOne(j, env).0;
    PhaseOneOpen(j, env, e);
    if saved == OK && env.phaseOne == OK {
      DirectWritesFatal(e, src, size, n, env, r, rc);
    }
  }

  lemma FinishEvenFatal(d: Dest, size: nat, n: nat, env: Env, r: Dest, rc: Rc)
    requires DestOk(d) && PageSize(size) && size >= d.size && |env.counter| == 4 && |env.validFor| == 8
    requires HardEnv(env) && (r, rc) == FinishEven(d, size, n, env)
    ensures Ended(d, r, rc)
  {
    var e := TruncateImage(d, DestPages(size, d.size, n));
    PhaseOneOpen(e, env, PhaseOne(e, env).0);
  }

  lemma PhaseOneOpen(d: Dest, env: Env, r: Dest)
    requires DestOk(d) && |env.counter| == 4 && |env.validFor| == 8 && r == PhaseOne(d, env).0
    ensures r.tx.active == d.tx.active
  {
  }

  lemma PutHeaderEnds(d: Dest, schema: nat, env: Env, r: Dest, rc: Rc)
    requires DestOk(d) && HardEnv(env) && (r, rc) == PutHeader(d, schema, env)
    ensures Hard(rc) && SameFile(d, r)
  {
  }

  lemma CompleteFatal(d: Dest, schema: nat, src: seq<Page>, size: nat, env: Env, r: Dest, rc: Rc)
    requires DestOk(d) && Paged(src, size) && |env.blank| == d.size && |env.counter| == 4 && |env.validFor| == 8
    requires HardEnv(env) && (r, rc) == Complete(d, schema, src, size, env)
    ensures Ended(d, r, rc)
  {
    var (d1, rc1) := if src == [] then NewDb(d, env) else (d, OK);
    if rc1 == OK {
      var (d2, rc2) := PutHeader(d1, schema, env);
      PutHeaderEnds(d1, schema, env, d2, rc2);
      var n := if src == [] then 1 else |src|;
      if rc2 == OK {
        if size < d.size {
          FinishLargerFatal(d2, src, size, n, env, r, rc);
        } else {
          FinishEvenFatal(d2, size, n, env, r, rc);
        }
      }
    }
  }

  /** Where a step stands when it has copied its pages. */
  ghost predicate Advanced(src: seq<Page>, size: nat, e: Backup, rc: Rc)
    requires Paged(src, size) && BackupOk(e)
  {
    && (!Fatal(rc) || rc == DONE ==>
      Current(src, size, e.dest, e.iNext) && if e.locked then TxOpen(e.dest) else e.iNext == 1)
    && (!Fatal(rc) ==> e.attached || e.iNext == 1)
    && (rc == DONE ==> e.locked && e.iNext > |src|)
  }

  lemma AdvanceKeeps(w: World, size: nat, nPage: int, env: Env, e: Backup, rc: Rc)
    requires Inv(w, size) && EnvOk(w.b, env) && HardEnv(env) && !Fatal(w.b.rc)
    requires (e, rc) == Advance(w.b, w.src, size, nPage, env)
    ensures Advanced(w.src, size, e, rc)
  {
    var (b1, rc1) := Begin(w.b, size, env);
    BeginKeeps(w.b, w.src, size, env, b1, rc1);
    var (b2, rc2) := CopyLoop(b1, w.src, size, rc1, 0, nPage, env);
    CopyLoopKeeps(b1, w.src, size, rc1, 0, nPage, env, b2, rc2);
  }

  lemma CloseKeeps(src: seq<Page>, size: nat, env: Env, e: Backup, rc: Rc, v: Backup)
    requires Paged(src, size) && BackupOk(e) && Advanced(src, size, e, rc) && HardEnv(env)
    requires |env.counter| == 4 && |env.validFor| == 8 && (rc == DONE ==> |env.blank| == e.dest.size)
    requires v == Close(e, rc, src, size, env)
    ensures Inv(World(src, v), size)
  {
    if rc == DONE {
      var (d, end) := Complete(e.dest, e.schema, src, size, env);
      CompleteFatal(e.dest, e.schema, src, size, env, d, end);
    }
  }

  /** A step keeps the invariant. */
  lemma StepKeeps(w: World, size: nat, nPage: int, env: Env)
    requires Inv(w, size) && EnvOk(w.b, env) && HardEnv(env)
    ensures Inv(w.(b := Step(w.b, w.src, size, nPage, env)), size)
  {
    if !Fatal(w.b.rc) {
      var (e, rc) := Advance(w.b, w.src, size, nPage, env);
      AdvanceKeeps(w, size, nPage, env, e, rc);
      CloseKeeps(w.src, size, env, e, rc, Step(w.b, w.src, size, nPage, env));
    }
  }

  /** Writing page k of the source, with the report to an attached handle. */
  function WritePage(w: World, size: nat, k: nat, data: Page, put: nat -> Rc): World
    requires Paged(w.src, size) && BackupOk(w.b) && 1 <= k <= |w.src| + 1 && |data| == size
  {
    var src := if k <= |w.src| then w.src[k - 1 := data] else w.src + [data];
    World(src, if w.b.attached && k != PendingPage(size) then Update(w.b, size, k, data, put) else w.b)
  }

  lemma WriteKeeps(w: World, size: nat, k: nat, data: Page, put: nat -> Rc)
    requires Inv(w, size) && 1 <= k <= |w.src| + 1 && |data| == size && forall j :: Hard(put(j))
    ensures Inv(WritePage(w, size, k, data, put), size)
  {
    var b, v := w.b, WritePage(w, size, k, data, put);
    if !Fatal(b.rc) {
      if b.attached && k != PendingPage(size) && k < b.iNext {
        var (d, rc) := CopyPage(b.dest, size, k, data, None, put);
        CopyPageHard(b.dest, size, k, data, None, put, d, rc);
        if rc == OK {
          assert forall i: nat :: i < |v.src| && i != k - 1 && i < b.iNext - 1 ==> SamePageAt(v.src, w.src, i);
          CopyPageKeeps(v.src, size, k, None, put, b.dest, d, w.src, b.iNext);
        }
      } else {
        forall o: nat | Holds(v.src, size, o) && PageOf(size, o) < b.iNext && Copyable(size, b.dest.size, o)
          ensures SameAt(v.src, size, b.dest, o)
        {
          assert SameAt(w.src, size, b.dest, o);
        }
      }
    }
  }

  lemma ShrinkKeeps(w: World, size: nat, n: nat)
    requires Inv(w, size) && n <= |w.src|
    ensures Inv(w.(src := w.src[..n]), size)
  {
    if !Fatal(w.b.rc) {
      forall o: nat | Holds(w.src[..n], size, o) && PageOf(size, o) < w.b.iNext && Copyable(size, w.b.dest.size, o)
        ensures SameAt(w.src[..n], size, w.b.dest, o)
      {
        assert SameAt(w.src, size, w.b.dest, o);
      }
    }
  }

  /** Another connection changed the source: the handle starts again if the pager knows it, and had not begun if not. */
  function Foreign(w: World, pages: seq<Page>): World {
    World(pages, if w.b.attached then Restart(w.b) else w.b)
  }

  lemma ForeignKeeps(w: World, size: nat, pages: seq<Page>)
    requires Inv(w, size) && Paged(pages, size)
    ensures Inv(Foreign(w, pages), size)
  {
  }

  datatype Event =
    | StepEvent(nPage: int, env: Env)
    | WriteEvent(k: nat, data: Page, put: nat -> Rc)
    | ShrinkEvent(n: nat)
    | ForeignEvent(pages: seq<Page>)

  ghost predicate Allowed(w: World, size: nat, e: Event) {
    && Paged(w.src, size) && BackupOk(w.b)
    && match e
       case StepEvent(_, env) => EnvOk(w.b, env) && HardEnv(env)
       case WriteEvent(k, data, put) => 1 <= k <= |w.src| + 1 && |data| == size && forall j :: Hard(put(j))
       case ShrinkEvent(n) => n <= |w.src|
       case ForeignEvent(pages) => Paged(pages, size)
  }

  ghost function After(w: World, size: nat, e: Event): World
    requires Paged(w.src, size) && BackupOk(w.b)
    requires e.StepEvent? ==> EnvOk(w.b, e.env)
    requires e.WriteEvent? ==> 1 <= e.k <= |w.src| + 1 && |e.data| == size
    requires e.ShrinkEvent? ==> e.n <= |w.src|
  {
    match e
    case StepEvent(nPage, env) => w.(b := Step(w.b, w.src, size, nPage, env))
    case WriteEvent(k, data, put) => WritePage(w, size, k, data, put)
    case ShrinkEvent(n) => w.(src := w.src[..n])
    case ForeignEvent(pages) => Foreign(w, pages)
  }

  lemma EventKeeps(w: World, size: nat, e: Event)
    requires Inv(w, size) && Allowed(w, size, e)
    ensures Inv(After(w, size, e), size)
  {
    match e
    case StepEvent(nPage, env) => StepKeeps(w, size, nPage, env);
    case WriteEvent(k, data, put) => WriteKeeps(w, size, k, data, put);
    case ShrinkEvent(n) => ShrinkKeeps(w, size, n);
    case ForeignEvent(pages) => ForeignKeeps(w, size, pages);
  }

  /** sqlite3_backup_init */
  predicate Fresh(b: Backup) {
    b.iNext == 1 && b.rc == OK && !b.attached && !b.locked && DestOk(b.dest)
  }

  /** States s and the events between them. */
  ghost predicate Run(s: seq<World>, size: nat, events: seq<Event>) {
    && |s| == |events| + 1
    && Paged(s[0].src, size) && Fresh(s[0].b)
    && forall i :: 0 <= i < |events| ==> Moves(s, size, events, i)
  }

  ghost predicate Moves(s: seq<World>, size: nat, events: seq<Event>, i: nat)
    requires i < |events| < |s|
  {
    Allowed(s[i], size, events[i]) && s[i + 1] == After(s[i], size, events[i])
  }

  /** Every state of every run meets the invariant. */
  lemma {:induction false} RunKeeps(s: seq<World>, size: nat, events: seq<Event>, i: nat)
    requires Run(s, size, events) && i < |s|
    ensures Inv(s[i], size)
  {
    if i > 0 {
      RunKeeps(s, size, events, i - 1);
      assert Moves(s, size, events, i - 1);
      EventKeeps(s[i - 1], size, events[i - 1]);
    }
  }

  /** DONE and the fatal codes stay, and with them the destination. */
  lemma FatalSticks(w: World, size: nat, e: Event)
    requires Allowed(w, size, e) && Fatal(w.b.rc)
    ensures After(w, size, e).b.rc == w.b.rc && After(w, size, e).b.dest == w.b.dest
  {
  }
}
