/** How far a step gets: to the end if all goes well, and past a page whose copy failed. */
module BackupProgress {
  import opened BackupPages
  import opened BackupCopy
  import opened BackupSteps
  import opened BackupRun

  /** No writer on the source, and nothing fails. */
  ghost predicate AllWell(env: Env) {
    && !env.writing && env.begin == OK && !env.noMem && env.lock == OK
    && (forall k :: env.get(k) == OK) && (forall k :: env.put(k) == OK)
    && (forall k :: env.journal(k) == OK) && (forall k :: env.write(k) == OK)
    && env.newDb == OK && env.meta == OK && env.version == OK && env.phaseOne == OK
    && env.truncate == OK && env.sync == OK && env.phaseTwo == OK
  }

  /** Other page sizes are refused for a destination in WAL mode or in memory. */
  predicate Accepts(d: Dest, size: nat) {
    size == d.size || (!d.wal && !d.memdb)
  }

  lemma {:induction false} CopyBlocksOk(d: Dest, srcSize: nat, data: Page, off: nat, end: nat, count: Option<nat>,
          put: nat -> Rc, r: Dest, rc: Rc)
    requires BlocksLeft(d, srcSize, data, off, end) && forall k :: put(k) == OK
    requires CopyBlocks(d, srcSize, data, off, end, count, put) == (r, rc)
    ensures rc == OK
    decreases end - off
  {
    if off < end {
      var e := Round(d, srcSize, data, off, count);
      RoundComesTo(d, srcSize, data, off, end, count, put, OK, e, (r, rc));
      CopyBlocksOk(e, srcSize, data, off + d.size, end, count, put, r, rc);
    }
  }

  lemma CopyPageOk(d: Dest, size: nat, k: nat, data: Page, count: Option<nat>, put: nat -> Rc, r: Dest, rc: Rc)
    requires DestOk(d) && PageSize(size) && |data| == size && k >= 1 && forall j :: put(j) == OK
    requires CopyPage(d, size, k, data, count, put) == (r, rc) && Accepts(d, size)
    ensures rc == OK
  {
    PageBlocks(d, size, k, data);
    CopyBlocksOk(d, size, data, (k - 1) * size, k * size, count, put, r, rc);
  }

  lemma CopyNextOk(b: Backup, src: seq<Page>, size: nat, env: Env, e: Backup, rc: Rc)
    requires BackupOk(b) && Paged(src, size) && b.iNext <= |src| && (e, rc) == CopyNext(b, src, size, env)
    requires AllWell(env) && Accepts(b.dest, size)
    ensures rc == OK && e.iNext == b.iNext + 1 && Accepts(e.dest, size)
  {
    var k := b.iNext;
    if k != PendingPage(size) {
      CopyPageOk(b.dest, size, k, src[k - 1], Some(|src|), env.put, e.dest, rc);
    }
  }

  /** The loop ends at the end of the source, or after nPage pages. */
  lemma {:induction false} CopyLoopOk(b: Backup, src: seq<Page>, size: nat, ii: nat, nPage: int, env: Env, e: Backup,
          rc: Rc)
    requires BackupOk(b) && Paged(src, size) && (e, rc) == CopyLoop(b, src, size, OK, ii, nPage, env)
    requires AllWell(env) && Accepts(b.dest, size) && (nPage < 0 || ii <= nPage)
    ensures rc == OK
    ensures e.iNext > |src| <==> nPage < 0 || b.iNext + (nPage - ii) > |src|
    ensures e.iNext <= |src| ==> e.iNext == b.iNext + (nPage - ii)
    decreases |src| + 1 - b.iNext
  {
    if (nPage < 0 || ii < nPage) && b.iNext <= |src| {
      var (c, next) := CopyNext(b, src, size, env);
      CopyNextOk(b, src, size, env, c, next);
      CopyLoopOk(c, src, size, ii + 1, nPage, env, e, rc);
    }
  }

  lemma {:induction false} JournalTailOk(d: Dest, k: nat, last: nat, journal: nat -> Rc, r: Dest, rc: Rc)
    requires DestOk(d) && k >= 1 && (forall j :: journal(j) == OK) && (r, rc) == JournalTail(d, k, last, journal)
    ensures rc == OK
    decreases last + 1 - k
  {
    if k <= last && k == PendingPage(d.size) {
      JournalTailOk(d, k + 1, last, journal, r, rc);
    } else if k <= last {
      JournalTailOk(PagerWrite(d, k), k + 1, last, journal, r, rc);
    }
  }

  lemma {:induction false} WriteExtraOk(file: seq<byte>, src: seq<Page>, size: nat, off: nat, end: nat,
          write: nat -> Rc, r: seq<byte>, rc: Rc)
    requires HasBytes(src, size, off, end) && forall j :: write(j) == OK
    requires WriteExtra(file, src, size, off, end, write) == (r, rc)
    ensures rc == OK
    decreases end - off
  {
    if off < end {
      assert Holds(src, size, off);
      WriteExtraOk(FileWrite(file, off, src[PageOf(size, off) - 1]), src, size, off + size, end, write, r, rc);
    }
  }

  lemma DirectWritesOk(d: Dest, src: seq<Page>, size: nat, n: nat, env: Env, r: Dest, rc: Rc)
    requires DestOk(d) && Paged(src, size) && size < d.size && (n == |src| || n == 1)
    requires AllWell(env) && (r, rc) == DirectWrites(d, src, size, n, env)
    ensures rc == DONE
  {
    var end := Min(PENDING_BYTE + d.size, size * n);
    ExtraInside(src, size, n, PENDING_BYTE + d.size);
    var (file, wrote) := WriteExtra(d.file, src, size, PENDING_BYTE + size, end, env.write);
    WriteExtraOk(d.file, src, size, PENDING_BYTE + size, end, env.write, file, wrote);
  }

  lemma FinishLargerOk(d: Dest, src: seq<Page>, size: nat, n: nat, env: Env, r: Dest, rc: Rc)
    requires DestOk(d) && Paged(src, size) && size < d.size && |env.counter| == 4 && |env.validFor| == 8
    requires (n == |src| || n == 1) && n > 0 && AllWell(env) && (r, rc) == FinishLarger(d, src, size, n, env)
    ensures rc == DONE
  {
    DestPagesPositive(size, d.size, n);
    var t := DestPages(size, d.size, n);
    var (j, saved) := JournalTail(d, t, |d.pages|, env.journal);
    JournalTailOk(d, t, |d.pages|, env.journal, j, saved);
    DirectWritesOk(CommitImage(j, env), src, size, n, env, r, rc);
  }

  lemma CompleteOk(d: Dest, schema: nat, src: seq<Page>, size: nat, env: Env, r: Dest, rc: Rc)
    requires DestOk(d) && Paged(src, size) && |env.blank| == d.size && |env.counter| == 4 && |env.validFor| == 8
    requires AllWell(env) && (r, rc) == Complete(d, schema, src, size, env)
    ensures rc == DONE
  {
    var d1 := if src == [] then NewDb(d, env).0 else d;
    var d2 := PutHeader(d1, schema, env).0;
    if size < d.size {
      FinishLargerOk(d2, src, size, if src == [] then 1 else |src|, env, r, rc);
    }
  }

  /**
   When nothing fails, a step copies the pages it is asked for, and ends in SQLITE_DONE exactly if these reach the end
   of the source: one step without a limit completes the backup, and so do enough steps with one. A handle that has
   answered SQLITE_BUSY or SQLITE_LOCKED goes on in the same way.
   */
  lemma StepCompletes(b: Backup, src: seq<Page>, size: nat, nPage: int, env: Env, v: Backup)
    requires BackupOk(b) && Paged(src, size) && EnvOk(b, env) && AllWell(env)
    requires b.rc == OK || b.rc == BUSY || b.rc == LOCKED
    requires Accepts(if b.locked then b.dest else env.found, size) && v == Step(b, src, size, nPage, env)
    ensures v.rc == DONE <==> nPage < 0 || b.iNext + nPage > |src|
    ensures v.rc != DONE ==> v.rc == OK && v.iNext == b.iNext + nPage && v.attached
  {
    var (b1, rc1) := Begin(b, size, env);
    var (b2, rc2) := CopyLoop(b1, src, size, rc1, 0, nPage, env);
    CopyLoopOk(b1, src, size, 0, nPage, env, b2, rc2);
    var (e, rc) := Advance(b, src, size, nPage, env);
    if rc == DONE {
      var (d, end) := Complete(e.dest, e.schema, src, size, env);
      CompleteOk(e.dest, e.schema, src, size, env, d, end);
    }
  }

  /** Source page k has its present content in the destination. */
  ghost predicate PageCurrent(src: seq<Page>, size: nat, d: Dest, k: nat)
    requires Paged(src, size) && DestOk(d)
  {
    forall o: nat :: Holds(src, size, o) && PageOf(size, o) == k && Copyable(size, d.size, o) ==>
      SameAt(src, size, d, o)
  }

  lemma OtherPagesStay(src: seq<Page>, size: nat, k: nat, count: Option<nat>, put: nat -> Rc, d: Dest, r: Dest, rc: Rc)
    requires Paged(src, size) && DestOk(d) && 1 <= k <= |src| && Current(src, size, d, k)
    requires CopyPage(d, size, k, src[k - 1], count, put) == (r, rc)
    ensures DestOk(r) && Current(src, size, r, k)
  {
    forall o: nat | Holds(src, size, o) && PageOf(size, o) < k && Copyable(size, d.size, o)
      ensures SameAt(src, size, r, o)
    {
      assert SameAt(src, size, d, o);
      CopyPageElsewhere(d, size, k, src[k - 1], count, put, r, rc, o);
    }
  }

  lemma PageDecides(src: seq<Page>, size: nat, d: Dest, k: nat)
    requires Paged(src, size) && DestOk(d) && Current(src, size, d, k)
    ensures Current(src, size, d, k + 1) <==> PageCurrent(src, size, d, k)
  {
    if PageCurrent(src, size, d, k) {
      forall o: nat | Holds(src, size, o) && PageOf(size, o) < k + 1 && Copyable(size, d.size, o)
        ensures SameAt(src, size, d, o)
      {
        assert PageOf(size, o) == k || PageOf(size, o) < k;
      }
    }
    if Current(src, size, d, k + 1) {
      forall o: nat | Holds(src, size, o) && PageOf(size, o) == k && Copyable(size, d.size, o)
        ensures SameAt(src, size, d, o)
      {
        assert PageOf(size, o) < k + 1;
      }
    }
  }

  /**
   Why page failures have to be fatal. Whatever fails while a page is copied, the loop ends behind that page: after a
   failure that may be tried again the handle takes the page for copied, rightly only if the destination happens to
   have its content. If the page could not be read, the destination is as before.
   */
  lemma RetryableFailureSkipsPage(b: Backup, src: seq<Page>, size: nat, nPage: int, env: Env, e: Backup, rc: Rc)
    requires BackupOk(b) && Paged(src, size) && b.iNext <= |src| && Current(src, size, b.dest, b.iNext)
    requires (e, rc) == CopyNext(b, src, size, env) && rc != OK && nPage != 0
    ensures CopyLoop(b, src, size, OK, 0, nPage, env) == (e, rc) && e.iNext == b.iNext + 1
    ensures Current(src, size, e.dest, e.iNext) <==> PageCurrent(src, size, e.dest, b.iNext)
    ensures env.get(b.iNext) != OK ==> e == b.(iNext := b.iNext + 1)
  {
    assert CopyLoop(e, src, size, rc, 1, nPage, env) == (e, rc);
    var k := b.iNext;
    if env.get(k) == OK {
      OtherPagesStay(src, size, k, Some(|src|), env.put, b.dest, e.dest, rc);
    }
    PageDecides(src, size, e.dest, k);
  }
}
