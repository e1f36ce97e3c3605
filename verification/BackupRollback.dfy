/** What a rollback finds: a backup that is finished before it is done gives the destination its pages back. */
module BackupRollback {
  import opened Arithmetic
  import opened BackupPages
  import opened BackupCopy
  import opened BackupSteps
  import opened BackupRun
  import opened BackupFile

  /**
   Page k of the destination can be restored: from the journal, or from the file, where it is untouched unless it is
   the unused page. A page that is not in the journal has not been changed in the cache either.
   */
  predicate KeptAt(d: Dest, orig: seq<Page>, k: nat)
    requires DestOk(d) && 1 <= k <= |orig|
  {
    if k in d.tx.journal then d.tx.journal[k] == orig[k - 1]
    else
      && (k <= |d.pages| ==> d.pages[k - 1] == orig[k - 1])
      && (k != PendingPage(d.size) ==> FilePage(d.file, d.size, k) == orig[k - 1])
  }

  /** All pages of the destination as it was locked can be restored. */
  ghost predicate Intact(d: Dest, orig: seq<Page>) {
    && DestOk(d) && Paged(orig, d.size) && d.tx.origSize == |orig|
    && forall k: nat :: 1 <= k <= |orig| ==> KeptAt(d, orig, k)
  }

  /** And none has been dropped from the image. */
  ghost predicate Working(d: Dest, orig: seq<Page>) {
    Intact(d, orig) && |orig| <= |d.pages|
  }

  /** Rolled back: the old number of pages, and each as it was, but for the unused one. */
  predicate Restored(orig: seq<Page>, d: Dest) {
    && DestOk(d) && |d.pages| == |orig| && d.file == Flatten(d.pages) && !d.tx.active
    && forall i :: 0 <= i < |orig| && i + 1 != PendingPage(d.size) ==> d.pages[i] == orig[i]
  }

  lemma RestoredAt(d: Dest, orig: seq<Page>, i: nat)
    requires Intact(d, orig) && i < |orig|
    ensures |RestoredPage(d, i + 1)| == d.size
    ensures i + 1 != PendingPage(d.size) ==> RestoredPage(d, i + 1) == orig[i]
  {
    assert KeptAt(d, orig, i + 1);
  }

  /** From there a rollback restores the destination. */
  lemma RollbackRestores(d: Dest, orig: seq<Page>)
    requires Intact(d, orig)
    ensures Restored(orig, Rollback(d))
  {
    var pages := Rollback(d).pages;
    assert |pages| == |orig|;
    forall i | 0 <= i < |pages|
      ensures |pages[i]| == d.size && (i + 1 != PendingPage(d.size) ==> pages[i] == orig[i])
    {
      RestoredAt(d, orig, i);
      assert pages[i] == RestoredPage(d, i + 1);
    }
  }

  /** Byte x of page k. */
  lemma PageByte(file: seq<byte>, size: nat, k: nat, x: nat, o: int)
    requires k >= 1 && x < size && o == (k - 1) * size + x
    ensures 0 <= o < k * size && PageOf(size, o) == k && o % size == x
    ensures FilePage(file, size, k)[x] == FileByte(file, o)
  {
    Distribute(k - 1, size);
    PageSpan(size, k, o);
  }

  /** The file a destination is found with has its pages. */
  lemma FileHasPage(pages: seq<Page>, size: nat, rest: seq<byte>, k: nat)
    requires Paged(pages, size) && 1 <= k <= |pages|
    ensures FilePage(Overlay(Flatten(pages), rest), size, k) == pages[k - 1]
  {
    var file := Overlay(Flatten(pages), rest);
    forall x: nat | x < size ensures FilePage(file, size, k)[x] == pages[k - 1][x] {
      var o := (k - 1) * size + x;
      PageByte(file, size, k, x, o);
      Times(k, |pages|, size);
      FlattenAt(pages, size, o);
    }
  }

  lemma FoundIntact(d: Dest)
    requires DestFound(d)
    ensures Working(d, d.pages)
  {
    assert Overlay(Flatten(d.pages), []) == d.file;
    forall k: nat | 1 <= k <= |d.pages| ensures KeptAt(d, d.pages, k) {
      FileHasPage(d.pages, d.size, [], k);
    }
  }

  /** A page is journalled before it is changed. */
  lemma PutPageIntact(d: Dest, j: nat, p: Page, r: Dest, orig: seq<Page>)
    requires Intact(d, orig) && j >= 1 && |p| == d.size && (j <= |d.pages| || |orig| <= |d.pages|)
    requires r == PutPage(d, j, p)
    ensures Intact(r, orig)
  {
    forall k: nat | 1 <= k <= |orig| ensures KeptAt(r, orig, k) {
      assert KeptAt(d, orig, k);
    }
  }

  lemma RoundIntact(d: Dest, srcSize: nat, data: Page, off: nat, count: Option<nat>, e: Dest, orig: seq<Page>)
    requires Aligned(d, srcSize, data, off) && Working(d, orig) && e == Round(d, srcSize, data, off, count)
    ensures Working(e, orig)
  {
    var k := PageOf(d.size, off);
    if k != PendingPage(d.size) {
      PutPageIntact(d, k, NewPage(d, srcSize, data, off, count), e, orig);
    }
  }

  lemma {:induction false} CopyBlocksIntact(d: Dest, srcSize: nat, data: Page, off: nat, end: nat, count: Option<nat>,
          put: nat -> Rc, r: Dest, rc: Rc, orig: seq<Page>)
    requires BlocksLeft(d, srcSize, data, off, end) && Working(d, orig)
    requires CopyBlocks(d, srcSize, data, off, end, count, put) == (r, rc)
    ensures Working(r, orig)
    decreases end - off
  {
    if off < end {
      var k := PageOf(d.size, off);
      var first := if k == PendingPage(d.size) then OK else put(k);
      var e := if first == OK then Round(d, srcSize, data, off, count) else d;
      RoundComesTo(d, srcSize, data, off, end, count, put, first, e, (r, rc));
      if first == OK {
        RoundIntact(d, srcSize, data, off, count, e, orig);
        CopyBlocksIntact(e, srcSize, data, off + d.size, end, count, put, r, rc, orig);
      }
    }
  }

  lemma CopyPageIntact(d: Dest, size: nat, k: nat, data: Page, count: Option<nat>, put: nat -> Rc, r: Dest, rc: Rc,
          orig: seq<Page>)
    requires Working(d, orig) && PageSize(size) && |data| == size && k >= 1
    requires CopyPage(d, size, k, data, count, put) == (r, rc)
    ensures Working(r, orig)
  {
    PageBlocks(d, size, k, data);
    if !(size != d.size && d.memdb) {
      CopyBlocksIntact(d, size, data, (k - 1) * size, k * size, count, put, r, rc, orig);
    }
  }

  lemma CopyNextIntact(b: Backup, src: seq<Page>, size: nat, env: Env, e: Backup, rc: Rc, orig: seq<Page>)
    requires BackupOk(b) && Paged(src, size) && b.iNext <= |src| && (e, rc) == CopyNext(b, src, size, env)
    requires Working(b.dest, orig)
    ensures Working(e.dest, orig)
  {
    var k := b.iNext;
    if k != PendingPage(size) && env.get(k) == OK {
      CopyPageIntact(b.dest, size, k, src[k - 1], Some(|src|), env.put, e.dest, rc, orig);
    }
  }

  lemma {:induction false} CopyLoopIntact(b: Backup, src: seq<Page>, size: nat, rc: Rc, ii: nat, nPage: int, env: Env,
          e: Backup, end: Rc, orig: seq<Page>)
    requires BackupOk(b) && Paged(src, size) && (e, end) == CopyLoop(b, src, size, rc, ii, nPage, env)
    requires Working(b.dest, orig)
    ensures Working(e.dest, orig)
    decreases |src| + 1 - b.iNext
  {
    if (nPage < 0 || ii < nPage) && b.iNext <= |src| && rc == OK {
      var (c, next) := CopyNext(b, src, size, env);
      CopyNextIntact(b, src, size, env, c, next, orig);
      CopyLoopIntact(c, src, size, next, ii + 1, nPage, env, e, end, orig);
    }
  }

  lemma PutBytesIntact(d: Dest, x: nat, bytes: seq<byte>, r: Dest, orig: seq<Page>)
    requires Intact(d, orig) && (|d.pages| >= 1 || |orig| == 0)
    requires x + |bytes| <= 512 && DestOk(d) && r == PutBytes(d, x, bytes)
    ensures Intact(r, orig) && |r.pages| >= 1 && |d.pages| <= |r.pages|
  {
    PutPageIntact(d, 1, Splice(GetPage(d, 1), x, bytes), r, orig);
  }

  lemma PutHeaderIntact(d: Dest, schema: nat, env: Env, r: Dest, rc: Rc, orig: seq<Page>)
    requires Working(d, orig) && (r, rc) == PutHeader(d, schema, env)
    ensures Working(r, orig)
  {
    if env.meta == OK {
      var e := PutBytes(d, 40, Put4(schema + 1));
      PutBytesIntact(d, 40, Put4(schema + 1), e, orig);
      if e.wal && env.version == OK {
        PutBytesIntact(e, 18, [2, 2], r, orig);
      }
    }
  }

  /** What the journalling loop is for: when it ends well, all these pages are in the journal. */
  lemma {:induction false} JournalTailSaves(d: Dest, first: nat, last: nat, journal: nat -> Rc, r: Dest, rc: Rc, k: nat)
    requires DestOk(d) && first >= 1 && last <= |d.pages| && (r, rc) == JournalTail(d, first, last, journal)
    ensures k in d.tx.journal ==> k in r.tx.journal
    ensures rc == OK && first <= k <= last && k != PendingPage(d.size) ==> journal(k) == OK
    ensures rc == OK && first <= k <= last && k != PendingPage(d.size) && k <= d.tx.origSize ==> k in r.tx.journal
    decreases last + 1 - first
  {
    if first <= last {
      if first == PendingPage(d.size) {
        JournalTailSaves(d, first + 1, last, journal, r, rc, k);
      } else if journal(first) == OK {
        JournalTailSaves(PagerWrite(d, first), first + 1, last, journal, r, rc, k);
      }
    }
  }

  lemma {:induction false} JournalTailIntact(d: Dest, first: nat, last: nat, journal: nat -> Rc, r: Dest, rc: Rc,
          orig: seq<Page>)
    requires Working(d, orig) && first >= 1 && (r, rc) == JournalTail(d, first, last, journal)
    ensures Working(r, orig)
    decreases last + 1 - first
  {
    if first <= last {
      if first == PendingPage(d.size) {
        JournalTailIntact(d, first + 1, last, journal, r, rc, orig);
      } else if journal(first) == OK {
        var e := PagerWrite(d, first);
        forall k: nat | 1 <= k <= |orig| ensures KeptAt(e, orig, k) {
          assert KeptAt(d, orig, k);
        }
        JournalTailIntact(e, first + 1, last, journal, r, rc, orig);
      }
    }
  }

  /** Behind the end of what is written over the start of a file, its pages stay. */
  lemma OverlayBehind(front: seq<byte>, file: seq<byte>, size: nat, n: nat, k: nat)
    requires |front| == n * size && k > n
    ensures FilePage(Overlay(front, file), size, k) == FilePage(file, size, k)
  {
    Times(n, k - 1, size);
    var p, q := FilePage(Overlay(front, file), size, k), FilePage(file, size, k);
    forall x: nat | x < size ensures p[x] == q[x] {
      var o := (k - 1) * size + x;
      PageByte(Overlay(front, file), size, k, x, o);
      PageByte(file, size, k, x, o);
    }
  }

  lemma StampIntact(d: Dest, env: Env, r: Dest, orig: seq<Page>)
    requires Intact(d, orig) && (|d.pages| >= 1 || |orig| == 0)
    requires |env.counter| == 4 && |env.validFor| == 8 && DestOk(d) && r == Stamp(d, env)
    ensures Intact(r, orig)
  {
    var e := PutBytes(d, 24, env.counter);
    PutBytesIntact(d, 24, env.counter, e, orig);
    PutBytesIntact(e, 92, env.validFor, r, orig);
  }

  /** Putting pages into the file changes none there that is not in the journal, but for the unused one. */
  lemma PutImageIntact(d: Dest, m: nat, r: Dest, orig: seq<Page>)
    requires Intact(d, orig) && r == PutImage(d, m)
    ensures Intact(r, orig)
  {
    var image := ImagePages(d);
    var front := if m < |image| then image[..m] else image;
    FlattenLength(front, d.size);
    forall k: nat | 1 <= k <= |orig| ensures KeptAt(r, orig, k) {
      assert KeptAt(d, orig, k);
      if k !in d.tx.journal && k != PendingPage(d.size) {
        if k <= |front| {
          FileHasPage(front, d.size, d.file, k);
        } else {
          OverlayBehind(Flatten(front), d.file, d.size, |front|, k);
        }
      }
    }
  }

  /** Phase one, wherever it stops. */
  lemma PhaseOneIntact(d: Dest, env: Env, r: Dest, rc: Rc, orig: seq<Page>)
    requires Intact(d, orig) && (|d.pages| >= 1 || |orig| == 0)
    requires |env.counter| == 4 && |env.validFor| == 8 && DestOk(d) && (r, rc) == PhaseOne(d, env)
    ensures Intact(r, orig)
  {
    var e := Stamp(d, env);
    StampIntact(d, env, e, orig);
    PutImageIntact(e, if rc == OK then |ImagePages(e)| else env.written, r, orig);
  }

  /** The image may then have any size. */
  lemma TruncateImageIntact(d: Dest, n: nat, r: Dest, orig: seq<Page>)
    requires Working(d, orig) && r == TruncateImage(d, n)
    ensures Intact(r, orig)
  {
    forall k: nat | 1 <= k <= |orig| ensures KeptAt(r, orig, k) {
      assert KeptAt(d, orig, k);
    }
  }

  /** Page k reads the same from both files. */
  predicate SamePageIn(file: seq<byte>, r: seq<byte>, size: nat, k: nat)
    requires k >= 1
  {
    FilePage(r, size, k) == FilePage(file, size, k)
  }

  /** The direct writes stay inside the unused page, however they end. */
  lemma WriteExtraInside(file: seq<byte>, src: seq<Page>, size: nat, destSize: nat, end: nat, write: nat -> Rc,
          r: seq<byte>, rc: Rc, k: nat)
    requires PageSize(destSize) && end <= PENDING_BYTE + destSize && k >= 1 && k != PendingPage(destSize)
    requires ExtraLeft(src, size, PENDING_BYTE + size, end)
    requires WriteExtra(file, src, size, PENDING_BYTE + size, end, write) == (r, rc)
    ensures SamePageIn(file, r, destSize, k)
  {
    var p, q := FilePage(file, destSize, k), FilePage(r, destSize, k);
    forall x: nat | x < destSize ensures q[x] == p[x] {
      var o := (k - 1) * destSize + x;
      PageByte(file, destSize, k, x, o);
      PageByte(r, destSize, k, x, o);
      PendingSpan(destSize, o);
      WriteExtraElsewhere(file, src, size, PENDING_BYTE + size, end, write, r, rc, o);
    }
  }

  /** Cutting a file keeps the pages before the cut. */
  lemma CutKeepsPage(file: seq<byte>, n: nat, size: nat, k: nat)
    requires k >= 1 && k * size <= n
    ensures SamePageIn(file, if |file| > n then file[..n] else file, size, k)
  {
    var r := if |file| > n then file[..n] else file;
    var p, q := FilePage(file, size, k), FilePage(r, size, k);
    forall x: nat | x < size ensures q[x] == p[x] {
      var o := (k - 1) * size + x;
      PageByte(file, size, k, x, o);
      PageByte(r, size, k, x, o);
    }
  }

  /** A page that reaches beyond the size of the source is one of those that the loop journals. */
  lemma CutPageJournalled(size: nat, destSize: nat, n: nat, k: nat)
    requires PageSize(size) && PageSize(destSize) && size < destSize && n > 0 && k * destSize > size * n
    ensures destSize % size == 0 && DestPages(size, destSize, n) <= k
  {
    SizesDivide(size, destSize);
    Ratio(size, destSize);
    var ratio := destSize / size;
    var t := (n + ratio - 1) / ratio;
    RoundUp(n, ratio);
    RoundUpBytes(size, destSize, n, ratio, t);
    Times(k, t - 1, destSize);
  }

  /** Another file under the same cache and journal. */
  lemma FileIntact(d: Dest, orig: seq<Page>, r: Dest)
    requires Intact(d, orig) && r == d.(file := r.file)
    requires forall k: nat :: 1 <= k <= |orig| && k !in d.tx.journal && k != PendingPage(d.size) ==>
      SamePageIn(d.file, r.file, d.size, k)
    ensures Intact(r, orig)
  {
    forall k: nat | 1 <= k <= |orig| ensures KeptAt(r, orig, k) {
      assert KeptAt(d, orig, k);
    }
  }

  lemma ExtraIntact(d: Dest, orig: seq<Page>, src: seq<Page>, size: nat, end: nat, write: nat -> Rc, r: Dest, rc: Rc)
    requires Intact(d, orig) && end <= PENDING_BYTE + d.size && ExtraLeft(src, size, PENDING_BYTE + size, end)
    requires r == d.(file := r.file) && WriteExtra(d.file, src, size, PENDING_BYTE + size, end, write) == (r.file, rc)
    ensures Intact(r, orig)
  {
    forall k: nat | 1 <= k <= |orig| && k !in d.tx.journal && k != PendingPage(d.size)
      ensures SamePageIn(d.file, r.file, d.size, k)
    {
      WriteExtraInside(d.file, src, size, d.size, end, write, r.file, rc, k);
    }
    FileIntact(d, orig, r);
  }

  /** Every page of the old database from page `first` on is in the journal. */
  ghost predicate TailSaved(d: Dest, orig: seq<Page>, first: nat)
    requires d.size > 0
  {
    forall k: nat :: first <= k <= |orig| && k != PendingPage(d.size) ==> k in d.tx.journal
  }

  lemma CutIntact(d: Dest, orig: seq<Page>, size: nat, n: nat, r: Dest)
    requires Intact(d, orig) && PageSize(size) && size < d.size && n > 0 && d.size % size == 0
    requires TailSaved(d, orig, DestPages(size, d.size, n))
    requires r == d.(file := if |d.file| > size * n then d.file[..size * n] else d.file)
    ensures Intact(r, orig)
  {
    forall k: nat | 1 <= k <= |orig| && k !in d.tx.journal && k != PendingPage(d.size)
      ensures SamePageIn(d.file, r.file, d.size, k)
    {
      if k * d.size <= size * n {
        CutKeepsPage(d.file, size * n, d.size, k);
      } else {
        CutPageJournalled(size, d.size, n, k);
      }
    }
    FileIntact(d, orig, r);
  }

  lemma TailSavedStays(d: Dest, orig: seq<Page>, first: nat, env: Env, r: Dest)
    requires DestOk(d) && |env.counter| == 4 && |env.validFor| == 8 && r == PhaseOne(d, env).0
    requires TailSaved(d, orig, first)
    ensures TailSaved(r, orig, first)
  {
    var e := PutBytes(d, 24, env.counter);
    PutBytesJournal(d, 24, env.counter, e);
    PutBytesJournal(e, 92, env.validFor, Stamp(d, env));
    assert r.tx.journal == Stamp(d, env).tx.journal;
  }

  /** Nothing leaves the journal. */
  lemma PutBytesJournal(d: Dest, x: nat, bytes: seq<byte>, r: Dest)
    requires DestOk(d) && x + |bytes| <= 512 && r == PutBytes(d, x, bytes)
    ensures d.tx.journal.Keys <= r.tx.journal.Keys
  {
  }

  lemma JournalTailSaved(d: Dest, first: nat, journal: nat -> Rc, r: Dest, orig: seq<Page>)
    requires Working(d, orig) && first >= 1 && (r, OK) == JournalTail(d, first, |d.pages|, journal)
    ensures TailSaved(r, orig, first)
  {
    forall k: nat | first <= k <= |orig| && k != PendingPage(d.size) ensures k in r.tx.journal {
      JournalTailSaves(d, first, |d.pages|, journal, r, OK, k);
    }
  }

  /** With larger destination pages, until the transaction is over. */
  lemma FinishLargerIntact(d: Dest, src: seq<Page>, size: nat, n: nat, env: Env, r: Dest, rc: Rc, orig: seq<Page>)
    requires Working(d, orig) && Paged(src, size) && size < d.size && |env.counter| == 4 && |env.validFor| == 8
    requires (n == |src| || n == 1) && n > 0 && (r, rc) == FinishLarger(d, src, size, n, env)
    ensures r.tx.active ==> Intact(r, orig)
  {
    DestPagesPositive(size, d.size, n);
    var t := DestPages(size, d.size, n);
    var (j, saved) := JournalTail(d, t, |d.pages|, env.journal);
    JournalTailIntact(d, t, |d.pages|, env.journal, j, saved, orig);
    var (e, put) := PhaseOne(j, env);
    PhaseOneIntact(j, env, e, put, orig);
    if saved == OK && put == OK {
      JournalTailSaved(d, t, env.journal, j, orig);
      TailSavedStays(j, orig, t, env, e);
      AfterPhaseOne(e, src, size, n, env, r, rc, orig);
    }
  }

  /** The rest of FinishLarger. */
  lemma AfterPhaseOne(e: Dest, src: seq<Page>, size: nat, n: nat, env: Env, r: Dest, rc: Rc, orig: seq<Page>)
    requires Intact(e, orig) && Paged(src, size) && size < e.size && e.size % size == 0
    requires (n == |src| || n == 1) && n > 0 && TailSaved(e, orig, DestPages(size, e.size, n))
    requires (r, rc) == DirectWrites(e, src, size, n, env)
    ensures r.tx.active ==> Intact(r, orig)
  {
    ExtraRange(src, size, e.size, n);
    var end := Min(PENDING_BYTE + e.size, size * n);
    var (file, wrote) := WriteExtra(e.file, src, size, PENDING_BYTE + size, end, env.write);
    var f := e.(file := file);
    ExtraIntact(e, orig, src, size, end, env.write, f, wrote);
    CutIntact(f, orig, size, n, f.(file := if |file| > size * n then file[..size * n] else file));
  }

  lemma PhaseTwoIntact(d: Dest, env: Env, r: Dest, rc: Rc, orig: seq<Page>)
    requires Intact(d, orig) && DestOk(d) && (r, rc) == CommitPhaseTwo(d, env)
    ensures r.tx.active ==> Intact(r, orig)
  {
  }

  /** With destination pages that are no larger. */
  lemma FinishEvenIntact(d: Dest, size: nat, n: nat, env: Env, r: Dest, rc: Rc, orig: seq<Page>)
    requires Working(d, orig) && PageSize(size) && size >= d.size && |env.counter| == 4 && |env.validFor| == 8
    requires n > 0 && (r, rc) == FinishEven(d, size, n, env)
    ensures r.tx.active ==> Intact(r, orig)
  {
    EvenSize(size, d.size, n);
    var e := TruncateImage(d, DestPages(size, d.size, n));
    TruncateImageIntact(d, DestPages(size, d.size, n), e, orig);
    var (f, put) := PhaseOne(e, env);
    PhaseOneIntact(e, env, f, put, orig);
    if put == OK {
      PhaseTwoIntact(f, env, r, rc, orig);
    }
  }

  lemma CompleteIntact(d: Dest, schema: nat, src: seq<Page>, size: nat, env: Env, r: Dest, rc: Rc, orig: seq<Page>)
    requires Working(d, orig) && Paged(src, size)
    requires |env.blank| == d.size && |env.counter| == 4 && |env.validFor| == 8
    requires (r, rc) == Complete(d, schema, src, size, env)
    ensures r.tx.active ==> Intact(r, orig)
  {
    var (d1, rc1) := if src == [] then NewDb(d, env) else (d, OK);
    if src == [] && rc1 == OK {
      PutPageIntact(d, 1, env.blank, d1, orig);
    }
    if rc1 == OK {
      var (d2, rc2) := PutHeader(d1, schema, env);
      PutHeaderIntact(d1, schema, env, d2, rc2, orig);
      var n := if src == [] then 1 else |src|;
      if rc2 == OK && size < d.size {
        FinishLargerIntact(d2, src, size, n, env, r, rc, orig);
      } else if rc2 == OK {
        FinishEvenIntact(d2, size, n, env, r, rc, orig);
      }
    }
  }

  /** A locked handle that can still give `orig` back. */
  ghost predicate Undoable(b: Backup, orig: seq<Page>) {
    && b.locked && (b.rc != DONE ==> b.dest.tx.active)
    && (b.dest.tx.active ==> Intact(b.dest, orig))
    && (!Fatal(b.rc) ==> |orig| <= |b.dest.pages|)
  }

  lemma AdvanceIntact(b: Backup, src: seq<Page>, size: nat, nPage: int, env: Env, e: Backup, rc: Rc, orig: seq<Page>)
    requires BackupOk(b) && Paged(src, size) && EnvOk(b, env) && (e, rc) == Advance(b, src, size, nPage, env)
    requires if b.locked then Working(b.dest, orig) && b.dest.tx.active else orig == env.found.pages
    ensures e.locked ==> Working(e.dest, orig) && e.dest.tx.active
  {
    var (b1, rc1) := Begin(b, size, env);
    FoundIntact(env.found);
    var (b2, rc2) := CopyLoop(b1, src, size, rc1, 0, nPage, env);
    if b1.locked {
      CopyLoopIntact(b1, src, size, rc1, 0, nPage, env, b2, rc2, orig);
    }
  }

  lemma CloseIntact(e: Backup, rc: Rc, src: seq<Page>, size: nat, env: Env, v: Backup, orig: seq<Page>)
    requires BackupOk(e) && Paged(src, size) && |env.counter| == 4 && |env.validFor| == 8 && HardEnv(env)
    requires e.locked && Working(e.dest, orig) && e.dest.tx.active && (rc == DONE ==> |env.blank| == e.dest.size)
    requires v == Close(e, rc, src, size, env)
    ensures Undoable(v, orig)
  {
    if rc == DONE {
      var (d, end) := Complete(e.dest, e.schema, src, size, env);
      CompleteFatal(e.dest, e.schema, src, size, env, d, end);
      CompleteIntact(e.dest, e.schema, src, size, env, d, end, orig);
    }
  }

  /** A step keeps the destination it locked, or has locked before, within reach of a rollback. */
  lemma StepIntact(w: World, size: nat, nPage: int, env: Env, v: Backup, orig: seq<Page>)
    requires Inv(w, size) && EnvOk(w.b, env) && HardEnv(env) && v == Step(w.b, w.src, size, nPage, env)
    requires if w.b.locked then Undoable(w.b, orig) else orig == env.found.pages
    ensures v.locked ==> Undoable(v, orig)
  {
    if !Fatal(w.b.rc) {
      var (e, rc) := Advance(w.b, w.src, size, nPage, env);
      AdvanceKeeps(w, size, nPage, env, e, rc);
      AdvanceIntact(w.b, w.src, size, nPage, env, e, rc, orig);
      if e.locked {
        CloseIntact(e, rc, w.src, size, env, v, orig);
      }
    }
  }

  /** So does everything else that can happen to the handle. */
  lemma EventIntact(w: World, size: nat, e: Event, v: World, orig: seq<Page>)
    requires Inv(w, size) && Allowed(w, size, e) && v == After(w, size, e) && w.b.locked && Undoable(w.b, orig)
    ensures v.b.locked && Undoable(v.b, orig)
  {
    match e
    case StepEvent(nPage, env) =>
      StepIntact(w, size, nPage, env, v.b, orig);
      StaysLocked(w, size, nPage, env);
    case WriteEvent(k, data, put) =>
      if !Fatal(w.b.rc) && w.b.attached && k != PendingPage(size) && k < w.b.iNext {
        var (d, rc) := CopyPage(w.b.dest, size, k, data, None, put);
        CopyPageHard(w.b.dest, size, k, data, None, put, d, rc);
        CopyPageIntact(w.b.dest, size, k, data, None, put, d, rc, orig);
      }
    case ShrinkEvent(n) =>
    case ForeignEvent(pages) =>
  }

  lemma StaysLocked(w: World, size: nat, nPage: int, env: Env)
    requires Inv(w, size) && EnvOk(w.b, env) && w.b.locked
    ensures Step(w.b, w.src, size, nPage, env).locked
  {
  }

  /** Step i is the one that locked the destination. */
  ghost predicate Locks(s: seq<World>, events: seq<Event>, i: nat) {
    i < |events| && i + 1 < |s| && !s[i].b.locked && s[i + 1].b.locked && events[i].StepEvent?
  }

  lemma {:induction false} LockedUndoable(s: seq<World>, size: nat, events: seq<Event>, n: nat) returns (i: nat)
    requires Run(s, size, events) && n < |s| && s[n].b.locked
    ensures i < n && Locks(s, events, i) && Undoable(s[n].b, events[i].env.found.pages)
  {
    var m := n - 1;
    assert n > 0;
    assert Moves(s, size, events, m);
    RunKeeps(s, size, events, m);
    if s[m].b.locked {
      i := LockedUndoable(s, size, events, m);
      EventIntact(s[m], size, events[m], s[n], events[i].env.found.pages);
    } else {
      i := m;
      StepIntact(s[m], size, events[m].nPage, events[m].env, s[n].b, events[m].env.found.pages);
    }
  }

  /**
   A backup that is finished before it is done leaves the destination as it found it: the pages it had when a step of
   the run locked it, the unused page excepted, whatever has been copied, committed, written directly or cut off since.
   A handle that never locked the destination leaves it alone.
   */
  lemma UnfinishedRollsBack(s: seq<World>, size: nat, events: seq<Event>, n: nat) returns (i: nat)
    requires Run(s, size, events) && n < |s| && s[n].b.rc != DONE
    ensures !s[n].b.locked ==> Finish(s[n].b).0 == s[n].b
    ensures s[n].b.locked ==>
      i < n && Locks(s, events, i) && Restored(events[i].env.found.pages, Finish(s[n].b).0.dest)
  {
    if s[n].b.locked {
      i := LockedUndoable(s, size, events, n);
      RollbackRestores(s[n].b.dest, events[i].env.found.pages);
    } else {
      i := 0;
    }
  }
}
