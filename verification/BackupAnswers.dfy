/** What the calls on a backup answer, and what they leave alone when they refuse. */
module BackupAnswers {
  import opened Arithmetic
  import opened BackupPages
  import opened BackupCopy
  import opened BackupSteps
  import opened BackupRun
  import opened BackupFile

  /** With these codes a handle goes on; every other one ends it. */
  predicate GoesOn(rc: Rc) {
    rc == OK || rc == BUSY || rc == LOCKED
  }

  /** A handle that has failed, or is done, does nothing any more. */
  lemma StepStuck(b: Backup, src: seq<Page>, size: nat, nPage: int, env: Env)
    requires BackupOk(b) && Paged(src, size) && EnvOk(b, env)
    ensures !GoesOn(b.rc) ==> Step(b, src, size, nPage, env) == b
  {
  }

  /** While the source connection is inside a write transaction, a step answers SQLITE_BUSY and changes nothing. */
  lemma StepBusy(b: Backup, src: seq<Page>, size: nat, nPage: int, env: Env, v: Backup)
    requires BackupOk(b) && Paged(src, size) && EnvOk(b, env) && GoesOn(b.rc)
    requires env.writing && v == Step(b, src, size, nPage, env)
    ensures v == b.(rc := BUSY)
  {
    WriterStops(b, src, size, nPage, env);
  }

  lemma NothingCopied(b: Backup, src: seq<Page>, size: nat, rc: Rc, nPage: int, env: Env)
    requires BackupOk(b) && Paged(src, size) && rc != OK
    ensures CopyLoop(b, src, size, rc, 0, nPage, env) == (b, rc)
  {
  }

  /** The code that a failure with code rc is reported as. */
  predicate ReportedAs(rc: Rc, r: Rc) {
    r == rc != IOERR_NOMEM || (r == NOMEM && rc == IOERR_NOMEM)
  }

  /** The source can be read, and the destination is locked or can be. */
  predicate CanStart(b: Backup, env: Env) {
    !env.writing && env.begin == OK && (b.locked || (!env.noMem && env.lock == OK))
  }

  /** The handle with its destination locked. */
  function Started(b: Backup, env: Env): Backup {
    if b.locked then b else b.(locked := true, dest := env.found, schema := env.cookie)
  }

  /**
   What stops a step before it has copied anything, in the order in which it is found: the handle then stays as it was,
   but for the answer, and its destination is not locked by a step that could not start.
   */
  lemma StepRefused(b: Backup, src: seq<Page>, size: nat, nPage: int, env: Env, v: Backup)
    requires BackupOk(b) && Paged(src, size) && EnvOk(b, env) && GoesOn(b.rc) && !CanStart(b, env)
    requires v == Step(b, src, size, nPage, env)
    ensures v == b.(rc := v.rc)
    ensures ReportedAs(
              if env.writing then BUSY
              else if env.begin != OK then env.begin
              else if env.noMem then NOMEM
              else env.lock, v.rc)
  {
    var (e, rc) := Begin(b, size, env);
    NothingCopied(e, src, size, rc, nPage, env);
  }

  /** A destination in WAL mode takes pages of its own size only: it is locked, and the step fails for good. */
  lemma WalRefused(b: Backup, src: seq<Page>, size: nat, nPage: int, env: Env, v: Backup)
    requires BackupOk(b) && Paged(src, size) && EnvOk(b, env) && GoesOn(b.rc) && CanStart(b, env)
    requires v == Step(b, src, size, nPage, env)
    requires Started(b, env).dest.wal && Started(b, env).dest.size != size
    ensures v == Started(b, env).(rc := READONLY)
  {
    NothingCopied(Started(b, env), src, size, READONLY, nPage, env);
  }

  /** So does one in memory, once there is a page to copy. */
  lemma MemoryRefused(b: Backup, src: seq<Page>, size: nat, nPage: int, env: Env, v: Backup)
    requires BackupOk(b) && Paged(src, size) && EnvOk(b, env) && GoesOn(b.rc) && CanStart(b, env)
    requires v == Step(b, src, size, nPage, env) && nPage != 0
    requires Started(b, env).dest.memdb && !Started(b, env).dest.wal && Started(b, env).dest.size != size
    requires b.iNext <= |src| && b.iNext != PendingPage(size) && env.get(b.iNext) == OK
    ensures v == Started(b, env).(rc := READONLY, iNext := b.iNext + 1)
  {
    var e, next := Started(b, env), Started(b, env).(iNext := b.iNext + 1);
    assert Begin(b, size, env) == (e, OK);
    assert CopyNext(e, src, size, env) == (next, READONLY);
    assert CopyLoop(next, src, size, READONLY, 1, nPage, env) == (next, READONLY);
  }

  lemma {:induction false} CopyLoopLeaves(b: Backup, src: seq<Page>, size: nat, rc: Rc, ii: nat, nPage: int, env: Env,
          e: Backup, end: Rc)
    requires BackupOk(b) && Paged(src, size) && (e, end) == CopyLoop(b, src, size, rc, ii, nPage, env) && rc != DONE
    requires HardEnv(env)
    ensures e == b.(iNext := e.iNext, dest := e.dest) && end != DONE
    decreases |src| + 1 - b.iNext
  {
    if (nPage < 0 || ii < nPage) && b.iNext <= |src| && rc == OK {
      var (c, next) := CopyNext(b, src, size, env);
      CopyNextHard(b, src, size, env, c, next);
      CopyLoopLeaves(c, src, size, next, ii + 1, nPage, env, e, end);
    }
  }

  lemma CopyNextHard(b: Backup, src: seq<Page>, size: nat, env: Env, e: Backup, rc: Rc)
    requires BackupOk(b) && Paged(src, size) && b.iNext <= |src| && (e, rc) == CopyNext(b, src, size, env)
    requires HardEnv(env)
    ensures Hard(rc)
  {
    var k := b.iNext;
    if k != PendingPage(size) && env.get(k) == OK {
      CopyPageHard(b.dest, size, k, src[k - 1], Some(|src|), env.put, e.dest, rc);
    }
  }

  /** The counters of e are right for n pages. */
  predicate Counts(e: Backup, n: nat) {
    e.pagecount == n && (e.iNext <= n + 1 < 0x1_0000_0000 ==> e.remaining == n + 1 - e.iNext)
  }

  predicate SameCounts(b: Backup, e: Backup) {
    e.pagecount == b.pagecount && e.remaining == b.remaining
  }

  lemma SettleAnswers(b: Backup, n: nat, rc: Rc, e: Backup, end: Rc)
    requires BackupOk(b) && (e, end) == Settle(b, n, rc) && rc != DONE
    ensures end == if rc != OK then rc else if b.iNext <= n then OK else DONE
    ensures if rc == OK then Counts(e, n) else SameCounts(b, e)
    ensures e.attached == (b.attached || end == OK)
  {
  }

  /** The state and the code in which the copying leaves a step that could start. */
  lemma AdvanceAnswers(b: Backup, src: seq<Page>, size: nat, nPage: int, env: Env, e: Backup, rc: Rc)
    requires BackupOk(b) && Paged(src, size) && EnvOk(b, env) && HardEnv(env) && CanStart(b, env)
    requires (e, rc) == Advance(b, src, size, nPage, env)
    ensures e.locked && e.schema == Started(b, env).schema && BackupOk(e)
    ensures rc == OK ==> e.iNext <= |src|
    ensures rc == DONE ==> e.iNext > |src| && |env.blank| == e.dest.size
    ensures if rc == OK || rc == DONE then Counts(e, |src|) else SameCounts(b, e)
    ensures e.attached == (b.attached || rc == OK)
  {
    var (b1, rc1) := Begin(b, size, env);
    var (b2, rc2) := CopyLoop(b1, src, size, rc1, 0, nPage, env);
    CopyLoopLeaves(b1, src, size, rc1, 0, nPage, env, b2, rc2);
    SettleAnswers(b2, |src|, rc2, e, rc);
  }

  /**
   The answer of a step that could start: SQLITE_OK if pages are left, and then the source pager knows the handle;
   SQLITE_DONE only if none is left. The counters say how many pages there are and how many are left; they stay when
   the copying failed. The schema cookie that will be raised is the one found when the destination was locked.
   */
  lemma StepAnswers(b: Backup, src: seq<Page>, size: nat, nPage: int, env: Env, v: Backup)
    requires BackupOk(b) && Paged(src, size) && EnvOk(b, env) && HardEnv(env) && GoesOn(b.rc) && CanStart(b, env)
    requires v == Step(b, src, size, nPage, env)
    ensures v.locked && v.schema == Started(b, env).schema && v.rc != IOERR_NOMEM
    ensures v.rc == OK ==> v.iNext <= |src|
    ensures v.rc == DONE ==> v.iNext > |src|
    ensures v.attached == (b.attached || v.rc == OK)
    ensures if v.rc == OK || v.rc == DONE then Counts(v, |src|) else Counts(v, |src|) || SameCounts(b, v)
  {
    var (e, rc) := Advance(b, src, size, nPage, env);
    AdvanceAnswers(b, src, size, nPage, env, e, rc);
    if rc == DONE {
      var (d, end) := Complete(e.dest, e.schema, src, size, env);
      CompleteFatal(e.dest, e.schema, src, size, env, d, end);
    }
  }

  /** A write to a page that has still to be copied, or that the pager does not report, leaves the handle alone. */
  lemma WriteAhead(w: World, size: nat, k: nat, data: Page, put: nat -> Rc)
    requires Paged(w.src, size) && BackupOk(w.b) && 1 <= k <= |w.src| + 1 && |data| == size
    requires k >= w.b.iNext || k == PendingPage(size) || !w.b.attached || !GoesOn(w.b.rc)
    ensures WritePage(w, size, k, data, put).b == w.b
  {
  }

  /** What a run has failed with is what sqlite3_backup_finish answers, however long after. */
  lemma {:induction false} FailureIsReported(s: seq<World>, size: nat, events: seq<Event>, m: nat, n: nat)
    requires Run(s, size, events) && m <= n < |s| && !GoesOn(s[m].b.rc)
    ensures s[n].b.rc == s[m].b.rc
    ensures Finish(s[n].b).1 == if s[m].b.rc == DONE then OK else s[m].b.rc
    decreases n
  {
    if m < n {
      FailureIsReported(s, size, events, m, n - 1);
      assert Moves(s, size, events, n - 1);
      FatalSticks(s[n - 1], size, events[n - 1]);
    }
  }

  /** The first n bytes of the file are those of the page of an empty database, but for header bytes that are set. */
  ghost predicate StartsBlank(blank: Page, n: nat, wal: bool, schema: nat, file: seq<byte>) {
    forall o: nat :: o < n && o < |blank| && !OpenByte(o) ==>
      o < |file| && file[o] == if SetByte(wal, o) then SetValue(schema, o) else blank[o]
  }

  lemma FirstPage(size: nat, o: nat)
    requires PageSize(size)
    ensures o < size <==> PageOf(size, o) == 1
    ensures PendingPage(size) > 1
  {
    SizesDivide(size, size);
    if PageOf(size, o) == 1 { PageSpan(size, 1, o); }
  }

  lemma BlankCurrent(d: Dest, blank: Page, e: Dest)
    requires DestOk(d) && |blank| == d.size && e == PutPage(d, 1, blank)
    ensures Paged([blank], d.size) && Current([blank], d.size, e, 2)
  {
    forall o: nat | Holds([blank], d.size, o) && PageOf(d.size, o) < 2 && Copyable(d.size, e.size, o)
      ensures SameAt([blank], d.size, e, o)
    {
      PageSpan(d.size, 1, o);
    }
  }

  lemma SameFirstPage(d: Dest, blank: Page, schema: nat, e: Dest)
    requires DestOk(d) && |blank| == d.size && Right([blank], d.size, d, schema)
    requires DestOk(e) && e.size == d.size && e.wal == d.wal
    requires |d.pages| >= 1 && |e.pages| >= 1 && e.pages[0] == d.pages[0]
    ensures Right([blank], e.size, e, schema)
  {
    forall o: nat | Holds([blank], e.size, o) && Copyable(e.size, e.size, o)
      ensures RightAt([blank], e.size, e, schema, o)
    {
      assert RightAt([blank], d.size, d, schema, o);
      FirstPage(d.size, o);
    }
  }

  lemma BlankAt(d: Dest, blank: Page, schema: nat, o: nat)
    requires DestOk(d) && |blank| == d.size && o < d.size && !OpenByte(o)
    requires Right([blank], d.size, d, schema) && Flatten(ImagePages(d)) <= d.file
    ensures o < |d.file| && d.file[o] == if SetByte(d.wal, o) then SetValue(schema, o) else blank[o]
  {
    FirstPage(d.size, o);
    assert Holds([blank], d.size, o);
    ImageFile([blank], d.size, d, schema, o);
  }

  /** Phase one puts page 1 at the front of the file. */
  lemma BlankImage(d: Dest, blank: Page, schema: nat, env: Env, f: Dest)
    requires DestOk(d) && |blank| == d.size && Right([blank], d.size, d, schema)
    requires |env.counter| == 4 && |env.validFor| == 8 && f == CommitImage(d, env)
    ensures StartsBlank(blank, d.size, d.wal, schema, f.file)
  {
    CommitImageRight([blank], d.size, d, schema, env, f);
    CommitImageFile(d, env, f);
    forall o: nat | o < d.size && !OpenByte(o)
      ensures o < |f.file| && f.file[o] == if SetByte(d.wal, o) then SetValue(schema, o) else blank[o]
    {
      BlankAt(f, blank, schema, o);
    }
  }

  lemma EmptyEven(d: Dest, blank: Page, schema: nat, size: nat, env: Env, r: Dest)
    requires DestOk(d) && |blank| == d.size && PageSize(size) && d.size <= size && FileKnown(d)
    requires Right([blank], d.size, d, schema) && Hard(env.phaseOne) && Hard(env.phaseTwo) && |d.pages| > 0
    requires |env.counter| == 4 && |env.validFor| == 8 && (r, DONE) == FinishEven(d, size, 1, env)
    ensures |r.file| == size && StartsBlank(blank, Min(size, d.size), d.wal, schema, r.file)
  {
    var n := DestPages(size, d.size, 1);
    EvenSize(size, d.size, 1);
    FirstPage(size, 0);
    EvenImage(size, d.size, 1);
    var e := TruncateImage(d, n);
    SameFirstPage(d, blank, schema, e);
    BlankImage(e, blank, schema, env, CommitImage(e, env));
    PhaseTwoSize(e, n, env, CommitImage(e, env), r);
  }

  /** With larger destination pages the file is cut to one source page. */
  lemma CutToOnePage(d: Dest, size: nat, env: Env, r: Dest)
    requires DestOk(d) && PageSize(size) && size < d.size && |d.pages| >= 1 && |d.file| >= size
    requires (r, DONE) == DirectWrites(d, [], size, 1, env) && HardEnv(env)
    ensures r.file == d.file[..size]
  {
    SizesDivide(size, size);
    ExtraInside([], size, 1, PENDING_BYTE + d.size);
    Times(1, |d.pages|, d.size);
  }

  /** The last stage of an end that succeeds, and the journalled destination that phase one starts from. */
  lemma LargerStages(d: Dest, size: nat, env: Env, r: Dest) returns (j: Dest)
    requires DestOk(d) && PageSize(size) && size < d.size && HardEnv(env)
    requires |env.counter| == 4 && |env.validFor| == 8 && (r, DONE) == FinishLarger(d, [], size, 1, env)
    ensures DestOk(j) && j == d.(tx := d.tx.(journal := j.tx.journal))
    ensures (r, DONE) == DirectWrites(CommitImage(j, env), [], size, 1, env)
  {
    DestPagesPositive(size, d.size, 1);
    var t, saved := DestPages(size, d.size, 1), OK;
    j, saved := JournalTail(d, t, |d.pages|, env.journal).0, JournalTail(d, t, |d.pages|, env.journal).1;
    JournalTailHard(d, t, |d.pages|, env.journal, j, saved);
  }

  lemma EmptyLarger(d: Dest, blank: Page, schema: nat, size: nat, env: Env, r: Dest)
    requires DestOk(d) && |blank| == d.size && PageSize(size) && size < d.size && HardEnv(env)
    requires Right([blank], d.size, d, schema) && |d.pages| > 0
    requires |env.counter| == 4 && |env.validFor| == 8 && (r, DONE) == FinishLarger(d, [], size, 1, env)
    ensures |r.file| == size && StartsBlank(blank, Min(size, d.size), d.wal, schema, r.file)
  {
    var j := LargerStages(d, size, env, r);
    SamePagesRight([blank], d.size, d, schema, j);
    CutImage(j, blank, schema, size, env, CommitImage(j, env), r);
  }

  lemma CutImage(d: Dest, blank: Page, schema: nat, size: nat, env: Env, f: Dest, r: Dest)
    requires DestOk(d) && |blank| == d.size && PageSize(size) && size < d.size && HardEnv(env)
    requires Right([blank], d.size, d, schema) && |d.pages| > 0
    requires |env.counter| == 4 && |env.validFor| == 8 && f == CommitImage(d, env)
    requires (r, DONE) == DirectWrites(f, [], size, 1, env)
    ensures |r.file| == size && StartsBlank(blank, Min(size, d.size), d.wal, schema, r.file)
  {
    BlankImage(d, blank, schema, env, f);
    CommitImageFile(d, env, f);
    ImageNotEmpty(f);
    CutToOnePage(f, size, env, r);
  }

  lemma ImageNotEmpty(d: Dest)
    requires DestOk(d) && |d.pages| >= 1
    ensures |ImagePages(d)| * d.size >= d.size
  {
    FirstPage(d.size, 0);
    Times(1, |ImagePages(d)|, d.size);
  }

  /**
   An empty source: when the handle says SQLITE_DONE the destination file has the length of one source page, and in it
   the start of the page of an empty database, whatever the destination was before.
   */
  lemma EmptySource(b: Backup, size: nat, nPage: int, env: Env, v: Backup)
    requires Inv(World([], b), size) && EnvOk(b, env) && HardEnv(env) && GoesOn(b.rc)
    requires v == Step(b, [], size, nPage, env) && v.rc == DONE
    ensures |v.dest.file| == size
    ensures StartsBlank(env.blank, Min(size, v.dest.size), v.dest.wal, v.schema, v.dest.file)
  {
    var (e, rc) := Advance(b, [], size, nPage, env);
    AdvanceKeeps(World([], b), size, nPage, env, e, rc);
    CompleteEmpty(e.dest, e.schema, size, env, v.dest);
  }

  lemma CompleteEmpty(d: Dest, schema: nat, size: nat, env: Env, r: Dest)
    requires DestOk(d) && PageSize(size) && |env.blank| == d.size && |env.counter| == 4 && |env.validFor| == 8
    requires HardEnv(env) && TxOpen(d) && (r, DONE) == Complete(d, schema, [], size, env)
    ensures |r.file| == size && StartsBlank(env.blank, Min(size, r.size), r.wal, schema, r.file)
  {
    var e := PutPage(d, 1, env.blank);
    BlankCurrent(d, env.blank, e);
    var (f, rc) := PutHeader(e, schema, env);
    PutHeaderEnds(e, schema, env, f, rc);
    PutHeaderRight([env.blank], d.size, e, schema, env, f);
    if size < d.size {
      EmptyLarger(f, env.blank, schema, size, env, r);
    } else {
      EmptyEven(f, env.blank, schema, size, env, r);
    }
  }
}
