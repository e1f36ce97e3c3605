/**
 What each call on a backup handle does, as functions of the handle, the source pages and the replies of the layers
 below.
 */
module BackupSteps {
  import opened Arithmetic
  import opened BackupPages
  import opened BackupCopy

  /** sqlite3_backup, with its destination. */
  datatype Backup = Backup(
    iNext: nat, rc: Rc, locked: bool, attached: bool, schema: nat, remaining: nat, pagecount: nat, dest: Dest)

  /** What the pager, the B-tree and the file layer answer during one call of sqlite3_backup_step. */
  datatype Env = Env(
    writing: bool, begin: Rc, noMem: bool, lock: Rc, found: Dest, cookie: nat,
    get: nat -> Rc, put: nat -> Rc,
    newDb: Rc, blank: Page, meta: Rc, version: Rc,
    journal: nat -> Rc, phaseOne: Rc, written: nat, counter: seq<byte>, validFor: seq<byte>,
    write: nat -> Rc, truncate: Rc, sync: Rc, phaseTwo: Rc)

  predicate BackupOk(b: Backup) {
    b.iNext >= 1 && DestOk(b.dest)
  }

  /** A destination that has just been locked: nothing journalled yet, and not ending on its unused page. */
  predicate DestFound(d: Dest) {
    && DestOk(d) && |d.pages| != PendingPage(d.size) && d.file == Flatten(d.pages)
    && d.tx == Tx(|d.pages|, map[], |d.pages|, true)
  }

  predicate EnvOk(b: Backup, env: Env) {
    && DestFound(env.found) && env.begin != DONE && env.lock != DONE
    && |env.blank| == (if b.locked then b.dest.size else env.found.size)
    && |env.counter| == 4 && |env.validFor| == 8
  }

  /** The head of sqlite3_backup_step: transactions, and the lock on the destination. */
  function Begin(b: Backup, size: nat, env: Env): (r: (Backup, Rc))
    requires BackupOk(b) && EnvOk(b, env)
    ensures BackupOk(r.0) && r.0 == b.(locked := r.0.locked, dest := r.0.dest, schema := r.0.schema)
    ensures |env.blank| == r.0.dest.size || (!b.locked && r.1 != OK)
  {
    var started := if env.writing then BUSY else env.begin;
    var ready := if !b.locked && started == OK && env.noMem then NOMEM else started;
    var mayLock := ready == OK && !b.locked;
    var e := if mayLock && env.lock == OK then b.(locked := true, dest := env.found, schema := env.cookie) else b;
    var rc := if mayLock then env.lock else ready;
    (e, if rc == OK && e.dest.wal && size != e.dest.size then READONLY else rc)
  }

  /** One round of the copying loop: iNext moves on even when copying the page fails. */
  function CopyNext(b: Backup, src: seq<Page>, size: nat, env: Env): (r: (Backup, Rc))
    requires BackupOk(b) && Paged(src, size) && b.iNext <= |src|
    ensures BackupOk(r.0) && r.0 == b.(iNext := b.iNext + 1, dest := r.0.dest) && SameFile(b.dest, r.0.dest)
  {
    var k := b.iNext;
    if k == PendingPage(size) then (b.(iNext := k + 1), OK)
    else if env.get(k) != OK then (b.(iNext := k + 1), env.get(k))
    else
      var (d, rc) := CopyPage(b.dest, size, k, src[k - 1], Some(|src|), env.put);
      (b.(iNext := k + 1, dest := d), rc)
  }

  function CopyLoop(b: Backup, src: seq<Page>, size: nat, rc: Rc, ii: nat, nPage: int, env: Env): (r: (Backup, Rc))
    requires BackupOk(b) && Paged(src, size)
    ensures BackupOk(r.0) && r.0 == b.(iNext := r.0.iNext, dest := r.0.dest) && SameFile(b.dest, r.0.dest)
    decreases |src| + 1 - b.iNext
  {
    if (nPage < 0 || ii < nPage) && b.iNext <= |src| && rc == OK then
      var (e, next) := CopyNext(b, src, size, env);
      CopyLoop(e, src, size, next, ii + 1, nPage, env)
    else
      (b, rc)
  }

  /** After the loop: the counters, and either the end is reached or the source pager is asked to report writes. */
  function Settle(b: Backup, n: nat, rc: Rc): (r: (Backup, Rc))
    ensures r.0.dest == b.dest && r.0.iNext == b.iNext && r.0.locked == b.locked && r.0.schema == b.schema
  {
    if rc != OK then (b, rc)
    else
      var e := b.(pagecount := n, remaining := (n + 1 - b.iNext) % 0x1_0000_0000);
      if b.iNext > n then (e, DONE) else (e.(attached := true), OK)
  }

  /** Bytes put at offset x of page 1. */
  function PutBytes(d: Dest, x: nat, bytes: seq<byte>): (r: Dest)
    requires DestOk(d) && x + |bytes| <= 512
    ensures DestOk(r) && SameFile(d, r) && |r.pages| >= 1
  {
    PutPage(d, 1, Splice(GetPage(d, 1), x, bytes))
  }

  /** sqlite3BtreeNewDb: page 1 becomes that of an empty database. */
  function NewDb(d: Dest, env: Env): (r: (Dest, Rc))
    requires DestOk(d) && |env.blank| == d.size
    ensures DestOk(r.0) && SameFile(d, r.0)
  {
    if env.newDb == OK then (PutPage(d, 1, env.blank), OK) else (d, env.newDb)
  }

  /** Schema cookie and, in WAL mode, the two version bytes. */
  function PutHeader(d: Dest, schema: nat, env: Env): (r: (Dest, Rc))
    requires DestOk(d)
    ensures DestOk(r.0) && SameFile(d, r.0)
  {
    if env.meta != OK then (d, env.meta)
    else
      var e := PutBytes(d, 40, Put4(schema + 1));
      if !e.wal then (e, OK)
      else if env.version != OK then (e, env.version)
      else (PutBytes(e, 18, [2, 2]), OK)
  }

  /** nDestTruncate */
  function DestPages(size: nat, destSize: nat, n: nat): nat
    requires size > 0 && destSize > 0 && (size < destSize ==> destSize % size == 0)
  {
    if size < destSize then
      Ratio(size, destSize);
      var ratio := destSize / size;
      var t := (n + ratio - 1) / ratio;
      if t == PendingPage(destSize) then t - 1 else t
    else
      n * (size / destSize)
  }

  lemma DestPagesPositive(size: nat, destSize: nat, n: nat)
    requires PageSize(size) && PageSize(destSize) && size < destSize && n > 0
    ensures destSize % size == 0 && DestPages(size, destSize, n) > 0
  {
    SizesDivide(size, destSize);
    SizesDivide(destSize, destSize);
    Ratio(size, destSize);
    RoundUp(n, destSize / size);
  }

  lemma RoundUp(n: nat, ratio: nat)
    requires n > 0 && ratio > 0
    ensures var t := (n + ratio - 1) / ratio; t >= 1 && (t - 1) * ratio < n <= t * ratio
  {
    var t := (n + ratio - 1) / ratio;
    DivisionParts(n + ratio - 1, ratio);
    Distribute(t - 1, ratio);
  }

  lemma Ratio(a: nat, b: nat)
    requires 0 < a < b && b % a == 0
    ensures b / a >= 2 && b == (b / a) * a
  {
  }

  /** The pages that phase one puts into the file: an unused page at the very end is not among them. */
  function ImagePages(d: Dest): (r: seq<Page>)
    requires DestOk(d)
    ensures Paged(r, d.size) && |r| <= |d.pages| && forall i :: 0 <= i < |r| ==> r[i] == d.pages[i]
    ensures |d.pages| != PendingPage(d.size) ==> r == d.pages
  {
    if |d.pages| == PendingPage(d.size) then d.pages[..|d.pages| - 1] else d.pages
  }

  /** `front` written over the start of a file. */
  function Overlay(front: seq<byte>, file: seq<byte>): (r: seq<byte>)
    ensures |r| == if |front| < |file| then |file| else |front|
    ensures forall o :: 0 <= o < |r| ==> r[o] == if o < |front| then front[o] else file[o]
  {
    front + (if |front| < |file| then file[|front|..] else [])
  }

  /** Change counter and version mark go into page 1. */
  function Stamp(d: Dest, env: Env): (r: Dest)
    requires DestOk(d) && |env.counter| == 4 && |env.validFor| == 8
    ensures DestOk(r) && SameFile(d, r) && r.pages != []
  {
    PutBytes(PutBytes(d, 24, env.counter), 92, env.validFor)
  }

  /** The first m pages of the image go into the file, in order. What the file has beyond them stays. */
  function PutImage(d: Dest, m: nat): (r: Dest)
    requires DestOk(d)
    ensures r == d.(tx := r.tx, file := r.file)
  {
    var image := ImagePages(d);
    var front := if m < |image| then image[..m] else image;
    d.(file := Overlay(Flatten(front), d.file),
       tx := d.tx.(filePages := if d.tx.filePages < |front| then |front| else d.tx.filePages))
  }

  /** sqlite3PagerCommitPhaseOne when it succeeds. */
  function CommitImage(d: Dest, env: Env): (r: Dest)
    requires DestOk(d) && |env.counter| == 4 && |env.validFor| == 8
    ensures DestOk(r) && r == d.(pages := r.pages, tx := r.tx, file := r.file)
  {
    var e := Stamp(d, env);
    PutImage(e, |ImagePages(e)|)
  }

  /** sqlite3PagerCommitPhaseOne: it may fail when only some of the pages are in the file. */
  function PhaseOne(d: Dest, env: Env): (r: (Dest, Rc))
    requires DestOk(d) && |env.counter| == 4 && |env.validFor| == 8
    ensures DestOk(r.0) && r.0 == d.(pages := r.0.pages, tx := r.0.tx, file := r.0.file)
  {
    (if env.phaseOne == OK then CommitImage(d, env) else PutImage(Stamp(d, env), env.written), env.phaseOne)
  }

  /** sqlite3BtreeCommitPhaseTwo: the transaction is over, and pages of the file beyond the image are cut off. */
  function CommitPhaseTwo(d: Dest, env: Env): (r: (Dest, Rc))
    requires DestOk(d)
    ensures DestOk(r.0) && r.0 == d.(file := r.0.file, tx := r.0.tx)
  {
    if env.phaseTwo == OK then
      var length := |d.pages| * d.size;
      var cut := d.tx.filePages > |d.pages| && |d.file| > length;
      (d.(file := if cut then d.file[..length] else d.file, tx := d.tx.(active := false)), DONE)
    else (d, env.phaseTwo)
  }

  /** sqlite3PagerTruncateImage */
  function TruncateImage(d: Dest, n: nat): (r: Dest)
    requires DestOk(d)
    ensures DestOk(r) && r == d.(pages := r.pages) && |r.pages| == n
    ensures forall i :: 0 <= i < n && i < |d.pages| ==> r.pages[i] == d.pages[i]
  {
    d.(pages := Extend(d.pages, n, d.size)[..n])
  }

  /** The end when the destination pages are no larger. */
  function FinishEven(d: Dest, size: nat, n: nat, env: Env): (r: (Dest, Rc))
    requires DestOk(d) && PageSize(size) && size >= d.size && |env.counter| == 4 && |env.validFor| == 8
    ensures DestOk(r.0) && r.0.size == d.size && r.0.wal == d.wal
  {
    var e := TruncateImage(d, DestPages(size, d.size, n));
    var (f, rc) := PhaseOne(e, env);
    if rc != OK then (f, rc) else CommitPhaseTwo(f, env)
  }

  /** Every page the truncation of the file could hurt is written to the journal first. */
  function JournalTail(d: Dest, k: nat, last: nat, journal: nat -> Rc): (r: (Dest, Rc))
    requires DestOk(d) && k >= 1
    ensures DestOk(r.0) && r.0 == d.(tx := d.tx.(journal := r.0.tx.journal))
    decreases last + 1 - k
  {
    if k > last then (d, OK)
    else if k == PendingPage(d.size) then JournalTail(d, k + 1, last, journal)
    else if journal(k) != OK then (d, journal(k))
    else JournalTail(PagerWrite(d, k), k + 1, last, journal)
  }

  /** `goal` is what the journalling loop comes to from here. */
  ghost predicate JournalComesTo(d: Dest, k: nat, last: nat, journal: nat -> Rc, rc: Rc, goal: (Dest, Rc)) {
    if rc == OK then DestOk(d) && k >= 1 && goal == JournalTail(d, k, last, journal) else goal == (d, rc)
  }

  lemma JournalRound(d: Dest, k: nat, last: nat, journal: nat -> Rc, rc: Rc, e: Dest, goal: (Dest, Rc))
    requires JournalComesTo(d, k, last, journal, OK, goal) && k <= last
    requires rc == if k == PendingPage(d.size) then OK else journal(k)
    requires e == if k == PendingPage(d.size) || rc != OK then d else PagerWrite(d, k)
    ensures JournalComesTo(e, k + 1, last, journal, rc, goal)
  {
  }

  /** The source has every byte between the two offsets. */
  ghost predicate HasBytes(src: seq<Page>, size: nat, off: nat, end: nat) {
    Paged(src, size) && forall o: nat :: off <= o < end ==> Holds(src, size, o)
  }

  /** The direct writes of FinishLarger stay inside the source. */
  lemma ExtraInside(src: seq<Page>, size: nat, n: nat, limit: nat)
    requires Paged(src, size) && (n == |src| || n == 1)
    ensures HasBytes(src, size, PENDING_BYTE + size, Min(limit, size * n))
  {
    forall o: nat | PENDING_BYTE + size <= o < Min(limit, size * n) ensures Holds(src, size, o) {
      InsideSource(size, |src|, o);
    }
  }

  /** Source pages inside the unused page of the destination go to the file directly. */
  ghost function WriteExtra(file: seq<byte>, src: seq<Page>, size: nat, off: nat, end: nat,
          write: nat -> Rc): (r: (seq<byte>, Rc))
    requires HasBytes(src, size, off, end)
    decreases end - off
  {
    if off >= end then (file, OK)
    else
      assert Holds(src, size, off);
      var k := PageOf(size, off);
      if write(k) != OK then (file, write(k))
      else WriteExtra(FileWrite(file, off, src[k - 1]), src, size, off + size, end, write)
  }

  lemma InsideSource(size: nat, n: nat, o: nat)
    requires size > 0
    ensures o < n * size <==> PageOf(size, o) <= n
  {
    var q := o / size;
    assert q * size <= o < (q + 1) * size;
    Times(q + 1, n, size);
    Times(n, q, size);
  }

  /** `goal` is what the direct writes come to from here. */
  ghost predicate WritesComeTo(file: seq<byte>, src: seq<Page>, size: nat, off: nat, end: nat, write: nat -> Rc,
          rc: Rc, goal: (seq<byte>, Rc)) {
    if rc == OK then
      HasBytes(src, size, off, end) && goal == WriteExtra(file, src, size, off, end, write)
    else goal == (file, rc)
  }

  lemma WriteRound(file: seq<byte>, src: seq<Page>, size: nat, off: nat, end: nat, write: nat -> Rc, rc: Rc,
          next: seq<byte>, goal: (seq<byte>, Rc))
    requires WritesComeTo(file, src, size, off, end, write, OK, goal) && off < end
    requires Holds(src, size, off) && rc == write(PageOf(size, off))
    requires next == if rc == OK then FileWrite(file, off, src[PageOf(size, off) - 1]) else file
    ensures WritesComeTo(next, src, size, off + size, end, write, rc, goal)
  {
  }

  /** What follows phase one when the destination pages are larger: the file is completed and cut directly. */
  ghost function DirectWrites(d: Dest, src: seq<Page>, size: nat, n: nat, env: Env): (r: (Dest, Rc))
    requires DestOk(d) && Paged(src, size) && size < d.size && (n == |src| || n == 1)
    ensures DestOk(r.0) && r.0 == d.(file := r.0.file, tx := r.0.tx)
  {
    var iSize := size * n;
    ExtraInside(src, size, n, PENDING_BYTE + d.size);
    var end := Min(PENDING_BYTE + d.size, iSize);
    var (file, wrote) := WriteExtra(d.file, src, size, PENDING_BYTE + size, end, env.write);
    if wrote != OK then (d.(file := file), wrote)
    else if env.truncate != OK then (d.(file := file), env.truncate)
    else
      var cut := d.(file := if |file| > iSize then file[..iSize] else file);
      if env.sync != OK then (cut, env.sync) else CommitPhaseTwo(cut, env)
  }

  /** The end when the destination pages are larger. */
  ghost function FinishLarger(d: Dest, src: seq<Page>, size: nat, n: nat, env: Env): (r: (Dest, Rc))
    requires DestOk(d) && Paged(src, size) && size < d.size && |env.counter| == 4 && |env.validFor| == 8
    requires (n == |src| || n == 1) && n > 0
    ensures DestOk(r.0) && r.0.size == d.size && r.0.wal == d.wal
  {
    SizesDivide(size, d.size);
    DestPagesPositive(size, d.size, n);
    var (j, rc) := JournalTail(d, DestPages(size, d.size, n), |d.pages|, env.journal);
    if rc != OK then (j, rc)
    else
      var (e, put) := PhaseOne(j, env);
      if put != OK then (e, put) else DirectWrites(e, src, size, n, env)
  }

  /** The tail of sqlite3_backup_step once every page is copied. */
  ghost function Complete(d: Dest, schema: nat, src: seq<Page>, size: nat, env: Env): (r: (Dest, Rc))
    requires DestOk(d) && Paged(src, size) && |env.blank| == d.size && |env.counter| == 4 && |env.validFor| == 8
    ensures DestOk(r.0) && r.0.size == d.size && r.0.wal == d.wal
  {
    var (d1, rc1) := if src == [] then NewDb(d, env) else (d, OK);
    if rc1 != OK then (d1, rc1)
    else
      var (d2, rc2) := PutHeader(d1, schema, env);
      if rc2 != OK then (d2, rc2)
      else
        var n := if src == [] then 1 else |src|;
        if size < d.size then FinishLarger(d2, src, size, n, env) else FinishEven(d2, size, n, env)
  }

  /** The first part of a step: as far as it copies pages. */
  function Advance(b: Backup, src: seq<Page>, size: nat, nPage: int, env: Env): (r: (Backup, Rc))
    requires BackupOk(b) && Paged(src, size) && EnvOk(b, env)
    ensures BackupOk(r.0) && (r.1 == DONE ==> |env.blank| == r.0.dest.size)
  {
    var (b1, rc1) := Begin(b, size, env);
    var (b2, rc2) := CopyLoop(b1, src, size, rc1, 0, nPage, env);
    Settle(b2, |src|, rc2)
  }

  /** The last part of a step: the end of the backup if every page is copied, and the code the handle keeps. */
  ghost function Close(b: Backup, rc: Rc, src: seq<Page>, size: nat, env: Env): (r: Backup)
    requires BackupOk(b) && Paged(src, size) && |env.counter| == 4 && |env.validFor| == 8
    requires rc == DONE ==> |env.blank| == b.dest.size
    ensures BackupOk(r) && r.iNext == b.iNext && r.attached == b.attached
  {
    if rc == DONE then
      var (d, end) := Complete(b.dest, b.schema, src, size, env);
      b.(dest := d, rc := NoMem(end))
    else
      b.(rc := NoMem(rc))
  }

  /** sqlite3_backup_step */
  ghost function Step(b: Backup, src: seq<Page>, size: nat, nPage: int, env: Env): (r: Backup)
    requires BackupOk(b) && Paged(src, size) && EnvOk(b, env)
    ensures BackupOk(r)
  {
    if Fatal(b.rc) then b
    else
      var (e, rc) := Advance(b, src, size, nPage, env);
      Close(e, rc, src, size, env)
  }

  function NoMem(rc: Rc): Rc {
    if rc == IOERR_NOMEM then NOMEM else rc
  }

  /** backupUpdate for one handle: page k of the source now holds data. */
  function Update(b: Backup, size: nat, k: nat, data: Page, put: nat -> Rc): (r: Backup)
    requires BackupOk(b) && PageSize(size) && |data| == size && k >= 1
    ensures BackupOk(r)
  {
    if !Fatal(b.rc) && k < b.iNext then
      var (d, rc) := CopyPage(b.dest, size, k, data, None, put);
      b.(dest := d, rc := if rc != OK then rc else b.rc)
    else b
  }

  /** c is what backupUpdate makes of b. */
  predicate Updated(b: Backup, c: Backup, size: nat, k: nat, data: Page, put: nat -> Rc) {
    BackupOk(b) && PageSize(size) && |data| == size && k >= 1 && c == Update(b, size, k, data, put)
  }

  /** sqlite3BackupRestart for one handle. */
  function Restart(b: Backup): Backup {
    b.(iNext := 1)
  }

  /** A byte read from a file: zero behind its end. */
  function FileByte(file: seq<byte>, o: nat): byte {
    if o < |file| then file[o] else 0
  }

  /** Page k as it is read from a file. */
  function FilePage(file: seq<byte>, size: nat, k: nat): (p: Page)
    requires k >= 1
    ensures |p| == size
  {
    seq<byte>(size, x requires 0 <= x < size => FileByte(file, (k - 1) * size + x))
  }

  /** Page k as the rollback leaves it: from the journal if it is there, else as the file has it. */
  function RestoredPage(d: Dest, k: nat): Page
    requires k >= 1
  {
    if k in d.tx.journal then d.tx.journal[k] else FilePage(d.file, d.size, k)
  }

  /** sqlite3PagerRollback: the file gets its old size back, and the journalled pages their old content. */
  function Rollback(d: Dest): (r: Dest) {
    var pages := seq(d.tx.origSize, i requires 0 <= i => RestoredPage(d, i + 1));
    d.(pages := pages, file := Flatten(pages), tx := d.tx.(active := false))
  }

  /** sqlite3_backup_finish: an open transaction is rolled back. */
  function Finish(b: Backup): (Backup, Rc) {
    (if b.locked && b.dest.tx.active then b.(dest := Rollback(b.dest)) else b, if b.rc == DONE then OK else b.rc)
  }
}
