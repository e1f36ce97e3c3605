/** The destination file when a backup reports SQLITE_DONE. */
module BackupFile {
  import opened Arithmetic
  import opened BackupPages
  import opened BackupCopy
  import opened BackupSteps
  import opened BackupRun

  /** Header bytes a backup sets to values of its own: the schema cookie, and in WAL mode the format versions. */
  predicate SetByte(wal: bool, o: nat) {
    (wal && 18 <= o < 20) || 40 <= o < 44
  }

  function SetValue(schema: nat, o: nat): byte
    requires 18 <= o < 20 || 40 <= o < 44
  {
    if o < 20 then 2 else Put4(schema + 1)[o - 40]
  }

  /** Header bytes left open: change counter, page count, and the version mark that goes with the counter. */
  predicate OpenByte(o: nat) {
    24 <= o < 32 || 92 <= o < 100
  }

  /** v is right for offset o of a finished backup. */
  predicate RightByte(src: seq<Page>, size: nat, wal: bool, schema: nat, o: nat, v: byte)
    requires Paged(src, size) && Holds(src, size, o)
  {
    if SetByte(wal, o) then v == SetValue(schema, o) else v == At(src, size, o) || OpenByte(o)
  }

  predicate RightAt(src: seq<Page>, size: nat, d: Dest, schema: nat, o: nat)
    requires Paged(src, size) && Holds(src, size, o) && DestOk(d)
  {
    Holds(d.pages, d.size, o) && RightByte(src, size, d.wal, schema, o, At(d.pages, d.size, o))
  }

  ghost predicate Right(src: seq<Page>, size: nat, d: Dest, schema: nat)
    requires Paged(src, size) && DestOk(d)
  {
    forall o: nat :: Holds(src, size, o) && Copyable(size, d.size, o) ==> RightAt(src, size, d, schema, o)
  }

  /** Bytes put into page 1 change those bytes only. */
  lemma PutBytesAt(d: Dest, x: nat, bytes: seq<byte>, r: Dest, o: nat)
    requires DestOk(d) && x + |bytes| <= 512 && r == PutBytes(d, x, bytes) && Holds(d.pages, d.size, o)
    ensures Holds(r.pages, r.size, o)
    ensures At(r.pages, r.size, o) == if x <= o < x + |bytes| then bytes[o - x] else At(d.pages, d.size, o)
  {
    PageSpan(d.size, 1, o);
    PutPageAt(d, 1, Splice(GetPage(d, 1), x, bytes), r, o);
  }

  lemma PutHeaderRight(src: seq<Page>, size: nat, d: Dest, schema: nat, env: Env, r: Dest)
    requires Paged(src, size) && DestOk(d) && Current(src, size, d, |src| + 1)
    requires (r, OK) == PutHeader(d, schema, env)
    ensures Right(src, size, r, schema)
  {
    var cookie := Put4(schema + 1);
    var e := PutBytes(d, 40, cookie);
    forall o: nat | Holds(src, size, o) && Copyable(size, r.size, o) ensures RightAt(src, size, r, schema, o) {
      assert SameAt(src, size, d, o);
      PutBytesAt(d, 40, cookie, e, o);
      if d.wal {
        PutBytesAt(e, 18, [2, 2], r, o);
      }
    }
  }

  lemma CommitImageRight(src: seq<Page>, size: nat, d: Dest, schema: nat, env: Env, r: Dest)
    requires Paged(src, size) && DestOk(d) && Right(src, size, d, schema)
    requires |env.counter| == 4 && |env.validFor| == 8 && r == CommitImage(d, env)
    ensures Right(src, size, r, schema)
  {
    var e := PutBytes(d, 24, env.counter);
    var f := PutBytes(e, 92, env.validFor);
    forall o: nat | Holds(src, size, o) && Copyable(size, r.size, o) ensures RightAt(src, size, r, schema, o) {
      assert RightAt(src, size, d, schema, o);
      PutBytesAt(d, 24, env.counter, e, o);
      PutBytesAt(e, 92, env.validFor, f, o);
    }
  }

  /** The file as phase one leaves it: the image in front, and what was behind it before. */
  lemma CommitImageFile(d: Dest, env: Env, r: Dest)
    requires DestOk(d) && |env.counter| == 4 && |env.validFor| == 8 && r == CommitImage(d, env)
    ensures |r.pages| == (if |d.pages| == 0 then 1 else |d.pages|) && r.tx.active == d.tx.active
    ensures Flatten(ImagePages(r)) <= r.file
    ensures r.tx.filePages == if d.tx.filePages < |ImagePages(r)| then |ImagePages(r)| else d.tx.filePages
    ensures |r.file| == if |d.file| < |ImagePages(r)| * d.size then |ImagePages(r)| * d.size else |d.file|
  {
    FlattenLength(ImagePages(r), r.size);
  }

  /** Not empty, and not ending on the unused page: the B-tree layer never lets a database do that. */
  predicate WellSized(src: seq<Page>, size: nat)
    requires size > 0
  {
    |src| > 0 && |src| != PendingPage(size)
  }

  /** What the result needs of the source: with smaller destination pages it may even end on its unused page. */
  predicate FitsInto(src: seq<Page>, size: nat, destSize: nat)
    requires size > 0
  {
    |src| > 0 && (|src| == PendingPage(size) ==> destSize < size)
  }

  predicate Unused(size: nat, o: nat) {
    PENDING_BYTE <= o < PENDING_BYTE + size
  }

  predicate FileAt(src: seq<Page>, size: nat, wal: bool, schema: nat, file: seq<byte>, o: nat)
    requires Paged(src, size)
  {
    o < |file| && Holds(src, size, o) && RightByte(src, size, wal, schema, o, file[o])
  }

  /**
   What SQLITE_DONE stands for: the file has the size of the source, and at every offset outside the unused page of the
   source it has the source's byte, but for the header bytes that are set or left open.
   */
  ghost predicate Snapshot(src: seq<Page>, size: nat, wal: bool, schema: nat, file: seq<byte>)
    requires Paged(src, size)
  {
    && |file| == size * |src|
    && forall o: nat :: o < |file| && !Unused(size, o) ==> FileAt(src, size, wal, schema, file, o)
  }

  /** The page count of the even case gives exactly the size of the source. */
  lemma EvenSize(size: nat, destSize: nat, n: nat)
    requires PageSize(size) && PageSize(destSize) && destSize <= size
    ensures DestPages(size, destSize, n) * destSize == size * n
    ensures n > 0 ==> DestPages(size, destSize, n) > 0
  {
    SizesDivide(destSize, size);
    var r := size / destSize;
    Factor(size, destSize, r);
    Regroup(n, r, destSize);
    Times(1, n, r);
    assert DestPages(size, destSize, n) == n * r;
  }

  lemma Factor(a: nat, b: nat, r: nat)
    requires b > 0 && a % b == 0 && r == a / b && a >= b
    ensures a == r * b && r >= 1
  {
  }

  /** That page count is not one at which phase one leaves out the last page. */
  lemma EvenImage(size: nat, destSize: nat, n: nat)
    requires PageSize(size) && PageSize(destSize) && destSize <= size && (n == PendingPage(size) ==> destSize < size)
    ensures DestPages(size, destSize, n) != PendingPage(destSize)
  {
    SizesDivide(destSize, size);
    SizesDivide(size, size);
    var r, p := size / destSize, PENDING_BYTE / size;
    Factor(size, destSize, r);
    Factor(PENDING_BYTE, size, p);
    Regroup(p, r, destSize);
    Quotient(PENDING_BYTE, destSize, p * r);
    assert r == 1 ==> size == destSize;
    if r >= 2 {
      if n <= p {
        Times(n, p, r);
      } else {
        Times(p + 1, n, r);
        Distribute(p, r);
      }
    }
  }

  /** Outside the unused pages, what the image has right the file has right. */
  lemma ImageFile(src: seq<Page>, size: nat, d: Dest, schema: nat, o: nat)
    requires Paged(src, size) && DestOk(d) && Right(src, size, d, schema) && Flatten(ImagePages(d)) <= d.file
    requires Holds(src, size, o) && Copyable(size, d.size, o)
    ensures FileAt(src, size, d.wal, schema, d.file, o)
  {
    assert RightAt(src, size, d, schema, o);
    InsideSource(d.size, |ImagePages(d)|, o);
    FlattenAt(ImagePages(d), d.size, o);
  }

  lemma TruncateRight(src: seq<Page>, size: nat, d: Dest, schema: nat, n: nat, e: Dest)
    requires Paged(src, size) && DestOk(d) && Right(src, size, d, schema)
    requires e == TruncateImage(d, n) && n * d.size == size * |src|
    ensures Right(src, size, e, schema)
  {
    forall o: nat | Holds(src, size, o) && Copyable(size, e.size, o) ensures RightAt(src, size, e, schema, o) {
      assert RightAt(src, size, d, schema, o);
      InsideSource(size, |src|, o);
      InsideSource(d.size, n, o);
    }
  }

  /** Phase two leaves a file of exactly n pages, as phase one put them there. */
  lemma PhaseTwoSize(d: Dest, n: nat, env: Env, f: Dest, r: Dest)
    requires DestOk(d) && FileKnown(d) && 1 <= n == |d.pages| != PendingPage(d.size)
    requires |env.counter| == 4 && |env.validFor| == 8 && f == CommitImage(d, env)
    requires (r, DONE) == CommitPhaseTwo(f, env) && Hard(env.phaseTwo)
    ensures |r.file| == n * d.size && r.file <= f.file && !r.tx.active
  {
    CommitImageFile(d, env, f);
    var m := d.tx.filePages;
    if m > n {
      Times(n, m, d.size);
      Times(n + 1, m, d.size);
      Distribute(n, d.size);
    } else {
      Times(m, n, d.size);
    }
  }

  lemma EvenSnapshot(src: seq<Page>, size: nat, d: Dest, schema: nat, env: Env, r: Dest)
    requires Paged(src, size) && DestOk(d) && d.size <= size && FitsInto(src, size, d.size)
    requires Right(src, size, d, schema) && FileKnown(d)
    requires |env.counter| == 4 && |env.validFor| == 8 && (r, DONE) == FinishEven(d, size, |src|, env)
    requires Hard(env.phaseOne) && Hard(env.phaseTwo)
    ensures Snapshot(src, size, d.wal, schema, r.file) && !r.tx.active
  {
    var n := DestPages(size, d.size, |src|);
    EvenSize(size, d.size, |src|);
    EvenImage(size, d.size, |src|);
    var e := TruncateImage(d, n);
    TruncateRight(src, size, d, schema, n, e);
    var f := CommitImage(e, env);
    CommitImageRight(src, size, e, schema, env, f);
    CommitImageFile(e, env, f);
    PhaseTwoSize(e, n, env, f, r);
    forall o: nat | o < |r.file| && !Unused(size, o) ensures FileAt(src, size, d.wal, schema, r.file, o) {
      InsideSource(size, |src|, o);
      PendingSpan(size, o);
      PendingSpan(d.size, o);
      ImageFile(src, size, f, schema, o);
    }
  }

  lemma SameSize(size: nat, n: nat)
    requires size > 0
    ensures DestPages(size, size, n) == n
  {
    Quotient(size, size, 1);
  }

  lemma PhaseTwoShort(d: Dest, n: nat, env: Env, f: Dest, r: Dest)
    requires DestOk(d) && FileKnown(d) && n == |d.pages| == PendingPage(d.size) && d.tx.filePages < n
    requires |env.counter| == 4 && |env.validFor| == 8 && f == CommitImage(d, env)
    requires (r, DONE) == CommitPhaseTwo(f, env) && Hard(env.phaseTwo)
    ensures |r.file| == d.size * (n - 1) && d.size * (n - 1) < d.size * n
  {
    CommitImageFile(d, env, f);
    Times(d.tx.filePages, n - 1, d.size);
    Distribute(n - 1, d.size);
  }

  /**
   Why a source must not end on its unused page when the page sizes are the same: phase one does not put that page into
   the file, so the file gets too short unless it was long enough before.
   */
  lemma UnusedPageMissing(src: seq<Page>, size: nat, d: Dest, schema: nat, env: Env, r: Dest)
    requires Paged(src, size) && DestOk(d) && d.size == size && |src| == PendingPage(size)
    requires FileKnown(d) && d.tx.filePages < |src| && Hard(env.phaseOne) && Hard(env.phaseTwo)
    requires |env.counter| == 4 && |env.validFor| == 8 && (r, DONE) == FinishEven(d, size, |src|, env)
    ensures |r.file| == size * (|src| - 1) && !Snapshot(src, size, d.wal, schema, r.file)
  {
    var n := |src|;
    SameSize(size, n);
    var e := TruncateImage(d, n);
    PhaseTwoShort(e, n, env, CommitImage(e, env), r);
  }

  ghost predicate ExtraLeft(src: seq<Page>, size: nat, off: nat, end: nat) {
    HasBytes(src, size, off, end) && off % size == 0 && end % size == 0
  }

  lemma ExtraNext(src: seq<Page>, size: nat, off: nat, end: nat)
    requires ExtraLeft(src, size, off, end) && off < end
    ensures ExtraLeft(src, size, off + size, end) && off + size <= end
    ensures Holds(src, size, off)
  {
    AddMultiple(off, size, size);
    AddMultiple(end, off, size);
    SmallModulo(end - off, size);
  }

  /** Direct writes leave the file alone outside their range, however they end. */
  lemma {:induction false} WriteExtraElsewhere(file: seq<byte>, src: seq<Page>, size: nat, off: nat, end: nat,
          write: nat -> Rc, r: seq<byte>, rc: Rc, o: nat)
    requires ExtraLeft(src, size, off, end)
    requires WriteExtra(file, src, size, off, end, write) == (r, rc) && !(off <= o < end)
    ensures |file| <= |r| && FileByte(r, o) == FileByte(file, o)
    decreases end - off
  {
    if off < end {
      ExtraNext(src, size, off, end);
      if write(PageOf(size, off)) == OK {
        var f := FileWrite(file, off, src[PageOf(size, off) - 1]);
        assert FileByte(f, o) == FileByte(file, o);
        WriteExtraElsewhere(f, src, size, off + size, end, write, r, rc, o);
      }
    }
  }

  lemma FirstExtra(file: seq<byte>, src: seq<Page>, size: nat, off: nat, f: seq<byte>, o: nat)
    requires Paged(src, size) && off % size == 0 && Holds(src, size, off)
    requires f == FileWrite(file, off, src[PageOf(size, off) - 1]) && off <= o < off + size
    ensures o < |f| && Holds(src, size, o) && f[o] == At(src, size, o)
  {
    BlockInPage(size, size, off, o - off);
    assert off + (o - off) == o;
    assert PageOf(size, o) == PageOf(size, off) && o % size == o - off;
  }

  /** Inside their range they put the source's bytes. */
  lemma {:induction false} WriteExtraAt(file: seq<byte>, src: seq<Page>, size: nat, off: nat, end: nat,
          write: nat -> Rc, r: seq<byte>, o: nat)
    requires ExtraLeft(src, size, off, end)
    requires WriteExtra(file, src, size, off, end, write) == (r, OK)
    requires off <= o < end
    ensures o < |r| && Holds(src, size, o) && r[o] == At(src, size, o)
    decreases end - off
  {
    ExtraNext(src, size, off, end);
    var f := FileWrite(file, off, src[PageOf(size, off) - 1]);
    if o < off + size {
      FirstExtra(file, src, size, off, f, o);
      WriteExtraElsewhere(f, src, size, off + size, end, write, r, OK, o);
    } else {
      WriteExtraAt(f, src, size, off + size, end, write, r, o);
    }
  }

  /** The pages the larger destination keeps reach the end of the source, or all but what is inside its unused page. */
  lemma TruncationAssert(size: nat, destSize: nat, n: nat)
    requires PageSize(size) && PageSize(destSize) && size < destSize && n > 0
    ensures destSize % size == 0
    ensures DestPages(size, destSize, n) > 0
    ensures
      || DestPages(size, destSize, n) * destSize >= size * n
      || (DestPages(size, destSize, n) == PendingPage(destSize) - 1
          && PENDING_BYTE <= size * n <= PENDING_BYTE + destSize)
  {
    SizesDivide(size, destSize);
    SizesDivide(destSize, destSize);
    var ratio := destSize / size;
    Ratio(size, destSize);
    RoundUp(n, ratio);
    RoundUpBytes(size, destSize, n, ratio, (n + ratio - 1) / ratio);
    assert (PENDING_BYTE / destSize) * destSize == PENDING_BYTE;
  }

  lemma RoundUpBytes(size: nat, destSize: nat, n: nat, ratio: nat, t: nat)
    requires destSize == ratio * size && t >= 1 && (t - 1) * ratio < n <= t * ratio
    ensures (t - 1) * destSize <= size * n <= t * destSize
    ensures t * destSize == (t - 1) * destSize + destSize
  {
    Times(n, t * ratio, size);
    Times((t - 1) * ratio, n, size);
    Regroup(t, ratio, size);
    Regroup(t - 1, ratio, size);
    Distribute(t - 1, destSize);
  }

  lemma ExtraRange(src: seq<Page>, size: nat, destSize: nat, n: nat)
    requires Paged(src, size) && PageSize(destSize) && size < destSize && (n == |src| || n == 1)
    ensures ExtraLeft(src, size, PENDING_BYTE + size, Min(PENDING_BYTE + destSize, size * n))
  {
    SizesDivide(size, size);
    SizesDivide(size, destSize);
    AddMultiple(PENDING_BYTE, size, size);
    AddMultiple(PENDING_BYTE, destSize, size);
    ModuloOfMultiple(n, size);
    ExtraInside(src, size, n, PENDING_BYTE + destSize);
  }

  lemma LargerFile(src: seq<Page>, size: nat, e: Dest, schema: nat, env: Env, end: nat, file: seq<byte>, o: nat)
    requires Paged(src, size) && DestOk(e) && size < e.size && Right(src, size, e, schema)
    requires Flatten(ImagePages(e)) <= e.file
    requires end == Min(PENDING_BYTE + e.size, size * |src|)
    requires HasBytes(src, size, PENDING_BYTE + size, end)
    requires WriteExtra(e.file, src, size, PENDING_BYTE + size, end, env.write) == (file, OK)
    requires o < size * |src| && !Unused(size, o)
    ensures FileAt(src, size, e.wal, schema, file, o)
  {
    var off := PENDING_BYTE + size;
    ExtraRange(src, size, e.size, |src|);
    InsideSource(size, |src|, o);
    if off <= o < end {
      WriteExtraAt(e.file, src, size, off, end, env.write, file, o);
    } else {
      PendingSpan(size, o);
      PendingSpan(e.size, o);
      ImageFile(src, size, e, schema, o);
      WriteExtraElsewhere(e.file, src, size, off, end, env.write, file, OK, o);
    }
  }

  /** Cut to the size of the source, a file that is right everywhere in it is a snapshot. */
  lemma CutSnapshot(src: seq<Page>, size: nat, wal: bool, schema: nat, file: seq<byte>, cut: seq<byte>)
    requires Paged(src, size) && WellSized(src, size)
    requires forall o: nat :: o < size * |src| && !Unused(size, o) ==> FileAt(src, size, wal, schema, file, o)
    requires cut == if |file| > size * |src| then file[..size * |src|] else file
    ensures Snapshot(src, size, wal, schema, cut)
  {
    var n := size * |src|;
    LastByte(src, size);
    assert FileAt(src, size, wal, schema, file, n - 1);
    forall o: nat | o < |cut| && !Unused(size, o) ensures FileAt(src, size, wal, schema, cut, o) {
      assert FileAt(src, size, wal, schema, file, o);
    }
  }

  /** The direct writes and the cut make a snapshot of what phase one has left. */
  lemma DirectWritesSnapshot(src: seq<Page>, size: nat, e: Dest, schema: nat, env: Env, r: Dest)
    requires Paged(src, size) && DestOk(e) && size < e.size && WellSized(src, size) && HardEnv(env)
    requires Right(src, size, e, schema) && Flatten(ImagePages(e)) <= e.file && e.tx.filePages <= |e.pages|
    requires (r, DONE) == DirectWrites(e, src, size, |src|, env)
    ensures Snapshot(src, size, e.wal, schema, r.file) && !r.tx.active
  {
    var end := Min(PENDING_BYTE + e.size, size * |src|);
    ExtraRange(src, size, e.size, |src|);
    var (file, wrote) := WriteExtra(e.file, src, size, PENDING_BYTE + size, end, env.write);
    WriteExtraHard(e.file, src, size, PENDING_BYTE + size, end, env.write, file, wrote);
    assert wrote == OK;
    forall o: nat | o < size * |src| && !Unused(size, o) ensures FileAt(src, size, e.wal, schema, file, o) {
      LargerFile(src, size, e, schema, env, end, file, o);
    }
    CutSnapshot(src, size, e.wal, schema, file, r.file);
  }

  lemma LargerSnapshot(src: seq<Page>, size: nat, d: Dest, schema: nat, env: Env, r: Dest)
    requires Paged(src, size) && DestOk(d) && size < d.size && WellSized(src, size) && HardEnv(env)
    requires Right(src, size, d, schema) && d.tx.filePages <= |d.pages|
    requires |env.counter| == 4 && |env.validFor| == 8 && (r, DONE) == FinishLarger(d, src, size, |src|, env)
    ensures Snapshot(src, size, d.wal, schema, r.file) && !r.tx.active
  {
    DestPagesPositive(size, d.size, |src|);
    var t := DestPages(size, d.size, |src|);
    var (j, saved) := JournalTail(d, t, |d.pages|, env.journal);
    JournalTailHard(d, t, |d.pages|, env.journal, j, saved);
    var e := CommitImage(j, env);
    SamePagesRight(src, size, d, schema, j);
    CommitImageRight(src, size, j, schema, env, e);
    CommitImageFile(j, env, e);
    DirectWritesSnapshot(src, size, e, schema, env, r);
  }

  lemma SamePagesRight(src: seq<Page>, size: nat, d: Dest, schema: nat, e: Dest)
    requires Paged(src, size) && DestOk(d) && Right(src, size, d, schema)
    requires e.pages == d.pages && e.size == d.size && e.wal == d.wal
    ensures Right(src, size, e, schema)
  {
    forall o: nat | Holds(src, size, o) && Copyable(size, e.size, o) ensures RightAt(src, size, e, schema, o) {
      assert RightAt(src, size, d, schema, o);
    }
  }

  lemma LastByte(src: seq<Page>, size: nat)
    requires Paged(src, size) && WellSized(src, size)
    ensures size * |src| >= 1 && !Unused(size, size * |src| - 1)
  {
    Times(1, |src|, size);
    var o := size * |src| - 1;
    Distribute(|src| - 1, size);
    PageSpan(size, |src|, o);
    PendingSpan(size, o);
  }

  /** With a writer on the source no page is copied. */
  lemma WriterStops(b: Backup, src: seq<Page>, size: nat, nPage: int, env: Env)
    requires BackupOk(b) && Paged(src, size) && EnvOk(b, env) && env.writing
    ensures Advance(b, src, size, nPage, env) == (b, BUSY)
  {
    assert CopyLoop(b, src, size, BUSY, 0, nPage, env) == (b, BUSY);
  }

  /**
   A step that ends in SQLITE_DONE, with no writer on the source, leaves a snapshot of the source in the destination
   file, for any two page sizes.
   */
  lemma StepDone(w: World, size: nat, nPage: int, env: Env, e: Backup)
    requires Inv(w, size) && EnvOk(w.b, env) && HardEnv(env)
    requires e == Step(w.b, w.src, size, nPage, env) && !Fatal(w.b.rc) && e.rc == DONE
    ensures SnapshotOf(w, size, e) && !e.dest.tx.active && !env.writing
  {
    if env.writing { WriterStops(w.b, w.src, size, nPage, env); }
    var (a, rc) := Advance(w.b, w.src, size, nPage, env);
    AdvanceKeeps(w, size, nPage, env, a, rc);
    assert rc == DONE;
    CompleteFatal(a.dest, a.schema, w.src, size, env, e.dest, DONE);
    if FitsInto(w.src, size, e.dest.size) {
      CompleteSnapshot(a.dest, a.iNext, a.schema, w.src, size, env, e.dest);
    }
  }

  lemma CompleteSnapshot(d: Dest, n: nat, schema: nat, src: seq<Page>, size: nat, env: Env, r: Dest)
    requires DestOk(d) && Paged(src, size) && |env.blank| == d.size && |env.counter| == 4 && |env.validFor| == 8
    requires HardEnv(env) && n > |src| && Current(src, size, d, n) && TxOpen(d)
    requires (r, DONE) == Complete(d, schema, src, size, env) && FitsInto(src, size, d.size)
    ensures Snapshot(src, size, r.wal, schema, r.file)
  {
    EverythingCurrent(src, size, d, n);
    var (d2, rc2) := PutHeader(d, schema, env);
    PutHeaderEnds(d, schema, env, d2, rc2);
    PutHeaderRight(src, size, d, schema, env, d2);
    if size < d.size {
      LargerSnapshot(src, size, d2, schema, env, r);
    } else {
      EvenSnapshot(src, size, d2, schema, env, r);
    }
  }

  lemma EverythingCurrent(src: seq<Page>, size: nat, d: Dest, n: nat)
    requires Paged(src, size) && DestOk(d) && n > |src| && Current(src, size, d, n)
    ensures Current(src, size, d, |src| + 1)
  {
    forall o: nat | Holds(src, size, o) && Copyable(size, d.size, o) ensures SameAt(src, size, d, o) {}
  }

  /**
   When the image is truncated it has all the pages that are to stay, as sqlite3PagerTruncateImage asserts: the last
   page of the source has been copied.
   */
  lemma TruncationFits(src: seq<Page>, size: nat, d: Dest, n: nat, schema: nat, env: Env, e: Dest)
    requires Paged(src, size) && DestOk(d) && d.size <= size && WellSized(src, size)
    requires n > |src| && Current(src, size, d, n) && (e, OK) == PutHeader(d, schema, env)
    ensures DestPages(size, d.size, |src|) <= |e.pages|
  {
    EverythingCurrent(src, size, d, n);
    EvenSize(size, d.size, |src|);
    LastByte(src, size);
    var o := size * |src| - 1;
    InsideSource(size, |src|, o);
    PendingSpan(size, o);
    PendingSpan(d.size, o);
    assert SameAt(src, size, d, o);
    InsideSource(d.size, |d.pages|, o);
    var t := DestPages(size, d.size, |src|);
    if |d.pages| < t {
      Times(|d.pages|, t - 1, d.size);
      Distribute(t - 1, d.size);
    }
  }

  /** Only a step turns a handle to DONE. */
  lemma DoneByStep(w: World, size: nat, e: Event, v: World)
    requires Inv(w, size) && Allowed(w, size, e) && v == After(w, size, e)
    requires w.b.rc != DONE && v.b.rc == DONE
    ensures e.StepEvent? && !Fatal(w.b.rc)
    ensures v.b == Step(w.b, w.src, size, e.nPage, e.env)
  {
    if e.WriteEvent? && !Fatal(w.b.rc) && e.k < w.b.iNext {
      var (d, rc) := CopyPage(w.b.dest, size, e.k, e.data, None, e.put);
      CopyPageHard(w.b.dest, size, e.k, e.data, None, e.put, d, rc);
    }
  }

  /** The destination file of b is a snapshot of what the source is in state w. */
  ghost predicate SnapshotOf(w: World, size: nat, b: Backup) {
    && Paged(w.src, size)
    && (FitsInto(w.src, size, b.dest.size) ==> Snapshot(w.src, size, b.dest.wal, b.schema, b.dest.file))
  }

  /**
   Over whole runs: when the handle says SQLITE_DONE, the destination file is a snapshot of the source as it was at one
   of the steps of the run, when nobody was writing to it, whatever happened to the source before and after that step;
   finishing keeps the file.
   */
  lemma {:induction false} DoneIsSnapshot(s: seq<World>, size: nat, events: seq<Event>, n: nat) returns (i: nat)
    requires Run(s, size, events) && n < |s| && s[n].b.rc == DONE
    ensures i < n && events[i].StepEvent? && !events[i].env.writing && SnapshotOf(s[i], size, s[n].b)
    ensures Finish(s[n].b) == (s[n].b, OK)
  {
    var m := n - 1;
    assert n > 0;
    assert Moves(s, size, events, m);
    RunKeeps(s, size, events, m);
    if s[m].b.rc == DONE {
      FatalSticks(s[m], size, events[m]);
      i := DoneIsSnapshot(s, size, events, m);
    } else {
      i := m;
      DoneByStep(s[m], size, events[m], s[n]);
      StepDone(s[m], size, events[m].nPage, events[m].env, s[n].b);
    }
  }
}
