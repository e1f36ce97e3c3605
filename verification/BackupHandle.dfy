/** The backup calls in the form of the original: a handle updated in place, and the pager's list of handles. */
module BackupHandle {
  import opened BackupPages
  import opened BackupCopy
  import opened BackupSteps
  import opened Sequences

  class Handle {
    var iNext: nat
    var rc: Rc
    var bDestLocked: bool
    var isAttached: bool
    var iDestSchema: nat
    var nRemaining: nat
    var nPagecount: nat
    var dest: Dest
    var pNext: Handle?

    ghost function State(): Backup
      reads this`iNext, this`rc, this`bDestLocked, this`isAttached, this`iDestSchema
      reads this`nRemaining, this`nPagecount, this`dest
    {
      Backup(iNext, rc, bDestLocked, isAttached, iDestSchema, nRemaining, nPagecount, dest)
    }

    /** sqlite3_backup_init: `dest` is what the destination is before it is locked. */
    constructor (dest: Dest)
      requires DestOk(dest)
      ensures State() == Backup(1, OK, false, false, 0, 0, 0, dest) && pNext == null
    {
      iNext, rc, bDestLocked, isAttached := 1, OK, false, false;
      iDestSchema, nRemaining, nPagecount := 0, 0, 0;
      this.dest := dest;
      pNext := null;
    }

    /** One destination page of backupOnePage: memcpy and, for page 1, the page count. */
    method CopyIntoPage(size: nat, zSrcData: Page, iOff: nat, count: Option<nat>)
      requires Aligned(dest, size, zSrcData, iOff)
      modifies this`dest
      ensures dest == CopyBlock(old(dest), size, zSrcData, iOff, count)
    {
      AlignedFits(dest, size, zSrcData, iOff, 0);
      var nCopy, iDest := Min(size, dest.size), PageOf(dest.size, iOff);
      var x, y := iOff % dest.size, iOff % size;
      var zOut := Splice(GetPage(dest, iDest), x, zSrcData[y..y + nCopy]);
      ghost var copied := zOut;
      if iOff == 0 && count.Some? {
        zOut := Splice(zOut, 28, Put4(count.value));
      }
      CopyBlockIs(dest, size, zSrcData, iOff, count, x, y, nCopy, copied, zOut);
      dest := PutPage(dest, iDest, zOut);
    }

    /** backupOnePage */
    method BackupOnePage(size: nat, iSrcPg: nat, zSrcData: Page, count: Option<nat>, put: nat -> Rc) returns (r: Rc)
      requires DestOk(dest) && PageSize(size) && |zSrcData| == size && iSrcPg >= 1
      modifies this`dest
      ensures (dest, r) == CopyPage(old(dest), size, iSrcPg, zSrcData, count, put)
    {
      PageBlocks(dest, size, iSrcPg, zSrcData);
      var iEnd, iOff: nat := iSrcPg * size, (iSrcPg - 1) * size;
      if size != dest.size && dest.memdb {
        return READONLY;
      }
      r := CopyLoopOver(size, iOff, iEnd, zSrcData, count, put);
    }

    /** One round of the loop of backupOnePage: nothing happens for the unused page. */
    method CopyOneBlock(size: nat, zSrcData: Page, iOff: nat, count: Option<nat>, put: nat -> Rc) returns (r: Rc)
      requires Aligned(dest, size, zSrcData, iOff)
      modifies this`dest
      ensures r ==
        if PageOf(old(dest).size, iOff) == PendingPage(old(dest).size) then OK else put(PageOf(old(dest).size, iOff))
      ensures dest == if r == OK then Round(old(dest), size, zSrcData, iOff, count) else old(dest)
    {
      r := OK;
      var iDest := iOff / dest.size + 1;
      if iDest != PendingPage(dest.size) {
        r := put(iDest);
        if r == OK {
          CopyIntoPage(size, zSrcData, iOff, count);
        }
      }
    }

    /** The same, seen from the loop: `goal` is still what it comes to. */
    method CopyRound(size: nat, zSrcData: Page, iOff: nat, ghost iEnd: nat, count: Option<nat>, put: nat -> Rc,
            ghost goal: (Dest, Rc)) returns (r: Rc, next: nat)
      requires ComesTo(dest, size, zSrcData, iOff, iEnd, count, put, OK, goal) && iOff < iEnd
      modifies this`dest
      ensures next > iOff && ComesTo(dest, size, zSrcData, next, iEnd, count, put, r, goal)
    {
      ghost var was := dest;
      r := CopyOneBlock(size, zSrcData, iOff, count, put);
      RoundComesTo(was, size, zSrcData, iOff, iEnd, count, put, r, dest, goal);
      next := iOff + dest.size;
    }

    /** The loop of backupOnePage, once for each destination page the source page spans. */
    method CopyLoopOver(size: nat, off: nat, iEnd: nat, zSrcData: Page, count: Option<nat>,
            put: nat -> Rc) returns (r: Rc)
      requires BlocksLeft(dest, size, zSrcData, off, iEnd)
      modifies this`dest
      ensures (dest, r) == CopyBlocks(old(dest), size, zSrcData, off, iEnd, count, put)
    {
      var iOff := off;
      r := OK;
      ghost var goal := CopyBlocks(dest, size, zSrcData, iOff, iEnd, count, put);
      while r == OK && iOff < iEnd
        invariant ComesTo(dest, size, zSrcData, iOff, iEnd, count, put, r, goal)
        decreases iEnd - iOff, r == OK
      {
        r, iOff := CopyRound(size, zSrcData, iOff, iEnd, count, put, goal);
      }
    }

    /** sqlite3OsWrite of a source page, if the page can be had. */
    method WritePageAt(src: seq<Page>, size: nat, iOff: nat, write: nat -> Rc) returns (r: Rc)
      requires Paged(src, size) && Holds(src, size, iOff)
      modifies this`dest
      ensures r == write(PageOf(size, iOff)) && dest == old(dest).(file := dest.file)
      ensures dest.file ==
        if r == OK then FileWrite(old(dest).file, iOff, src[PageOf(size, iOff) - 1]) else old(dest).file
    {
      var iSrcPg := iOff / size + 1;
      r := write(iSrcPg);
      if r == OK {
        dest := dest.(file := FileWrite(dest.file, iOff, src[iSrcPg - 1]));
      }
    }

    /** The direct writes into the unused page of the destination. */
    method WriteExtraPages(src: seq<Page>, size: nat, first: nat, iEnd: nat, write: nat -> Rc) returns (r: Rc)
      requires HasBytes(src, size, first, iEnd)
      modifies this`dest
      ensures dest == old(dest).(file := dest.file)
      ensures (dest.file, r) == WriteExtra(old(dest).file, src, size, first, iEnd, write)
    {
      var iOff := first;
      r := OK;
      ghost var goal := WriteExtra(dest.file, src, size, iOff, iEnd, write);
      while r == OK && iOff < iEnd
        invariant dest == old(dest).(file := dest.file)
        invariant WritesComeTo(dest.file, src, size, iOff, iEnd, write, r, goal)
        decreases iEnd - iOff, r == OK
      {
        assert Holds(src, size, iOff);
        ghost var was := dest.file;
        r := WritePageAt(src, size, iOff, write);
        WriteRound(was, src, size, iOff, iEnd, write, r, dest.file, goal);
        iOff := iOff + size;
      }
    }

    /** sqlite3PagerWrite of every page from `first` on, the unused one excepted. */
    method JournalPages(first: nat, journal: nat -> Rc) returns (r: Rc)
      requires DestOk(dest) && first >= 1
      modifies this`dest
      ensures (dest, r) == JournalTail(old(dest), first, |old(dest).pages|, journal)
    {
      var iPg, nDstPage := first, |dest.pages|;
      r := OK;
      ghost var goal := JournalTail(dest, first, nDstPage, journal);
      while r == OK && iPg <= nDstPage
        invariant JournalComesTo(dest, iPg, nDstPage, journal, r, goal)
        decreases nDstPage + 1 - iPg, r == OK
      {
        ghost var was := dest;
        if iPg != PendingPage(dest.size) {
          r := journal(iPg);
          if r == OK {
            dest := PagerWrite(dest, iPg);
          }
        }
        JournalRound(was, iPg, nDstPage, journal, r, dest, goal);
        iPg := iPg + 1;
      }
    }

    /** The part of the file that the pager cannot write, and the file cut to size. */
    method WriteDirectly(src: seq<Page>, pgszSrc: nat, nSrcPage: nat, env: Env) returns (r: Rc)
      requires DestOk(dest) && Paged(src, pgszSrc) && pgszSrc < dest.size && (nSrcPage == |src| || nSrcPage == 1)
      modifies this`dest
      ensures (dest, r) == DirectWrites(old(dest), src, pgszSrc, nSrcPage, env)
    {
      var iSize := pgszSrc * nSrcPage;
      var iEnd := Min(PENDING_BYTE + dest.size, iSize);
      ExtraInside(src, pgszSrc, nSrcPage, PENDING_BYTE + dest.size);
      r := WriteExtraPages(src, pgszSrc, PENDING_BYTE + pgszSrc, iEnd, env.write);
      if r == OK {
        r := env.truncate;
        if r == OK {
          if |dest.file| > iSize {
            dest := dest.(file := dest.file[..iSize]);
          }
          r := env.sync;
          if r == OK {
            var (d, rc) := CommitPhaseTwo(dest, env);
            dest, r := d, rc;
          }
        }
      }
    }

    /** sqlite3PagerCommitPhaseOne */
    method CommitPhaseOne(env: Env) returns (r: Rc)
      requires DestOk(dest) && |env.counter| == 4 && |env.validFor| == 8
      modifies this`dest
      ensures (dest, r) == PhaseOne(old(dest), env)
    {
      var (d, rc) := PhaseOne(dest, env);
      dest, r := d, rc;
    }

    /** Getting the end of the source into a destination with larger pages. */
    method FinishIntoLarger(src: seq<Page>, pgszSrc: nat, nSrcPage: nat, env: Env) returns (r: Rc)
      requires DestOk(dest) && Paged(src, pgszSrc) && pgszSrc < dest.size
      requires |env.counter| == 4 && |env.validFor| == 8 && (nSrcPage == |src| || nSrcPage == 1) && nSrcPage > 0
      modifies this`dest
      ensures (dest, r) == FinishLarger(old(dest), src, pgszSrc, nSrcPage, env)
    {
      DestPagesPositive(pgszSrc, dest.size, nSrcPage);
      var nDestTruncate := DestPages(pgszSrc, dest.size, nSrcPage);
      r := JournalPages(nDestTruncate, env.journal);
      if r == OK {
        r := CommitPhaseOne(env);
        if r == OK {
          r := WriteDirectly(src, pgszSrc, nSrcPage, env);
        }
      }
    }

    /** The end when the destination pages are no larger. */
    method FinishIntoEven(pgszSrc: nat, nSrcPage: nat, env: Env) returns (r: Rc)
      requires DestOk(dest) && PageSize(pgszSrc) && pgszSrc >= dest.size && |env.counter| == 4 && |env.validFor| == 8
      modifies this`dest
      ensures (dest, r) == FinishEven(old(dest), pgszSrc, nSrcPage, env)
    {
      dest := TruncateImage(dest, DestPages(pgszSrc, dest.size, nSrcPage));
      r := CommitPhaseOne(env);
      if r == OK {
        var (d, rc) := CommitPhaseTwo(dest, env);
        dest, r := d, rc;
      }
    }

    /** Schema cookie and versions. */
    method WriteHeader(env: Env) returns (r: Rc)
      requires DestOk(dest)
      modifies this`dest
      ensures (dest, r) == PutHeader(old(dest), iDestSchema, env)
    {
      r := env.meta;
      if r == OK {
        dest := PutBytes(dest, 40, Put4(iDestSchema + 1));
      }
      if r == OK && dest.wal {
        r := env.version;
        if r == OK {
          dest := PutBytes(dest, 18, [2, 2]);
        }
      }
    }

    /** The tail of a step that has copied every page. */
    method CompleteBackup(src: seq<Page>, pgszSrc: nat, env: Env) returns (r: Rc)
      requires DestOk(dest) && Paged(src, pgszSrc) && |env.blank| == dest.size
      requires |env.counter| == 4 && |env.validFor| == 8
      modifies this`dest
      ensures (dest, r) == Complete(old(dest), iDestSchema, src, pgszSrc, env)
    {
      var nSrcPage := |src|;
      r := OK;
      if nSrcPage == 0 {
        r := env.newDb;
        if r == OK {
          dest := PutPage(dest, 1, env.blank);
        }
        nSrcPage := 1;
      }
      if r == OK {
        r := WriteHeader(env);
      }
      if r == OK {
        if pgszSrc < dest.size {
          r := FinishIntoLarger(src, pgszSrc, nSrcPage, env);
        } else {
          r := FinishIntoEven(pgszSrc, nSrcPage, env);
        }
      }
    }

    /** Transactions on both sides, and the lock on the destination. */
    method BeginStep(size: nat, env: Env) returns (r: Rc)
      requires BackupOk(State()) && EnvOk(State(), env)
      modifies this`dest, this`bDestLocked, this`iDestSchema
      ensures (State(), r) == Begin(old(State()), size, env)
    {
      r := if env.writing then BUSY else OK;
      if r == OK {
        r := env.begin;
      }
      if !bDestLocked && r == OK && env.noMem {
        r := NOMEM;
      }
      if r == OK && !bDestLocked {
        r := env.lock;
        if r == OK {
          dest, iDestSchema, bDestLocked := env.found, env.cookie, true;
        }
      }
      if r == OK && dest.wal && size != dest.size {
        r := READONLY;
      }
    }

    /** One handle's part of backupUpdate. */
    method UpdatePage(size: nat, iPage: nat, aData: Page, put: nat -> Rc)
      requires BackupOk(State()) && PageSize(size) && |aData| == size && iPage >= 1
      modifies this`rc, this`dest
      ensures State() == Update(old(State()), size, iPage, aData, put)
    {
      if !Fatal(rc) && iPage < iNext {
        var r := BackupOnePage(size, iPage, aData, None, put);
        if r != OK {
          rc := r;
        }
      }
    }

    /** One round of the copying loop. */
    method CopyNextPage(src: seq<Page>, size: nat, env: Env) returns (r: Rc)
      requires BackupOk(State()) && Paged(src, size) && iNext <= |src|
      modifies this`dest, this`iNext
      ensures (State(), r) == CopyNext(old(State()), src, size, env)
    {
      ghost var was := State();
      var iSrcPg := iNext;
      r := OK;
      if iSrcPg != PendingPage(size) {
        r := env.get(iSrcPg);
        if r == OK {
          r := BackupOnePage(size, iSrcPg, src[iSrcPg - 1], Some(|src|), env.put);
        }
      }
      iNext := iNext + 1;
      assert State() == was.(iNext := was.iNext + 1, dest := dest);
    }

    /** The copying loop. */
    method CopyPages(src: seq<Page>, size: nat, nPage: int, env: Env, start: Rc) returns (r: Rc)
      requires BackupOk(State()) && Paged(src, size)
      modifies this`dest, this`iNext
      ensures (State(), r) == CopyLoop(old(State()), src, size, start, 0, nPage, env)
    {
      r := start;
      var ii := 0;
      ghost var goal := CopyLoop(State(), src, size, r, ii, nPage, env);
      while (nPage < 0 || ii < nPage) && iNext <= |src| && r == OK
        invariant BackupOk(State()) && ii >= 0
        invariant CopyLoop(State(), src, size, r, ii, nPage, env) == goal
        decreases |src| + 1 - iNext
      {
        r := CopyNextPage(src, size, env);
        ii := ii + 1;
      }
    }

    /** A step as far as it copies pages; attaching the handle is left to the pager. */
    method AdvanceCopy(src: seq<Page>, size: nat, nPage: int, env: Env) returns (r: Rc)
      requires BackupOk(State()) && Paged(src, size) && EnvOk(State(), env)
      modifies this`dest, this`iNext, this`bDestLocked, this`iDestSchema, this`nPagecount, this`nRemaining
      ensures var (e, end) := Advance(old(State()), src, size, nPage, env);
        State() == e.(attached := isAttached) && r == end && e.attached == (isAttached || r == OK)
    {
      r := BeginStep(size, env);
      r := CopyPages(src, size, nPage, env, r);
      if r == OK {
        nPagecount := |src|;
        nRemaining := (|src| + 1 - iNext) % 0x1_0000_0000;
        if iNext > |src| {
          r := DONE;
        }
      }
    }

    method CloseStep(start: Rc, src: seq<Page>, size: nat, env: Env) returns (r: Rc)
      requires BackupOk(State()) && Paged(src, size) && |env.counter| == 4 && |env.validFor| == 8
      requires start == DONE ==> |env.blank| == dest.size
      modifies this`dest, this`rc
      ensures State() == Close(old(State()), start, src, size, env) && r == rc
    {
      r := start;
      if r == DONE {
        r := CompleteBackup(src, size, env);
      }
      if r == IOERR_NOMEM {
        r := NOMEM;
      }
      rc := r;
    }
  }

  /** The source database: its pages, and the handles to report to. */
  class SrcPager {
    const size: nat
    var pages: seq<Page>
    var pBackup: Handle?
    ghost var list: seq<Handle>

    constructor (size: nat, pages: seq<Page>)
      requires Paged(pages, size)
      ensures this.size == size && this.pages == pages && list == [] && Valid()
    {
      this.size, this.pages, pBackup, list := size, pages, null, [];
    }

    /** The handles from pBackup on are `list`: exactly the attached ones. */
    ghost predicate Valid()
      reads this, list
    {
      && Paged(pages, size) && Chain(pBackup, list)
      && forall h :: h in list ==> HandleOk(h)
    }

    /** attachBackupObject */
    method AttachBackupObject(p: Handle)
      requires Valid() && p !in list && BackupOk(p.State())
      modifies this`pBackup, this`list, p`pNext, p`isAttached
      ensures Valid() && list == [p] + old(list)
      ensures p.State() == old(p.State()).(attached := true)
    {
      p.pNext := pBackup;
      pBackup := p;
      p.isAttached := true;
      list := [p] + list;
      ChainCons(p, old(list));
    }

    /** A step as far as it copies pages, with the handle on the list if there is more to copy. */
    method AdvanceAttached(p: Handle, nPage: int, env: Env) returns (r: Rc)
      requires Valid() && BackupOk(p.State()) && EnvOk(p.State(), env) && (p in list <==> p.isAttached)
      modifies this`pBackup, this`list, p
      ensures Valid() && pages == old(pages) && p.rc == old(p.rc)
      ensures (p.State(), r) == Advance(old(p.State()), pages, size, nPage, env)
      ensures p in list <==> p.isAttached
      ensures list == if old(p.isAttached) || !p.isAttached then old(list) else [p] + old(list)
    {
      r := p.AdvanceCopy(pages, size, nPage, env);
      if r == OK && !p.isAttached {
        AttachBackupObject(p);
      }
    }

    /** sqlite3_backup_step */
    method BackupStep(p: Handle, nPage: int, env: Env) returns (r: Rc)
      requires Valid() && BackupOk(p.State()) && EnvOk(p.State(), env) && (p in list <==> p.isAttached)
      modifies this`pBackup, this`list, p
      ensures Valid() && pages == old(pages)
      ensures p.State() == Step(old(p.State()), pages, size, nPage, env) && r == p.rc
      ensures p in list <==> p.isAttached
      ensures list == if old(p.isAttached) || !p.isAttached then old(list) else [p] + old(list)
    {
      r := p.rc;
      if !Fatal(r) {
        r := AdvanceAttached(p, nPage, env);
        r := p.CloseStep(r, pages, size, env);
      }
    }

    /** Handle k of the list leaves it. */
    method Detach(p: Handle, ghost k: nat)
      requires Valid() && k < |list| && list[k] == p
      modifies this`pBackup, this`list, set h | h in list :: h`pNext
      ensures Valid() && list == Without(old(list), k)
    {
      ghost var rest := Without(list, k);
      WithoutMembers(list, k);
      var h := Unlink(pBackup, list, p, k);
      assert forall q :: q in rest ==> HandleOk(q);
      pBackup := h;
      list := rest;
    }

    /** sqlite3_backup_finish: the handle leaves the list, the order of the others stays. */
    method BackupFinish(p: Handle) returns (r: Rc, ghost k: nat)
      requires Valid() && (p in list <==> p.isAttached)
      modifies this`pBackup, this`list, p`dest, set h | h in list :: h`pNext
      ensures (p.State(), r) == Finish(old(p.State()))
      ensures if old(p.isAttached) then k < |old(list)| && old(list)[k] == p && list == Without(old(list), k)
              else list == old(list)
      ensures p !in list && Valid()
    {
      k := 0;
      if p.isAttached {
        k :| k < |list| && list[k] == p;
        Detach(p, k);
      }
      if p.bDestLocked && p.dest.tx.active {
        p.dest := Rollback(p.dest);
      }
      r := if p.rc == DONE then OK else p.rc;
    }

    /** The pager reports new content of a page: every handle on the list that has passed the page copies it again. */
    method BackupUpdate(iPage: nat, aData: Page, put: Handle -> nat -> Rc)
      requires Valid() && iPage >= 1 && |aData| == size
      modifies set h | h in list :: h`rc, set h | h in list :: h`dest
      ensures Valid()
      ensures forall k :: 0 <= k < |list| ==>
        Updated(old(list[k].State()), list[k].State(), size, iPage, aData, put(list[k]))
    {
      var p := pBackup;
      ghost var i := 0;
      while p != null
        invariant 0 <= i <= |list| && p == First(list[i..]) && Chain(pBackup, list)
        invariant forall k :: 0 <= k < i ==>
          Updated(old(list[k].State()), list[k].State(), size, iPage, aData, put(list[k]))
        invariant forall k :: i <= k < |list| ==> list[k].State() == old(list[k].State())
        decreases |list| - i
      {
        assert p == list[i] && p in list;
        p.UpdatePage(size, iPage, aData, put(p));
        p := p.pNext;
        i := i + 1;
      }
    }

    /** Page iPage of the source is written, or added at the end: the unused page is the only one not reported. */
    method WriteSource(iPage: nat, aData: Page, put: Handle -> nat -> Rc)
      requires Valid() && 1 <= iPage <= |pages| + 1 && |aData| == size
      modifies this`pages, set h | h in list :: h`rc, set h | h in list :: h`dest
      ensures Valid() && list == old(list)
      ensures pages == if iPage <= |old(pages)| then old(pages)[iPage - 1 := aData] else old(pages) + [aData]
      ensures iPage == PendingPage(size) ==> forall h :: h in list ==> h.State() == old(h.State())
      ensures iPage != PendingPage(size) ==> forall k :: 0 <= k < |list| ==>
        Updated(old(list[k].State()), list[k].State(), size, iPage, aData, put(list[k]))
    {
      pages := if iPage <= |pages| then pages[iPage - 1 := aData] else pages + [aData];
      if iPage != PendingPage(size) {
        BackupUpdate(iPage, aData, put);
      }
    }

    /** The pager found the database changed by someone else: every handle on the list starts again. */
    method BackupRestart()
      requires Valid()
      modifies set h | h in list :: h`iNext
      ensures Valid()
      ensures forall k :: 0 <= k < |list| ==> list[k].State() == Restart(old(list[k].State()))
    {
      var p := pBackup;
      ghost var i := 0;
      while p != null
        invariant 0 <= i <= |list| && p == First(list[i..]) && Chain(pBackup, list)
        invariant forall k :: 0 <= k < i ==> list[k].State() == Restart(old(list[k].State()))
        invariant forall k :: i <= k < |list| ==> list[k].State() == old(list[k].State())
        decreases |list| - i
      {
        assert p == list[i] && p in list;
        p.iNext := 1;
        p := p.pNext;
        i := i + 1;
      }
    }
  }

  ghost function First(list: seq<Handle>): Handle? {
    if list == [] then null else list[0]
  }

  /** The list that starts at `head`, handle by handle. */
  ghost predicate Chain(head: Handle?, list: seq<Handle>)
    reads list`pNext
  {
    head == First(list)
    && (forall k {:trigger list[k].pNext} :: 0 <= k < |list| ==> list[k].pNext == First(list[k + 1..]))
    && forall j, k :: 0 <= j < k < |list| ==> list[j] != list[k]
  }

  /** Unlink handle k of a chain; the result is the new head. */
  method Unlink(head: Handle?, ghost list: seq<Handle>, p: Handle, ghost k: nat) returns (h: Handle?)
    requires Chain(head, list) && k < |list| && list[k] == p
    modifies set h | h in list :: h`pNext
    ensures Chain(h, Without(list, k))
  {
    WithoutDistinct(list, k);
    if head == p {
      assert k == 0;
      assert Without(list, 0) == list[1..];
      return p.pNext;
    }
    var prev := head;
    ghost var i := 0;
    while prev.pNext != p
      invariant 0 <= i < k && prev == list[i] && Chain(head, list)
      decreases k - i
    {
      prev := prev.pNext;
      i := i + 1;
    }
    assert i == k - 1 && prev in list;
    prev.pNext := p.pNext;
    h := head;
    ghost var r := Without(list, k);
    forall j | 0 <= j < |r| ensures r[j].pNext == First(r[j + 1..]) {
      WithoutAt(list, k, j);
    }
  }

  lemma ChainCons(p: Handle, list: seq<Handle>)
    requires p !in list && Chain(p.pNext, list)
    ensures Chain(p, [p] + list)
  {
    var all := [p] + list;
    forall k | 0 <= k < |all| ensures all[k].pNext == First(all[k + 1..]) {
      if k == 0 {
        assert all[1..] == list;
      } else {
        assert all[k] == list[k - 1] && all[k + 1..] == list[k..];
      }
    }
  }

  ghost predicate HandleOk(h: Handle)
    reads h`isAttached, h`iNext, h`dest
  {
    h.isAttached && h.iNext >= 1 && DestOk(h.dest)
  }
}
