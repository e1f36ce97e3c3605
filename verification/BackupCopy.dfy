/** One source page copied into a destination whose pages may be smaller, equal or larger. */
module BackupCopy {
  import opened Arithmetic
  import opened BackupPages

  /** SQLite result codes, as far as a backup tells them apart. */
  datatype Rc = OK | BUSY | LOCKED | DONE | READONLY | NOMEM | IOERR_NOMEM | OTHER(code: int)

  /** isFatalError */
  predicate Fatal(rc: Rc) {
    rc != OK && rc != BUSY && rc != LOCKED
  }

  datatype Option<T> = None | Some(value: T)

  /**
   The write transaction on the destination: the size and, page by page, the old content that the rollback journal
   has, and the number of pages the pager knows the file to have.
   */
  datatype Tx = Tx(origSize: nat, journal: map<nat, Page>, filePages: nat, active: bool)

  /** The destination: the pages its pager would return, the database file, and the open transaction. */
  datatype Dest = Dest(size: nat, memdb: bool, wal: bool, pages: seq<Page>, file: seq<byte>, tx: Tx)

  predicate DestOk(d: Dest) {
    Paged(d.pages, d.size)
  }

  /** r differs from d in its pages, of which it has no fewer, and in what is journalled. */
  predicate SameFile(d: Dest, r: Dest) {
    r == d.(pages := r.pages, tx := d.tx.(journal := r.tx.journal)) && |d.pages| <= |r.pages|
  }

  /** sqlite3PagerGet: page k, zeroed when the database does not have it yet. */
  function GetPage(d: Dest, k: nat): (p: Page)
    requires DestOk(d) && k >= 1
    ensures |p| == d.size
  {
    if k <= |d.pages| then d.pages[k - 1] else Zeros(d.size)
  }

  /** sqlite3PagerWrite: before page k changes its old content goes into the journal, once. */
  function PagerWrite(d: Dest, k: nat): (r: Dest)
    requires k >= 1
    ensures r == d.(tx := d.tx.(journal := r.tx.journal))
  {
    if k <= d.tx.origSize && k !in d.tx.journal && k <= |d.pages| then
      d.(tx := d.tx.(journal := d.tx.journal[k := d.pages[k - 1]]))
    else d
  }

  /** sqlite3PagerWrite and a new content for page k. */
  function PutPage(d: Dest, k: nat, p: Page): (r: Dest)
    requires DestOk(d) && k >= 1 && |p| == d.size
    ensures DestOk(r) && SameFile(d, r)
  {
    PagerWrite(d, k).(pages := Extend(d.pages, k, d.size)[k - 1 := p])
  }

  /** Where the block at file offset off of a source page starts inside that page. */
  predicate Aligned(d: Dest, srcSize: nat, data: Page, off: nat) {
    DestOk(d) && PageSize(srcSize) && |data| == srcSize && off % Min(srcSize, d.size) == 0
  }

  lemma AlignedFits(d: Dest, srcSize: nat, data: Page, off: nat, t: nat)
    requires Aligned(d, srcSize, data, off) && t < Min(srcSize, d.size)
    ensures off % d.size + Min(srcSize, d.size) <= d.size && off % srcSize + Min(srcSize, d.size) <= srcSize
    ensures (off + t) / d.size == off / d.size && (off + t) % d.size == off % d.size + t
    ensures (off + t) % srcSize == off % srcSize + t
    ensures 512 <= d.size
  {
    var c := Min(srcSize, d.size);
    SizesDivide(c, d.size);
    SizesDivide(c, srcSize);
    BlockInPage(d.size, c, off, t);
    BlockInPage(srcSize, c, off, t);
  }

  /**
   The destination page after memcpy(zOut, zIn, nCopy), with the page count put at byte 28 of page 1 if one is given.
   */
  function NewPage(d: Dest, srcSize: nat, data: Page, off: nat, count: Option<nat>): (p: Page)
    requires Aligned(d, srcSize, data, off)
    ensures |p| == d.size
  {
    AlignedFits(d, srcSize, data, off, 0);
    var n := Min(srcSize, d.size);
    var copied := Splice(GetPage(d, PageOf(d.size, off)), off % d.size, data[off % srcSize..off % srcSize + n]);
    if off == 0 && count.Some? then Splice(copied, 28, Put4(count.value)) else copied
  }

  lemma CopyBlockIs(d: Dest, srcSize: nat, data: Page, off: nat, count: Option<nat>, x: nat, y: nat, n: nat,
          copied: Page, p: Page)
    requires Aligned(d, srcSize, data, off) && n == Min(srcSize, d.size) && x == off % d.size && y == off % srcSize
    requires x + n <= d.size && y + n <= srcSize && 512 <= d.size
    requires copied == Splice(GetPage(d, PageOf(d.size, off)), x, data[y..y + n])
    requires p == if off == 0 && count.Some? then Splice(copied, 28, Put4(count.value)) else copied
    ensures PutPage(d, PageOf(d.size, off), p) == CopyBlock(d, srcSize, data, off, count)
  {
  }

  /** One round of the loop of backupOnePage. */
  function CopyBlock(d: Dest, srcSize: nat, data: Page, off: nat, count: Option<nat>): (r: Dest)
    requires Aligned(d, srcSize, data, off)
    ensures DestOk(r) && SameFile(d, r)
  {
    PutPage(d, PageOf(d.size, off), NewPage(d, srcSize, data, off, count))
  }

  predicate CountField(o: nat) {
    28 <= o < 32
  }

  /** Byte z of the destination page after one block was copied into it at x, from y of the source page. */
  lemma NewPageAt(d: Dest, srcSize: nat, data: Page, off: nat, count: Option<nat>, x: nat, y: nat, p: Page, z: nat)
    requires Aligned(d, srcSize, data, off) && p == NewPage(d, srcSize, data, off, count)
    requires x == off % d.size && y == off % srcSize && z < d.size
    ensures x <= z < x + Min(srcSize, d.size) ==>
      0 <= y + (z - x) < srcSize && (p[z] == data[y + (z - x)] || (off == 0 && count.Some? && CountField(z)))
    ensures !(x <= z < x + Min(srcSize, d.size)) ==> p[z] == GetPage(d, PageOf(d.size, off))[z]
  {
    AlignedFits(d, srcSize, data, off, 0);
    var n, page := Min(srcSize, d.size), GetPage(d, PageOf(d.size, off));
    var block := data[y..y + n];
    var copied := Splice(page, x, block);
    assert copied[z] == if x <= z < x + n then block[z - x] else page[z];
  }

  /** The byte of page k after page k was put. */
  lemma PutPageAt(d: Dest, k: nat, p: Page, r: Dest, o: nat)
    requires DestOk(d) && k >= 1 && |p| == d.size && r == PutPage(d, k, p)
    ensures PageOf(d.size, o) == k ==> Holds(r.pages, r.size, o) && At(r.pages, r.size, o) == p[o % d.size]
    ensures PageOf(d.size, o) != k && Holds(d.pages, d.size, o) ==>
      Holds(r.pages, r.size, o) && At(r.pages, r.size, o) == At(d.pages, d.size, o)
  {
  }

  lemma CopyBlockAt(d: Dest, srcSize: nat, data: Page, off: nat, count: Option<nat>, r: Dest, o: nat)
    requires Aligned(d, srcSize, data, off) && r == CopyBlock(d, srcSize, data, off, count)
    requires off <= o < off + Min(srcSize, d.size)
    ensures Holds(r.pages, r.size, o)
    ensures o % srcSize == off % srcSize + (o - off)
    ensures At(r.pages, r.size, o) == data[o % srcSize] || (count.Some? && CountField(o))
  {
    AlignedFits(d, srcSize, data, off, o - off);
    assert o == off + (o - off) && PageOf(d.size, o) == PageOf(d.size, off);
    var p, x := NewPage(d, srcSize, data, off, count), off % d.size;
    PutPageAt(d, PageOf(d.size, off), p, r, o);
    NewPageAt(d, srcSize, data, off, count, x, off % srcSize, p, x + (o - off));
  }

  /** Nothing outside the block changes. */
  lemma CopyBlockElsewhere(d: Dest, srcSize: nat, data: Page, off: nat, count: Option<nat>, r: Dest, o: nat)
    requires Aligned(d, srcSize, data, off) && r == CopyBlock(d, srcSize, data, off, count)
    requires Holds(d.pages, d.size, o) && !(off <= o < off + Min(srcSize, d.size))
    ensures Holds(r.pages, r.size, o) && At(r.pages, r.size, o) == At(d.pages, d.size, o)
  {
    AlignedFits(d, srcSize, data, off, 0);
    var x, y, p := off % d.size, o % d.size, NewPage(d, srcSize, data, off, count);
    NewPageAt(d, srcSize, data, off, count, x, off % srcSize, p, y);
    PutPageAt(d, PageOf(d.size, off), p, r, o);
    if PageOf(d.size, o) == PageOf(d.size, off) {
      SamePage(d.size, off, o);
    }
  }

  lemma SamePage(size: nat, a: nat, b: nat)
    requires size > 0 && PageOf(size, a) == PageOf(size, b)
    ensures b - a == b % size - a % size
  {
    assert a == (a / size) * size + a % size;
    assert b == (b / size) * size + b % size;
  }

  /** The blocks from file offset off to the end of the source page. */
  predicate BlocksLeft(d: Dest, srcSize: nat, data: Page, off: nat, end: nat) {
    Aligned(d, srcSize, data, off) && (end - off) % Min(srcSize, d.size) == 0 && end - off <= srcSize
  }

  lemma BlocksNext(d: Dest, srcSize: nat, data: Page, off: nat, end: nat)
    requires BlocksLeft(d, srcSize, data, off, end) && off < end
    ensures BlocksLeft(d, srcSize, data, off + d.size, end)
    ensures off + Min(srcSize, d.size) <= end
    ensures end <= off + Min(srcSize, d.size) || d.size == Min(srcSize, d.size)
  {
    var c := Min(srcSize, d.size);
    SizesDivide(c, d.size);
    AddMultiple(off, d.size, c);
    AddMultiple(end - off, d.size, c);
    assert end - (off + d.size) == (end - off) - d.size;
    SmallModulo(end - off, c);
  }

  /** The loop of backupOnePage: `put` is what getting and writing destination page k returns. */
  function CopyBlocks(d: Dest, srcSize: nat, data: Page, off: nat, end: nat, count: Option<nat>,
          put: nat -> Rc): (r: (Dest, Rc))
    requires BlocksLeft(d, srcSize, data, off, end)
    ensures DestOk(r.0) && SameFile(d, r.0)
    decreases end - off
  {
    if off >= end then (d, OK)
    else
      BlocksNext(d, srcSize, data, off, end);
      var dest := PageOf(d.size, off);
      if dest == PendingPage(d.size) then CopyBlocks(d, srcSize, data, off + d.size, end, count, put)
      else if put(dest) != OK then (d, put(dest))
      else CopyBlocks(CopyBlock(d, srcSize, data, off, count), srcSize, data, off + d.size, end, count, put)
  }

  /** The destination after one round: its unused page is the only one skipped. */
  function Round(d: Dest, srcSize: nat, data: Page, off: nat, count: Option<nat>): (r: Dest)
    requires Aligned(d, srcSize, data, off)
    ensures DestOk(r) && SameFile(d, r)
  {
    if PageOf(d.size, off) == PendingPage(d.size) then d else CopyBlock(d, srcSize, data, off, count)
  }

  lemma RoundThenRest(d: Dest, srcSize: nat, data: Page, off: nat, end: nat, count: Option<nat>, put: nat -> Rc,
          r: Dest, rc: Rc, e: Dest)
    requires BlocksLeft(d, srcSize, data, off, end) && off < end && e == Round(d, srcSize, data, off, count)
    requires CopyBlocks(d, srcSize, data, off, end, count, put) == (r, rc) && (rc == OK || r != d)
    ensures BlocksLeft(e, srcSize, data, off + d.size, end)
    ensures CopyBlocks(e, srcSize, data, off + d.size, end, count, put) == (r, rc)
    ensures off + Min(srcSize, d.size) <= end
    ensures end <= off + Min(srcSize, d.size) || d.size == Min(srcSize, d.size)
  {
    BlocksNext(d, srcSize, data, off, end);
  }

  /** `goal` is what the loop comes to from here. */
  ghost predicate ComesTo(d: Dest, srcSize: nat, data: Page, off: nat, end: nat, count: Option<nat>, put: nat -> Rc,
          rc: Rc, goal: (Dest, Rc)) {
    if rc == OK then
      BlocksLeft(d, srcSize, data, off, end) && goal == CopyBlocks(d, srcSize, data, off, end, count, put)
    else goal == (d, rc)
  }

  /** The loop, one round at a time. */
  lemma RoundComesTo(d: Dest, srcSize: nat, data: Page, off: nat, end: nat, count: Option<nat>, put: nat -> Rc,
          rc: Rc, e: Dest, goal: (Dest, Rc))
    requires ComesTo(d, srcSize, data, off, end, count, put, OK, goal) && off < end
    requires rc == if PageOf(d.size, off) == PendingPage(d.size) then OK else put(PageOf(d.size, off))
    requires e == if rc == OK then Round(d, srcSize, data, off, count) else d
    ensures e.size == d.size && d.size > 0
    ensures ComesTo(e, srcSize, data, off + d.size, end, count, put, rc, goal)
  {
    BlocksNext(d, srcSize, data, off, end);
  }

  lemma RoundAt(d: Dest, srcSize: nat, data: Page, off: nat, count: Option<nat>, e: Dest, o: nat)
    requires Aligned(d, srcSize, data, off) && e == Round(d, srcSize, data, off, count)
    requires off <= o < off + Min(srcSize, d.size) && PageOf(d.size, o) != PendingPage(d.size)
    ensures Holds(e.pages, e.size, o)
    ensures At(e.pages, e.size, o) == data[o % srcSize] || (count.Some? && CountField(o))
  {
    AlignedFits(d, srcSize, data, off, o - off);
    assert PageOf(d.size, off + (o - off)) == PageOf(d.size, off);
    CopyBlockAt(d, srcSize, data, off, count, e, o);
  }

  lemma {:induction false} CopyBlocksAt(d: Dest, srcSize: nat, data: Page, off: nat, end: nat, count: Option<nat>,
          put: nat -> Rc, r: Dest, o: nat)
    requires BlocksLeft(d, srcSize, data, off, end)
    requires CopyBlocks(d, srcSize, data, off, end, count, put) == (r, OK)
    requires off <= o < end && PageOf(d.size, o) != PendingPage(d.size)
    ensures Holds(r.pages, r.size, o)
    ensures At(r.pages, r.size, o) == data[o % srcSize] || (count.Some? && CountField(o))
    decreases end - off
  {
    var e, next := Round(d, srcSize, data, off, count), off + d.size;
    RoundThenRest(d, srcSize, data, off, end, count, put, r, OK, e);
    if o < off + Min(srcSize, d.size) {
      RoundAt(d, srcSize, data, off, count, e, o);
      CopyBlocksElsewhere(e, srcSize, data, next, end, count, put, r, OK, o);
    } else {
      CopyBlocksAt(e, srcSize, data, next, end, count, put, r, o);
    }
  }

  lemma RoundElsewhere(d: Dest, srcSize: nat, data: Page, off: nat, count: Option<nat>, e: Dest, o: nat)
    requires Aligned(d, srcSize, data, off) && e == Round(d, srcSize, data, off, count)
    requires Holds(d.pages, d.size, o) && !(off <= o < off + Min(srcSize, d.size))
    ensures Holds(e.pages, e.size, o) && At(e.pages, e.size, o) == At(d.pages, d.size, o)
  {
    if PageOf(d.size, off) != PendingPage(d.size) {
      CopyBlockElsewhere(d, srcSize, data, off, count, e, o);
    }
  }

  lemma {:induction false} CopyBlocksElsewhere(d: Dest, srcSize: nat, data: Page, off: nat, end: nat,
          count: Option<nat>, put: nat -> Rc, r: Dest, rc: Rc, o: nat)
    requires BlocksLeft(d, srcSize, data, off, end)
    requires CopyBlocks(d, srcSize, data, off, end, count, put) == (r, rc)
    requires Holds(d.pages, d.size, o) && !(off <= o < end)
    ensures Holds(r.pages, r.size, o) && At(r.pages, r.size, o) == At(d.pages, d.size, o)
    decreases end - off
  {
    if off < end && r != d {
      var e := Round(d, srcSize, data, off, count);
      RoundThenRest(d, srcSize, data, off, end, count, put, r, rc, e);
      RoundElsewhere(d, srcSize, data, off, count, e, o);
      CopyBlocksElsewhere(e, srcSize, data, off + d.size, end, count, put, r, rc, o);
    }
  }

  /** backupOnePage. A page count is put into the header of the copy only by the copying loop, not by an update. */
  function CopyPage(d: Dest, srcSize: nat, k: nat, data: Page, count: Option<nat>, put: nat -> Rc): (r: (Dest, Rc))
    requires DestOk(d) && PageSize(srcSize) && |data| == srcSize && k >= 1
    ensures DestOk(r.0) && SameFile(d, r.0)
  {
    if srcSize != d.size && d.memdb then (d, READONLY)
    else
      PageBlocks(d, srcSize, k, data);
      CopyBlocks(d, srcSize, data, (k - 1) * srcSize, k * srcSize, count, put)
  }

  lemma PageBlocks(d: Dest, srcSize: nat, k: nat, data: Page)
    requires DestOk(d) && PageSize(srcSize) && |data| == srcSize && k >= 1
    ensures (k - 1) * srcSize >= 0 && BlocksLeft(d, srcSize, data, (k - 1) * srcSize, k * srcSize)
  {
    var c := Min(srcSize, d.size);
    SizesDivide(c, srcSize);
    Distribute(k - 1, srcSize);
    MultipleOfMultiple(k - 1, srcSize, c);
  }

  /**
   A copied page: the destination has every one of its bytes except those of its own unused page, whatever the two
   page sizes; apart from the page count in the header they are the source's.
   */
  lemma CopyPageAt(d: Dest, srcSize: nat, k: nat, data: Page, count: Option<nat>, put: nat -> Rc, r: Dest, o: nat)
    requires DestOk(d) && PageSize(srcSize) && |data| == srcSize && k >= 1
    requires CopyPage(d, srcSize, k, data, count, put) == (r, OK)
    requires PageOf(srcSize, o) == k && PageOf(d.size, o) != PendingPage(d.size)
    ensures Holds(r.pages, r.size, o)
    ensures At(r.pages, r.size, o) == data[o % srcSize] || (count.Some? && CountField(o))
  {
    PageBlocks(d, srcSize, k, data);
    PageSpan(srcSize, k, o);
    CopyBlocksAt(d, srcSize, data, (k - 1) * srcSize, k * srcSize, count, put, r, o);
  }

  /** Copying a page leaves every byte of the other pages, even when it fails half-way. */
  lemma CopyPageElsewhere(d: Dest, srcSize: nat, k: nat, data: Page, count: Option<nat>, put: nat -> Rc, r: Dest,
          rc: Rc, o: nat)
    requires DestOk(d) && PageSize(srcSize) && |data| == srcSize && k >= 1
    requires CopyPage(d, srcSize, k, data, count, put) == (r, rc)
    requires PageOf(srcSize, o) != k && Holds(d.pages, d.size, o)
    ensures Holds(r.pages, r.size, o) && At(r.pages, r.size, o) == At(d.pages, d.size, o)
  {
    PageBlocks(d, srcSize, k, data);
    PageSpan(srcSize, k, o);
    if !(srcSize != d.size && d.memdb) {
      CopyBlocksElsewhere(d, srcSize, data, (k - 1) * srcSize, k * srcSize, count, put, r, rc, o);
    }
  }
}
