/** Databases as numbered pages of bytes, and the page-size arithmetic of copying between two page sizes. */
module BackupPages {
  import opened Arithmetic

  type byte = b: int | 0 <= b < 256

  type Page = seq<byte>

  /** The byte the file locks live on: the page that holds it is never used. */
  const PENDING_BYTE: nat := 0x4000_0000

  predicate PageSize(n: nat) {
    n == 512 || n == 1024 || n == 2048 || n == 4096 || n == 8192 || n == 16384 || n == 32768 || n == 65536
  }

  /** PENDING_BYTE_PAGE */
  function PendingPage(size: nat): nat
    requires size > 0
  {
    PENDING_BYTE / size + 1
  }

  function Min(a: nat, b: nat): nat {
    if a < b then a else b
  }

  predicate Paged(pages: seq<Page>, size: nat) {
    PageSize(size) && forall i :: 0 <= i < |pages| ==> |pages[i]| == size
  }

  /** The number of the page that holds byte offset o. */
  function PageOf(size: nat, o: nat): nat
    requires size > 0
  {
    o / size + 1
  }

  /** The database holds byte offset o. */
  predicate Holds(pages: seq<Page>, size: nat, o: nat) {
    size > 0 && PageOf(size, o) <= |pages|
  }

  /** The byte at file offset o. */
  function At(pages: seq<Page>, size: nat, o: nat): byte
    requires Paged(pages, size) && Holds(pages, size, o)
  {
    pages[PageOf(size, o) - 1][o % size]
  }

  /** The file these pages make. */
  function Flatten(pages: seq<Page>): seq<byte> {
    if pages == [] then [] else Flatten(pages[..|pages| - 1]) + pages[|pages| - 1]
  }

  function Zeros(n: nat): Page {
    seq(n, _ => 0)
  }

  /** The pages, with zeroed ones added up to n. */
  function Extend(pages: seq<Page>, n: nat, size: nat): (r: seq<Page>)
    ensures |r| == if |pages| < n then n else |pages|
    ensures forall i :: 0 <= i < |pages| ==> r[i] == pages[i]
    ensures forall i :: |pages| <= i < |r| ==> r[i] == Zeros(size)
  {
    if |pages| < n then pages + seq(n - |pages|, _ => Zeros(size)) else pages
  }

  /** `block` written into s at offset x. */
  function Splice(s: seq<byte>, x: nat, block: seq<byte>): (r: seq<byte>)
    requires x + |block| <= |s|
    ensures |r| == |s|
    ensures forall k :: 0 <= k < |s| ==> r[k] == if x <= k < x + |block| then block[k - x] else s[k]
  {
    s[..x] + block + s[x + |block|..]
  }

  /** A write at offset x of a file, which grows (with a hole of zeros) when it has to. */
  function FileWrite(file: seq<byte>, x: nat, block: seq<byte>): (r: seq<byte>)
    ensures |r| == if |file| < x + |block| then x + |block| else |file|
    ensures forall k :: 0 <= k < |r| ==>
      r[k] == if x <= k < x + |block| then block[k - x] else if k < |file| then file[k] else 0
  {
    var grown := if |file| < x + |block| then file + Zeros(x + |block| - |file|) else file;
    Splice(grown, x, block)
  }

  /** sqlite3Put4byte: a 32-bit number, most significant byte first. */
  function Put4(n: nat): (r: seq<byte>)
    ensures |r| == 4
  {
    var m := n % 0x1_0000_0000;
    [m / 0x100_0000, m / 0x1_0000 % 256, m / 256 % 256, m % 256]
  }

  lemma SizesDivide(a: nat, b: nat)
    requires PageSize(a) && PageSize(b) && a <= b
    ensures b % a == 0 && PENDING_BYTE % b == 0
  {
    if a == 512 {} else if a == 1024 {} else if a == 2048 {} else if a == 4096 {}
    else if a == 8192 {} else if a == 16384 {} else if a == 32768 {} else {}
  }

  /** Block q of the blocks of c bytes, m to a page: where it starts. */
  lemma BlockStart(c: nat, m: nat, q: nat, size: nat, off: nat, t: nat)
    requires c > 0 && m > 0 && size == m * c && off == q * c && t < c
    ensures size > 0 && off % size + c <= size
    ensures (off + t) / size == off / size && (off + t) % size == off % size + t
  {
    var a, r := q / m, q % m;
    assert off == a * size + r * c by {
      assert off == (a * m + r) * c;
      assert (a * m) * c == a * (m * c);
    }
    assert (r + 1) * c == r * c + c;
    Times(r + 1, m, c);
    Times(1, m, c);
    assert (a + 1) * size == a * size + size;
    Quotient(off, size, a);
    Quotient(off + t, size, a);
  }

  /** A c-aligned block of c bytes lies inside one page of any size that c divides. */
  lemma BlockInPage(size: nat, c: nat, off: nat, t: nat)
    requires c > 0 && size > 0 && size % c == 0 && off % c == 0 && t < c
    ensures off % size + c <= size
    ensures (off + t) / size == off / size && (off + t) % size == off % size + t
  {
    var m, q := size / c, off / c;
    assert size == m * c && off == q * c;
    BlockStart(c, m, q, size, off, t);
  }

  /** The offsets of page k. */
  lemma PageSpan(size: nat, k: nat, o: nat)
    requires size > 0 && k >= 1
    ensures PageOf(size, o) == k <==> (k - 1) * size <= o < k * size
    ensures PageOf(size, o) == k ==> o % size == o - (k - 1) * size
  {
    if (k - 1) * size <= o < k * size {
      Quotient(o, size, k - 1);
    }
    assert o == (o / size) * size + o % size;
  }

  /** The unused page starts at PENDING_BYTE whatever the page size. */
  lemma PendingSpan(size: nat, o: nat)
    requires PageSize(size)
    ensures PageOf(size, o) == PendingPage(size) <==> PENDING_BYTE <= o < PENDING_BYTE + size
  {
    SizesDivide(size, size);
    assert (PENDING_BYTE / size) * size == PENDING_BYTE;
    PageSpan(size, PendingPage(size), o);
  }

  lemma {:induction false} FlattenLength(pages: seq<Page>, size: nat)
    requires Paged(pages, size)
    ensures |Flatten(pages)| == |pages| * size
  {
    if pages != [] {
      var n := |pages| - 1;
      FlattenLength(pages[..n], size);
      Distribute(n, size);
    }
  }

  /** The file that pages make has at every offset the byte the pages have there. */
  lemma {:induction false} FlattenAt(pages: seq<Page>, size: nat, o: nat)
    requires Paged(pages, size) && o < |pages| * size
    ensures |Flatten(pages)| == |pages| * size && Holds(pages, size, o)
    ensures Flatten(pages)[o] == At(pages, size, o)
  {
    var n := |pages| - 1;
    FlattenLength(pages, size);
    FlattenLength(pages[..n], size);
    Distribute(n, size);
    PageSpan(size, n + 1, o);
    if o < n * size {
      FlattenAt(pages[..n], size, o);
    }
  }
}
