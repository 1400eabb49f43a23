/**
 Page-level transactions applied to a database held as one byte vector, and the
 page map that the byte vector represents.
 */
module PageStore {
  import opened Bytes

  const PAGESIZE := 4096

  function ZeroPage(): (z: Bytes)
    ensures |z| == PAGESIZE
  {
    Zeros(PAGESIZE)
  }

  datatype RawWrite = RawWrite(pageNo: u32, pageData: Bytes)

  /** A write of one whole page; pages are numbered from 1. */
  type PageWrite = w: RawWrite | w.pageNo >= 1 && |w.pageData| == PAGESIZE
    witness RawWrite(1, ZeroPage())

  datatype Transaction = Transaction(pageWrites: seq<PageWrite>, dbSizeAfter: u32)

  // ---------------------------------------------------------------- bytes

  /** Appends zero pages until at least `need` bytes are there. */
  function Grow(db: Bytes, need: nat): (r: Bytes)
    decreases need - |db|
  {
    if need <= |db| then db else Grow(db + ZeroPage(), need)
  }

  lemma {:induction false} GrowReaches(db: Bytes, need: nat)
    ensures |Grow(db, need)| >= need && |Grow(db, need)| >= |db|
    ensures |Grow(db, need)| % PAGESIZE == |db| % PAGESIZE
    decreases need - |db|
  {
    if need > |db| {
      GrowReaches(db + ZeroPage(), need);
    }
  }

  function PageOffset(w: PageWrite): (off: nat) {
    (w.pageNo - 1) * PAGESIZE
  }

  function WritePage(db: Bytes, w: PageWrite): (r: Bytes) {
    var off := PageOffset(w);
    var g := Grow(db, off + PAGESIZE);
    GrowReaches(db, off + PAGESIZE);
    g[..off] + w.pageData + g[off + PAGESIZE..]
  }

  function WritePages(db: Bytes, ws: seq<PageWrite>): (r: Bytes) {
    if ws == [] then db else WritePage(WritePages(db, ws[..|ws| - 1]), ws[|ws| - 1])
  }

  function Truncate(b: Bytes, n: nat): (r: Bytes) {
    if n < |b| then b[..n] else b
  }

  function ApplyTx(db: Bytes, tx: Transaction): (r: Bytes) {
    Truncate(WritePages(db, tx.pageWrites), PAGESIZE * tx.dbSizeAfter)
  }

  /** The loops of `apply_tx`, on the growable vector of the source. */
  method ApplyTxLoop(db: Bytes, tx: Transaction) returns (r: Bytes)
    ensures r == ApplyTx(db, tx)
  {
    r := db;
    for k := 0 to |tx.pageWrites|
      invariant r == WritePages(db, tx.pageWrites[..k])
    {
      ghost var before := r;
      var page := tx.pageWrites[k];
      var off := (page.pageNo - 1) * PAGESIZE;
      while off + PAGESIZE > |r|
        invariant Grow(r, off + PAGESIZE) == Grow(before, off + PAGESIZE)
        decreases off + PAGESIZE - |r|
      {
        r := r + ZeroPage();
      }
      r := r[..off] + page.pageData + r[off + PAGESIZE..];
      assert tx.pageWrites[..k + 1][..k] == tx.pageWrites[..k];
    }
    assert tx.pageWrites[..|tx.pageWrites|] == tx.pageWrites;
    if PAGESIZE * tx.dbSizeAfter < |r| {
      r := r[..PAGESIZE * tx.dbSizeAfter];
    }
  }

  // ---------------------------------------------------------------- pages

  predicate Aligned(db: Bytes) {
    |db| % PAGESIZE == 0
  }

  function PageCount(db: Bytes): nat {
    |db| / PAGESIZE
  }

  /** The page map of an aligned database: one byte string for each page. */
  function Pages(db: Bytes): (ps: seq<Bytes>)
    ensures |ps| == PageCount(db)
    ensures forall n :: 0 <= n < |ps| ==> ps[n] == db[n * PAGESIZE..(n + 1) * PAGESIZE]
  {
    seq(PageCount(db), n requires 0 <= n < PageCount(db) => db[n * PAGESIZE..(n + 1) * PAGESIZE])
  }

  /** Page n of a page map; pages past the end read as zeros. */
  function PageOr0(ps: seq<Bytes>, n: nat): Bytes {
    if n < |ps| then ps[n] else ZeroPage()
  }

  /** The highest page number written. */
  function Highest(ws: seq<PageWrite>): nat {
    if ws == [] then 0 else Max(Highest(ws[..|ws| - 1]), ws[|ws| - 1].pageNo)
  }

  /** What page n holds after the writes: its last write, or else the page given. */
  function LastWrite(ws: seq<PageWrite>, n: nat, otherwise: Bytes): Bytes {
    if ws == [] then otherwise
    else if ws[|ws| - 1].pageNo == n + 1 then ws[|ws| - 1].pageData
    else LastWrite(ws[..|ws| - 1], n, otherwise)
  }

  function Max(a: nat, b: nat): nat {
    if a < b then b else a
  }

  function Min(a: nat, b: nat): nat {
    if a < b then a else b
  }

  /** The meaning of a transaction on page maps, with no byte offsets in it. */
  function PagesAfter(ps: seq<Bytes>, tx: Transaction): (r: seq<Bytes>)
    ensures |r| == Min(Max(|ps|, Highest(tx.pageWrites)), tx.dbSizeAfter)
  {
    seq(Min(Max(|ps|, Highest(tx.pageWrites)), tx.dbSizeAfter),
        n requires 0 <= n => LastWrite(tx.pageWrites, n, PageOr0(ps, n)))
  }

  lemma {:induction false} GrowPages(db: Bytes, need: nat)
    requires Aligned(db) && need % PAGESIZE == 0
    ensures |Grow(db, need)| == Max(|db|, need)
    ensures db <= Grow(db, need)
    ensures forall i :: |db| <= i < |Grow(db, need)| ==> Grow(db, need)[i] == 0
    decreases need - |db|
  {
    if need > |db| {
      GrowPages(db + ZeroPage(), need);
    }
  }

  lemma GrownPage(db: Bytes, need: nat, n: nat)
    requires Aligned(db) && need % PAGESIZE == 0
    requires (n + 1) * PAGESIZE <= Max(|db|, need)
    ensures |Grow(db, need)| == Max(|db|, need)
    ensures Grow(db, need)[n * PAGESIZE..(n + 1) * PAGESIZE] == PageOr0(Pages(db), n)
  {
    GrowPages(db, need);
    var g := Grow(db, need);
    if n < PageCount(db) {
      PrefixSlice(db, g, n * PAGESIZE, (n + 1) * PAGESIZE);
    } else {
      assert g[n * PAGESIZE..(n + 1) * PAGESIZE] == ZeroPage();
    }
  }

  lemma WritePageLength(db: Bytes, w: PageWrite)
    requires Aligned(db)
    ensures |WritePage(db, w)| == PAGESIZE * Max(PageCount(db), w.pageNo)
  {
    GrowPages(db, PageOffset(w) + PAGESIZE);
  }

  /** The bytes of one page after a write of any page. */
  lemma WrittenPage(g: Bytes, w: PageWrite, n: nat)
    requires PageOffset(w) + PAGESIZE <= |g| && (n + 1) * PAGESIZE <= |g|
    ensures var off := PageOffset(w);
            var r := g[..off] + w.pageData + g[off + PAGESIZE..];
            |r| == |g| && r[n * PAGESIZE..(n + 1) * PAGESIZE]
                          == if n + 1 == w.pageNo then w.pageData else g[n * PAGESIZE..(n + 1) * PAGESIZE]
  {
    OverwriteSlice(g, PageOffset(w), w.pageData, n * PAGESIZE, (n + 1) * PAGESIZE);
  }

  /** One page write, seen on any page, those past the end included. */
  lemma WritePageOnPages(db: Bytes, w: PageWrite, n: nat)
    requires Aligned(db)
    ensures PageOr0(Pages(WritePage(db, w)), n) == if n + 1 == w.pageNo then w.pageData else PageOr0(Pages(db), n)
  {
    WritePageLength(db, w);
    if n < Max(PageCount(db), w.pageNo) {
      var need := PageOffset(w) + PAGESIZE;
      GrownPage(db, need, n);
      WrittenPage(Grow(db, need), w, n);
    }
  }

  lemma {:induction false} WritePagesLength(db: Bytes, ws: seq<PageWrite>)
    requires Aligned(db)
    ensures |WritePages(db, ws)| == PAGESIZE * Max(PageCount(db), Highest(ws))
  {
    if ws != [] {
      var front := ws[..|ws| - 1];
      WritePagesLength(db, front);
      WritePageLength(WritePages(db, front), ws[|ws| - 1]);
    }
  }

  lemma {:induction false} WritePagesOnPages(db: Bytes, ws: seq<PageWrite>, n: nat)
    requires Aligned(db)
    ensures PageOr0(Pages(WritePages(db, ws)), n) == LastWrite(ws, n, PageOr0(Pages(db), n))
  {
    if ws != [] {
      var front := ws[..|ws| - 1];
      WritePagesOnPages(db, front, n);
      WritePagesLength(db, front);
      WritePageOnPages(WritePages(db, front), ws[|ws| - 1], n);
    }
  }

  /** Cutting aligned bytes at a page boundary cuts their page map. */
  lemma TruncatePages(full: Bytes, size: nat)
    requires Aligned(full)
    ensures var r := Truncate(full, PAGESIZE * size);
            && Aligned(r) && PageCount(r) == Min(PageCount(full), size)
            && Pages(r) == Pages(full)[..PageCount(r)]
  {
    var r := Truncate(full, PAGESIZE * size);
    forall n: nat | n < PageCount(r)
      ensures Pages(r)[n] == Pages(full)[n]
    {
      PrefixSlice(r, full, n * PAGESIZE, (n + 1) * PAGESIZE);
    }
  }

  /**
   The byte-vector transaction refines the page map: applying it to the bytes and
   then reading the pages is the same as applying it to the pages.
   */
  lemma ApplyTxRefinesPages(db: Bytes, tx: Transaction)
    requires Aligned(db)
    ensures Aligned(ApplyTx(db, tx))
    ensures Pages(ApplyTx(db, tx)) == PagesAfter(Pages(db), tx)
  {
    var ws := tx.pageWrites;
    WritePagesLength(db, ws);
    var full := WritePages(db, ws);
    TruncatePages(full, tx.dbSizeAfter);
    forall n: nat | n < PageCount(full)
      ensures Pages(full)[n] == LastWrite(ws, n, PageOr0(Pages(db), n))
    {
      WritePagesOnPages(db, ws, n);
    }
  }

  /** A page map and its bytes determine each other. */
  lemma PagesDetermineBytes(a: Bytes, b: Bytes)
    requires Aligned(a) && Aligned(b) && Pages(a) == Pages(b)
    ensures a == b
  {
    assert |a| == PAGESIZE * |Pages(a)| && |b| == PAGESIZE * |Pages(b)|;
    forall i | 0 <= i < |a|
      ensures a[i] == b[i]
    {
      var n := i / PAGESIZE;
      assert Pages(a)[n][i - n * PAGESIZE] == Pages(b)[n][i - n * PAGESIZE];
    }
  }

  /** The last write of a page is the write after which nothing touches the page. */
  lemma {:induction false} LastWriteIsLast(ws: seq<PageWrite>, n: nat, p: Bytes, k: nat)
    requires k < |ws| && ws[k].pageNo == n + 1
    requires forall j :: k < j < |ws| ==> ws[j].pageNo != n + 1
    ensures LastWrite(ws, n, p) == ws[k].pageData
  {
    if k < |ws| - 1 {
      LastWriteIsLast(ws[..|ws| - 1], n, p, k);
    }
  }

  /** A page that is not written keeps what it held. */
  lemma {:induction false} UnwrittenPageIsKept(ws: seq<PageWrite>, n: nat, p: Bytes)
    requires forall j :: 0 <= j < |ws| ==> ws[j].pageNo != n + 1
    ensures LastWrite(ws, n, p) == p
  {
    if ws != [] {
      UnwrittenPageIsKept(ws[..|ws| - 1], n, p);
    }
  }

  // ---------------------------------------------------------------- reads

  /**
   `DbFile::read`: the two assertions of the source are the preconditions on offset
   and length. A read past the end is answered with zeros.
   */
  method ReadPage(db: Bytes, offset: nat, len: nat) returns (data: Bytes)
    requires offset % PAGESIZE == 0 && len <= PAGESIZE
    requires Aligned(db)
    ensures data == PageOr0(Pages(db), offset / PAGESIZE)[..len]
  {
    var start := offset / PAGESIZE * PAGESIZE;
    var source := if start >= |db| then ZeroPage() else db[start..start + PAGESIZE];
    if |source| > len {
      source := source[..len];
    }
    data := source;
  }
}
