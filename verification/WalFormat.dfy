/**
 The write-ahead log as bytes: a 32-byte header and whole frames (section 4.1 of the
 SQLite Database File Format), and the scan that cuts it into transactions.
 */
module WalFormat {
  import opened Bytes
  import opened PageStore

  const WAL_HEADER_SIZE := 32
  const WAL_FRAME_HEADER_SIZE := 24
  const FRAME_SIZE := WAL_FRAME_HEADER_SIZE + PAGESIZE

  /** `stamps` are the salts and checksums of the frame header, which the scan never reads. */
  datatype RawFrame = RawFrame(pageNo: u32, commitSize: u32, stamps: Bytes, page: Bytes)

  type Frame = f: RawFrame | f.pageNo >= 1 && |f.stamps| == 16 && |f.page| == PAGESIZE
    witness RawFrame(1, 0, Zeros(16), ZeroPage())

  // ---------------------------------------------------------------- bytes and frames

  function EncodeFrame(f: Frame): (b: Bytes)
    ensures |b| == FRAME_SIZE
  {
    Enc32(Big, f.pageNo) + Enc32(Big, f.commitSize) + f.stamps + f.page
  }

  function EncodeFrames(fs: seq<Frame>): (b: Bytes) {
    if fs == [] then [] else EncodeFrame(fs[0]) + EncodeFrames(fs[1..])
  }

  function PageNo(b: Bytes): u32
    requires |b| >= FRAME_SIZE
  {
    Dec32(Big, b[0..4])
  }

  function CommitSize(b: Bytes): u32
    requires |b| >= FRAME_SIZE
  {
    Dec32(Big, b[4..8])
  }

  /** Whole frames, each for a page numbered from 1. */
  predicate GoodFrames(b: Bytes) {
    b == [] || (|b| >= FRAME_SIZE && PageNo(b) >= 1 && GoodFrames(b[FRAME_SIZE..]))
  }

  /** What SQLite guarantees of a log that it leaves behind. */
  predicate WellFormed(wal: Bytes) {
    |wal| >= WAL_HEADER_SIZE && GoodFrames(wal[WAL_HEADER_SIZE..])
  }

  /** The frame that begins a byte string. */
  function FirstFrame(b: Bytes): (f: Frame)
    requires |b| >= FRAME_SIZE && PageNo(b) >= 1
  {
    RawFrame(PageNo(b), CommitSize(b), b[8..WAL_FRAME_HEADER_SIZE], b[WAL_FRAME_HEADER_SIZE..FRAME_SIZE])
  }

  function Frames(b: Bytes): (fs: seq<Frame>)
    requires GoodFrames(b)
  {
    if b == [] then [] else [FirstFrame(b)] + Frames(b[FRAME_SIZE..])
  }

  lemma FrameDecodesBack(f: Frame, rest: Bytes)
    ensures var b := EncodeFrame(f) + rest;
            b[FRAME_SIZE..] == rest && PageNo(b) == f.pageNo && FirstFrame(b) == f
  {
    var b := EncodeFrame(f) + rest;
    assert b[0..4] == Enc32(Big, f.pageNo);
    assert b[4..8] == Enc32(Big, f.commitSize);
    assert b[8..WAL_FRAME_HEADER_SIZE] == f.stamps;
    assert b[WAL_FRAME_HEADER_SIZE..FRAME_SIZE] == f.page;
    DecEnc32(Big, f.pageNo);
    DecEnc32(Big, f.commitSize);
  }

  lemma FrameEncodesBack(b: Bytes)
    requires |b| >= FRAME_SIZE && PageNo(b) >= 1
    ensures EncodeFrame(FirstFrame(b)) == b[..FRAME_SIZE]
  {
    EncDec32(Big, b[0..4]);
    EncDec32(Big, b[4..8]);
    assert b[..FRAME_SIZE] == b[0..4] + b[4..8] + b[8..WAL_FRAME_HEADER_SIZE] + b[WAL_FRAME_HEADER_SIZE..FRAME_SIZE];
  }

  lemma {:induction false} FramesDecodeBack(fs: seq<Frame>)
    ensures GoodFrames(EncodeFrames(fs)) && Frames(EncodeFrames(fs)) == fs
  {
    if fs != [] {
      FramesDecodeBack(fs[1..]);
      FrameDecodesBack(fs[0], EncodeFrames(fs[1..]));
    }
  }

  lemma {:induction false} FramesEncodeBack(b: Bytes)
    requires GoodFrames(b)
    ensures EncodeFrames(Frames(b)) == b
    decreases |b|
  {
    if b != [] {
      FrameEncodesBack(b);
      FramesEncodeBack(b[FRAME_SIZE..]);
      assert Frames(b)[1..] == Frames(b[FRAME_SIZE..]);
      SplitAt(b, FRAME_SIZE);
    }
  }

  lemma {:induction false} EncodeConcat(a: seq<Frame>, b: seq<Frame>)
    ensures EncodeFrames(a + b) == EncodeFrames(a) + EncodeFrames(b)
  {
    if a == [] {
      assert a + b == b;
    } else {
      assert (a + b)[1..] == a[1..] + b;
      EncodeConcat(a[1..], b);
    }
  }

  lemma FramesConcat(a: Bytes, b: Bytes)
    requires GoodFrames(a) && GoodFrames(b)
    ensures GoodFrames(a + b) && Frames(a + b) == Frames(a) + Frames(b)
  {
    FramesEncodeBack(a);
    FramesEncodeBack(b);
    EncodeConcat(Frames(a), Frames(b));
    FramesDecodeBack(Frames(a) + Frames(b));
  }

  // ---------------------------------------------------------------- the scan

  /** The write that a frame carries. */
  function FrameWrite(f: Frame): PageWrite {
    RawWrite(f.pageNo, f.page)
  }

  function FrameWrites(fs: seq<Frame>): (ws: seq<PageWrite>)
    ensures |ws| == |fs|
    ensures forall i :: 0 <= i < |fs| ==> ws[i] == FrameWrite(fs[i])
  {
    seq(|fs|, i requires 0 <= i < |fs| => FrameWrite(fs[i]))
  }

  /** The transactions found in the frames `fs`, after the uncommitted frames `pending`. */
  function Scan(pending: seq<Frame>, fs: seq<Frame>): (txs: seq<Transaction>)
    decreases |fs|
  {
    if fs == [] then []
    else
      var read := pending + [fs[0]];
      if fs[0].commitSize != 0 then [Transaction(FrameWrites(read), fs[0].commitSize)] + Scan([], fs[1..])
      else Scan(read, fs[1..])
  }

  function Transactions(wal: Bytes): (txs: seq<Transaction>)
    requires WellFormed(wal)
  {
    Scan([], Frames(wal[WAL_HEADER_SIZE..]))
  }

  /** A position where a frame begins. */
  lemma FrameAt(wal: Bytes, idx: nat, end: nat)
    requires idx < end <= |wal| && GoodFrames(wal[idx..end])
    ensures idx + FRAME_SIZE <= end && GoodFrames(wal[idx + FRAME_SIZE..end])
    ensures Frames(wal[idx..end]) == [FirstFrame(wal[idx..end])] + Frames(wal[idx + FRAME_SIZE..end])
  {
    SliceOfSlice(wal, idx, end, FRAME_SIZE, end - idx);
  }

  /** The bytes that the source reads of a frame header and its page are those of the frame. */
  lemma FieldsAt(wal: Bytes, idx: nat, end: nat)
    requires idx + FRAME_SIZE <= end <= |wal|
    ensures var header, b := wal[idx..idx + WAL_FRAME_HEADER_SIZE], wal[idx..end];
            header[0..4] == b[0..4] && header[4..8] == b[4..8]
            && wal[idx + WAL_FRAME_HEADER_SIZE..idx + FRAME_SIZE] == b[WAL_FRAME_HEADER_SIZE..FRAME_SIZE]
  {
    SliceOfSlice(wal, idx, end, 0, 4);
    SliceOfSlice(wal, idx, end, 4, 8);
    SliceOfSlice(wal, idx, end, WAL_FRAME_HEADER_SIZE, FRAME_SIZE);
    SliceOfSlice(wal, idx, idx + WAL_FRAME_HEADER_SIZE, 0, 4);
    SliceOfSlice(wal, idx, idx + WAL_FRAME_HEADER_SIZE, 4, 8);
  }

  method ReadFrame(wal: Bytes, idx: nat, end: nat) returns (w: PageWrite)
    requires idx < end <= |wal| && GoodFrames(wal[idx..end])
    ensures w == FrameWrite(FirstFrame(wal[idx..end]))
  {
    FieldsAt(wal, idx, end);
    var header := wal[idx..idx + WAL_FRAME_HEADER_SIZE];
    var page := wal[idx + WAL_FRAME_HEADER_SIZE..idx + FRAME_SIZE];
    w := RawWrite(Dec32(Big, header[0..4]), page);
  }

  method ReadCommitSize(wal: Bytes, idx: nat, end: nat) returns (size: u32)
    requires idx + FRAME_SIZE <= end <= |wal|
    ensures size == CommitSize(wal[idx..end])
  {
    FieldsAt(wal, idx, end);
    var header := wal[idx..idx + WAL_FRAME_HEADER_SIZE];
    size := Dec32(Big, header[4..8]);
  }

  method ExtractWritesFromWal(wal: Bytes, start: nat, end: nat) returns (ws: seq<PageWrite>)
    requires start <= end <= |wal| && GoodFrames(wal[start..end])
    ensures ws == FrameWrites(Frames(wal[start..end]))
  {
    ws := [];
    var idx := start;
    ghost var done: seq<Frame> := [];
    while idx < end
      invariant start <= idx <= end && GoodFrames(wal[idx..end])
      invariant done + Frames(wal[idx..end]) == Frames(wal[start..end])
      invariant ws == FrameWrites(done)
    {
      FrameAt(wal, idx, end);
      var w := ReadFrame(wal, idx, end);
      ws := ws + [w];
      done := Append(done, FirstFrame(wal[idx..end]), Frames(wal[idx + FRAME_SIZE..end]));
      idx := idx + FRAME_SIZE;
    }
    assert done == Frames(wal[start..end]);
  }

  /** Moves the first of the remaining frames to the end of the frames done. */
  ghost function Append(done: seq<Frame>, f: Frame, rest: seq<Frame>): (r: seq<Frame>)
    ensures r == done + [f]
    ensures r + rest == done + ([f] + rest)
    ensures FrameWrites(r) == FrameWrites(done) + [FrameWrite(f)]
  {
    done + [f]
  }

  // ---------------------------------------------------------------- round trip

  /** No frame of the run commits. */
  predicate Uncommitted(fs: seq<Frame>) {
    forall i :: 0 <= i < |fs| ==> fs[i].commitSize == 0
  }

  /** The frames of one transaction: only the last one carries a commit size. */
  predicate IsGroup(fs: seq<Frame>) {
    |fs| > 0 && Uncommitted(fs[..|fs| - 1]) && fs[|fs| - 1].commitSize != 0
  }

  type Group = fs: seq<Frame> | IsGroup(fs)
    witness [RawFrame(1, 1, Zeros(16), ZeroPage())]

  function GroupTransaction(g: Group): Transaction {
    Transaction(FrameWrites(g), g[|g| - 1].commitSize)
  }

  function Flatten(gs: seq<Group>): seq<Frame> {
    if gs == [] then [] else gs[0] + Flatten(gs[1..])
  }

  function GroupTransactions(gs: seq<Group>): (txs: seq<Transaction>)
    ensures |txs| == |gs|
    ensures forall i :: 0 <= i < |gs| ==> txs[i] == GroupTransaction(gs[i])
  {
    seq(|gs|, i requires 0 <= i < |gs| => GroupTransaction(gs[i]))
  }

  lemma {:induction false} ScanTail(pending: seq<Frame>, tail: seq<Frame>)
    requires Uncommitted(tail)
    ensures Scan(pending, tail) == []
    decreases |tail|
  {
    if tail != [] {
      ScanTail(pending + [tail[0]], tail[1..]);
    }
  }

  lemma {:induction false} ScanGroup(pending: seq<Frame>, g: seq<Frame>, rest: seq<Frame>)
    requires IsGroup(g)
    ensures Scan(pending, g + rest)
            == [Transaction(FrameWrites(pending + g), g[|g| - 1].commitSize)] + Scan([], rest)
    decreases |g|
  {
    assert (g + rest)[1..] == g[1..] + rest;
    if |g| == 1 {
      assert g[1..] + rest == rest;
      assert pending + [g[0]] == pending + g;
    } else {
      var t := g[1..];
      assert g[..|g| - 1][0].commitSize == 0;
      assert t[..|t| - 1] == g[..|g| - 1][1..];
      ScanGroup(pending + [g[0]], t, rest);
      assert pending + [g[0]] + t == pending + g;
    }
  }

  lemma ScanOneGroup(g: Group, rest: seq<Frame>)
    ensures Scan([], g + rest) == [GroupTransaction(g)] + Scan([], rest)
  {
    ScanGroup([], g, rest);
    assert [] + g == g;
  }

  lemma {:induction false} ScanGroups(gs: seq<Group>, tail: seq<Frame>)
    requires Uncommitted(tail)
    ensures Scan([], Flatten(gs) + tail) == GroupTransactions(gs)
    decreases |gs|
  {
    if gs == [] {
      assert Flatten(gs) + tail == tail;
      ScanTail([], tail);
    } else {
      var g, others := gs[0], gs[1..];
      ScanGroups(others, tail);
      ScanOneGroup(g, Flatten(others) + tail);
      Associate(g, Flatten(others), tail);
      GroupTransactionsCons(gs);
    }
  }

  lemma Associate(a: seq<Frame>, b: seq<Frame>, c: seq<Frame>)
    ensures (a + b) + c == a + (b + c)
  {
  }

  lemma GroupTransactionsCons(gs: seq<Group>)
    requires gs != []
    ensures GroupTransactions(gs) == [GroupTransaction(gs[0])] + GroupTransactions(gs[1..])
  {
  }

  /** The transaction has the pages of the frames, in order, and the size of the last frame. */
  predicate CarriesFrames(tx: Transaction, g: Group) {
    && tx.dbSizeAfter == g[|g| - 1].commitSize && |tx.pageWrites| == |g|
    && forall k :: 0 <= k < |g| ==> tx.pageWrites[k].pageNo == g[k].pageNo && tx.pageWrites[k].pageData == g[k].page
  }

  /**
   Round trip: lay any list of transactions out as frames, with any header, any salts
   and checksums and any uncommitted tail; the scan gives back exactly those
   transactions, in order, each with its commit size, and nothing of the tail.
   */
  lemma WalRoundTrip(header: Bytes, gs: seq<Group>, tail: seq<Frame>)
    requires |header| == WAL_HEADER_SIZE && Uncommitted(tail)
    ensures WellFormed(header + EncodeFrames(Flatten(gs) + tail))
    ensures Transactions(header + EncodeFrames(Flatten(gs) + tail)) == GroupTransactions(gs)
    ensures var txs := Transactions(header + EncodeFrames(Flatten(gs) + tail));
            && |txs| == |gs|
            && forall i :: 0 <= i < |gs| ==> CarriesFrames(txs[i], gs[i])
  {
    var fs := Flatten(gs) + tail;
    DropPrefix(header, EncodeFrames(fs));
    FramesDecodeBack(fs);
    ScanGroups(gs, tail);
  }

  /** Every transaction with a write and a commit size is the transaction of some frames. */
  lemma EveryTransactionHasFrames(tx: Transaction) returns (g: Group)
    requires |tx.pageWrites| > 0 && tx.dbSizeAfter != 0
    ensures GroupTransaction(g) == tx
  {
    var n := |tx.pageWrites|;
    var fs: seq<Frame> := seq(n, i requires 0 <= i < n =>
      RawFrame(tx.pageWrites[i].pageNo, if i == n - 1 then tx.dbSizeAfter else 0, Zeros(16), tx.pageWrites[i].pageData));
    g := fs;
    assert FrameWrites(g) == tx.pageWrites;
  }

  /** Any run of frames is a list of groups and an uncommitted tail. */
  lemma {:induction false} FramesSplit(fs: seq<Frame>) returns (gs: seq<Group>, tail: seq<Frame>)
    ensures fs == Flatten(gs) + tail && Uncommitted(tail)
    decreases |fs|
  {
    if i :| 0 <= i < |fs| && fs[i].commitSize != 0 && Uncommitted(fs[..i]) {
      var g: seq<Frame> := fs[..i + 1];
      assert g[..|g| - 1] == fs[..i];
      var rest, t := FramesSplit(fs[i + 1..]);
      gs, tail := [g] + rest, t;
      assert gs[1..] == rest;
    } else {
      FirstCommit(fs, 0);
      gs, tail := [], fs;
    }
  }

  lemma {:induction false} FirstCommit(fs: seq<Frame>, i: nat)
    requires i <= |fs| && Uncommitted(fs[..i])
    ensures Uncommitted(fs) || exists k :: 0 <= k < |fs| && fs[k].commitSize != 0 && Uncommitted(fs[..k])
    decreases |fs| - i
  {
    if i < |fs| && fs[i].commitSize == 0 {
      assert fs[..i + 1] == fs[..i] + [fs[i]];
      FirstCommit(fs, i + 1);
    } else if i == |fs| {
      assert fs[..i] == fs;
    }
  }

  /**
   Nothing is lost or invented: every well-formed log is the layout of exactly the
   transactions the scan finds in it, followed by frames that do not commit.
   */
  lemma ScanIsComplete(wal: Bytes) returns (gs: seq<Group>, tail: seq<Frame>)
    requires WellFormed(wal)
    ensures wal == wal[..WAL_HEADER_SIZE] + EncodeFrames(Flatten(gs) + tail)
    ensures Uncommitted(tail) && GroupTransactions(gs) == Transactions(wal)
  {
    var b := wal[WAL_HEADER_SIZE..];
    FramesEncodeBack(b);
    gs, tail := FramesSplit(Frames(b));
    ScanGroups(gs, tail);
  }

  // ---------------------------------------------------------------- the file

  /** `WalFile::write`: extends with zeros, then overwrites. */
  function WalWrite(wal: Bytes, offset: nat, data: Bytes): (r: Bytes) {
    var ext := if offset + |data| > |wal| then wal + Zeros(offset + |data| - |wal|) else wal;
    ext[..offset] + data + ext[offset + |data|..]
  }

  /** `WalFile::read`: the part of the range that exists. */
  function WalRead(wal: Bytes, offset: nat, len: nat): (r: Bytes) {
    wal[Min(offset, |wal|)..Min(offset + len, |wal|)]
  }

  /** A write puts its bytes in place, changes no other byte, fills a gap with zeros and never shortens the log. */
  lemma WalWriteBytes(wal: Bytes, offset: nat, data: Bytes)
    ensures var w := WalWrite(wal, offset, data);
            |w| == Max(|wal|, offset + |data|)
            && forall k :: 0 <= k < |w| ==>
                 w[k] == if offset <= k < offset + |data| then data[k - offset] else if k < |wal| then wal[k] else 0
  {
  }

  lemma WalWriteReadsBack(wal: Bytes, offset: nat, data: Bytes)
    ensures WalRead(WalWrite(wal, offset, data), offset, |data|) == data
  {
    WalWriteBytes(wal, offset, data);
  }
}
