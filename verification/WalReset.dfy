/**
 `reset_wal`: the empty log written after a commit or a pull, and the wal-index header
 that goes with it (section 2.1 of the SQLite WAL-mode File Format).
 */
module WalReset {
  import opened Bytes
  import opened PageStore
  import opened WalFormat
  import Checksum

  const WAL_HEADER_MAGIC_NUMBER_LITTLE_ENDIAN: u32 := 0x377f0682
  const WAL_FILE_FORMAT_VERSION: u32 := 3007000
  const WAL_INDEX_FORMAT_VERSION: u32 := 3007000
  const WAL_INDEX_INFO_SIZE := 48
  const WAL_INDEX_HEADER_SIZE := 136
  const WAL_INDEX_INITIAL_SIZE := 32768
  const READMARK_NOT_USED: u32 := 0xffff_ffff

  /** Everything of the log header that its checksum covers. */
  function HeaderBody(salt1: u32, salt2: u32): (b: Bytes)
    ensures |b| == WAL_HEADER_SIZE - 8
  {
    Enc32(Big, WAL_HEADER_MAGIC_NUMBER_LITTLE_ENDIAN) + Enc32(Big, WAL_FILE_FORMAT_VERSION)
    + Enc32(Big, PAGESIZE) + Enc32(Big, 0) + Enc32(Big, salt1) + Enc32(Big, salt2)
  }

  /** The header: the checksum is computed over little-endian words and stored big-endian. */
  function Header(salt1: u32, salt2: u32): (b: Bytes)
    ensures |b| == WAL_HEADER_SIZE
  {
    var sum := Checksum.Of(Words(Little, HeaderBody(salt1, salt2)));
    HeaderBody(salt1, salt2) + Enc32(Big, sum.s0) + Enc32(Big, sum.s1)
  }

  /** The first salt counts up, wrapping as in a release build, and starts at random. */
  function NextSalt1(wal: Bytes, random1: u32): u32
    requires |wal| >= WAL_HEADER_SIZE
  {
    var salt1 := Dec32(Big, wal[16..20]);
    if salt1 == 0 then random1 else Checksum.Add(salt1, 1)
  }

  function ResetLog(wal: Bytes, random1: u32, random2: u32): (r: Bytes)
    requires |wal| >= WAL_HEADER_SIZE
    ensures |r| == WAL_HEADER_SIZE
  {
    Header(NextSalt1(wal, random1), random2)
  }

  /** The page count field of the wal-index is a truncating cast. */
  function PageCountField(db: Bytes): u32 {
    PageCount(db) % TWO32
  }

  /** The first six words of a wal-index header copy. */
  function InfoStart(host: Endian, nPage: u32): (b: Bytes)
    ensures |b| == 24
  {
    Enc32(host, WAL_INDEX_FORMAT_VERSION) + Zeros(4) + Enc32(host, 0) + ([1, 0] + Enc16(host, PAGESIZE))
    + Enc32(host, 0) + Enc32(host, nPage)
  }

  /** Everything of one wal-index header copy that its checksum covers. */
  function InfoBody(host: Endian, db: Bytes, salts: Bytes): (b: Bytes)
    requires |salts| == 8
    ensures |b| == WAL_INDEX_INFO_SIZE - 8
  {
    InfoStart(host, PageCountField(db)) + Zeros(8) + salts
  }

  function Info(host: Endian, db: Bytes, salts: Bytes): (b: Bytes)
    requires |salts| == 8
    ensures |b| == WAL_INDEX_INFO_SIZE
  {
    var sum := Checksum.Of(Words(host, InfoBody(host, db, salts)));
    InfoBody(host, db, salts) + Enc32(host, sum.s0) + Enc32(host, sum.s1)
  }

  /** Nothing backfilled, read marks 0 and 1 at frame 0, the other three unused. */
  function Tail(host: Endian): (b: Bytes)
    ensures |b| == WAL_INDEX_HEADER_SIZE - 2 * WAL_INDEX_INFO_SIZE
  {
    var unused := Enc32(host, READMARK_NOT_USED);
    Enc32(host, 0) + (Enc32(host, 0) + Enc32(host, 0) + unused + unused + unused)
    + Zeros(8) + Enc32(host, 0) + Zeros(4)
  }

  /** The wal-index page after a reset whose log is `wal`: two header copies, the tail, the rest as before. */
  function ResetIndex(host: Endian, index: Bytes, wal: Bytes, db: Bytes): (r: Bytes)
    requires |index| == WAL_INDEX_INITIAL_SIZE && |wal| == WAL_HEADER_SIZE
    ensures |r| == WAL_INDEX_INITIAL_SIZE
  {
    var info := Info(host, db, wal[16..24]);
    info + info + Tail(host) + index[WAL_INDEX_HEADER_SIZE..]
  }

  /** The header with its checksum computed by the loop. */
  method MakeHeader(salt1: u32, salt2: u32) returns (b: Bytes)
    ensures b == Header(salt1, salt2)
  {
    var body := HeaderBody(salt1, salt2);
    var s0, s1 := Checksum.ComputeChecksum(Words(Little, body));
    b := body + Enc32(Big, s0) + Enc32(Big, s1);
  }

  /** A wal-index header copy with its checksum computed by the loop. */
  method MakeInfo(host: Endian, db: Bytes, salts: Bytes) returns (b: Bytes)
    requires |salts| == 8
    ensures b == Info(host, db, salts)
  {
    var body := InfoBody(host, db, salts);
    var s0, s1 := Checksum.ComputeChecksum(Words(host, body));
    b := body + Enc32(host, s0) + Enc32(host, s1);
  }

  // ---------------------------------------------------------------- what a reader checks

  function Field(e: Endian, b: Bytes, at: nat): u32
    requires at + 4 <= |b|
  {
    Dec32(e, b[at..at + 4])
  }

  /** The log header as SQLite validates it on recovery. */
  predicate HeaderVerifies(wal: Bytes)
    requires |wal| >= WAL_HEADER_SIZE
  {
    && Field(Big, wal, 0) == 0x377f0682
    && Field(Big, wal, 4) == 3007000
    && Field(Big, wal, 8) == 4096
    && Field(Big, wal, 12) == 0
    && Checksum.FibonacciSums(Words(Little, wal[..24])) == Checksum.Sum(Field(Big, wal, 24), Field(Big, wal, 28))
  }

  /** A wal-index header copy whose checksum verifies in host byte order. */
  predicate InfoVerifies(host: Endian, info: Bytes)
    requires |info| == WAL_INDEX_INFO_SIZE
  {
    Checksum.FibonacciSums(Words(host, info[..40])) == Checksum.Sum(Field(host, info, 40), Field(host, info, 44))
  }

  /** Both header copies of the wal-index are there, equal, and verify. */
  predicate IndexVerifies(host: Endian, index: Bytes) {
    && |index| == WAL_INDEX_INITIAL_SIZE
    && index[..48] == index[48..96]
    && InfoVerifies(host, index[..48])
  }

  /** The wal-index is initialised, has no frames, and repeats the log's salts and the database size. */
  predicate IndexDescribes(host: Endian, index: Bytes, wal: Bytes, db: Bytes)
    requires |index| == WAL_INDEX_INITIAL_SIZE && |wal| == WAL_HEADER_SIZE
  {
    && Field(host, index, 0) == 3007000
    && index[4..8] == [0, 0, 0, 0] && Field(host, index, 8) == 0
    // initialised, little-endian log checksums, pages of 4096 bytes
    && index[12..16] == (if host.Big? then [1, 0, 0x10, 0] else [1, 0, 0, 0x10])
    && Field(host, index, 16) == 0
    && Field(host, index, 20) == |db| / 4096 % TWO32
    && index[24..32] == [0, 0, 0, 0, 0, 0, 0, 0]
    && index[32..40] == wal[16..24]
  }

  /** Nothing is backfilled; read marks 0 and 1 stand at frame 0 and the others are unused. */
  predicate NoReaders(host: Endian, index: Bytes)
    requires |index| == WAL_INDEX_INITIAL_SIZE
  {
    && Field(host, index, 96) == 0 && Field(host, index, 128) == 0
    && Field(host, index, 100) == 0 && Field(host, index, 104) == 0
    && Field(host, index, 108) == Field(host, index, 112) == Field(host, index, 116) == 0xffff_ffff
    && index[120..128] == [0, 0, 0, 0, 0, 0, 0, 0] && index[132..136] == [0, 0, 0, 0]
  }

  /** The salts after a reset: the first counts up, or is drawn if it was zero, and the second is drawn. */
  predicate SaltsFollow(before: Bytes, after: Bytes, random1: u32, random2: u32)
    requires |before| >= WAL_HEADER_SIZE && |after| >= WAL_HEADER_SIZE
  {
    && Field(Big, after, 16) == (if Field(Big, before, 16) == 0 then random1 else (Field(Big, before, 16) + 1) % TWO32)
    && Field(Big, after, 20) == random2
  }

  /** An empty log and a wal-index that agree with each other and with the database. */
  predicate SelfConsistent(host: Endian, wal: Bytes, index: Bytes, db: Bytes) {
    && |wal| == WAL_HEADER_SIZE && HeaderVerifies(wal)
    && IndexVerifies(host, index)
    && IndexDescribes(host, index, wal, db)
    && NoReaders(host, index)
  }

  // ---------------------------------------------------------------- proof

  /** A part of a concatenation, by its position. */
  lemma PartField(e: Endian, pre: Bytes, x: u32, post: Bytes)
    ensures Field(e, pre + Enc32(e, x) + post, |pre|) == x
  {
    MiddleSlice(pre, Enc32(e, x), post);
    DecEnc32(e, x);
  }

  /** The first six words of a structure, whatever follows them. */
  lemma SixWords(e: Endian, a: Bytes, b: Bytes, c: Bytes, d: Bytes, f: Bytes, g: Bytes, rest: Bytes)
    requires |a| == |b| == |c| == |d| == |f| == |g| == 4
    ensures var all := a + b + c + d + f + g + rest;
            all[0..4] == a && all[4..8] == b && all[8..12] == c && all[12..16] == d
            && all[16..20] == f && all[20..24] == g && all[24..] == rest
  {
  }

  lemma ChecksumFields(e: Endian, body: Bytes, s0: u32, s1: u32)
    ensures var all := body + Enc32(e, s0) + Enc32(e, s1);
            all[..|body|] == body && Field(e, all, |body|) == s0 && Field(e, all, |body| + 4) == s1
  {
    PartField(e, body, s0, Enc32(e, s1));
    assert body + Enc32(e, s0) + Enc32(e, s1) == (body + Enc32(e, s0)) + Enc32(e, s1) + [];
    PartField(e, body + Enc32(e, s0), s1, []);
  }

  lemma HeaderFields(salt1: u32, salt2: u32)
    ensures var h := Header(salt1, salt2);
            Field(Big, h, 0) == WAL_HEADER_MAGIC_NUMBER_LITTLE_ENDIAN && Field(Big, h, 4) == WAL_FILE_FORMAT_VERSION
            && Field(Big, h, 8) == PAGESIZE && Field(Big, h, 12) == 0 && Field(Big, h, 16) == salt1 && Field(Big, h, 20) == salt2
  {
    var h := Header(salt1, salt2);
    var a, b, c := Enc32(Big, WAL_HEADER_MAGIC_NUMBER_LITTLE_ENDIAN), Enc32(Big, WAL_FILE_FORMAT_VERSION), Enc32(Big, PAGESIZE);
    var d, f, g := Enc32(Big, 0), Enc32(Big, salt1), Enc32(Big, salt2);
    assert h == a + b + c + d + f + g + h[24..];
    SixWords(Big, a, b, c, d, f, g, h[24..]);
    DecEnc32(Big, WAL_HEADER_MAGIC_NUMBER_LITTLE_ENDIAN);
    DecEnc32(Big, WAL_FILE_FORMAT_VERSION);
    DecEnc32(Big, PAGESIZE);
    DecEnc32(Big, 0);
    DecEnc32(Big, salt1);
    DecEnc32(Big, salt2);
  }

  lemma HeaderIsVerified(salt1: u32, salt2: u32)
    ensures HeaderVerifies(Header(salt1, salt2))
  {
    var b := HeaderBody(salt1, salt2);
    var sum := Checksum.Of(Words(Little, b));
    Checksum.ChecksumIsFibonacci(Words(Little, b));
    ChecksumFields(Big, b, sum.s0, sum.s1);
    HeaderFields(salt1, salt2);
  }

  lemma InfoIsVerified(host: Endian, db: Bytes, salts: Bytes)
    requires |salts| == 8
    ensures InfoVerifies(host, Info(host, db, salts))
  {
    var b := InfoBody(host, db, salts);
    var sum := Checksum.Of(Words(host, b));
    Checksum.ChecksumIsFibonacci(Words(host, b));
    ChecksumFields(host, b, sum.s0, sum.s1);
  }

  lemma InfoStartWords(host: Endian, nPage: u32)
    ensures var b := InfoStart(host, nPage);
            b[0..4] == Enc32(host, WAL_INDEX_FORMAT_VERSION) && b[4..8] == Zeros(4) && b[8..12] == Enc32(host, 0)
            && b[12..16] == [1, 0] + Enc16(host, PAGESIZE) && b[16..20] == Enc32(host, 0) && b[20..24] == Enc32(host, nPage)
  {
    var b := InfoStart(host, nPage);
    var a, z, n := Enc32(host, WAL_INDEX_FORMAT_VERSION), Enc32(host, 0), Enc32(host, nPage);
    var d := [1, 0] + Enc16(host, PAGESIZE);
    assert b == a + Zeros(4) + z + d + z + n + [];
    SixWords(host, a, Zeros(4), z, d, z, n, []);
  }

  lemma InfoWords(host: Endian, db: Bytes, salts: Bytes)
    requires |salts| == 8
    ensures var info := Info(host, db, salts);
            info[0..4] == Enc32(host, WAL_INDEX_FORMAT_VERSION) && info[4..8] == Zeros(4) && info[8..12] == Enc32(host, 0)
            && info[12..16] == [1, 0] + Enc16(host, PAGESIZE) && info[16..20] == Enc32(host, 0)
            && info[20..24] == Enc32(host, PageCountField(db)) && info[24..32] == Zeros(8) && info[32..40] == salts
  {
    InfoPrefix(host, db, salts);
    InfoSlices(Info(host, db, salts), InfoStart(host, PageCountField(db)), Zeros(8), salts);
    InfoStartWords(host, PageCountField(db));
  }

  /** A word that was stored in the right byte order reads back. */
  lemma StoredField(e: Endian, b: Bytes, at: nat, x: u32)
    requires at + 4 <= |b| && b[at..at + 4] == Enc32(e, x)
    ensures Field(e, b, at) == x
  {
    DecEnc32(e, x);
  }

  lemma InfoPrefix(host: Endian, db: Bytes, salts: Bytes)
    requires |salts| == 8
    ensures InfoStart(host, PageCountField(db)) + Zeros(8) + salts <= Info(host, db, salts)
  {
  }

  lemma InfoSlices(info: Bytes, start: Bytes, gap: Bytes, salts: Bytes)
    requires |start| == 24 && |gap| == 8 && |salts| == 8 && start + gap + salts <= info
    ensures info[0..4] == start[0..4] && info[4..8] == start[4..8] && info[8..12] == start[8..12]
    ensures info[12..16] == start[12..16] && info[16..20] == start[16..20] && info[20..24] == start[20..24]
    ensures info[24..32] == gap && info[32..40] == salts
  {
    var b := start + gap + salts;
    assert b[24..32] == gap && b[32..40] == salts;
    PrefixSlice(b, info, 24, 32);
    PrefixSlice(b, info, 32, 40);
    assert start <= info;
    PrefixSlice(start, info, 0, 4);
    PrefixSlice(start, info, 4, 8);
    PrefixSlice(start, info, 8, 12);
    PrefixSlice(start, info, 12, 16);
    PrefixSlice(start, info, 16, 20);
    PrefixSlice(start, info, 20, 24);
  }

  lemma IndexSlices(r: Bytes, info: Bytes, tail: Bytes)
    requires |info| == 48 && |tail| == 40 && info + info + tail <= r
    ensures info <= r && r[..48] == info && r[48..96] == info && r[96..136] == tail
  {
    var b := info + info + tail;
    assert b[..48] == info && b[48..96] == info && b[96..136] == tail;
    PrefixSlice(b, r, 0, 48);
    PrefixSlice(b, r, 48, 96);
    PrefixSlice(b, r, 96, 136);
  }

  lemma RestIsKept(host: Endian, index: Bytes, wal: Bytes, db: Bytes)
    requires |index| == WAL_INDEX_INITIAL_SIZE && |wal| == WAL_HEADER_SIZE
    ensures ResetIndex(host, index, wal, db)[WAL_INDEX_HEADER_SIZE..] == index[WAL_INDEX_HEADER_SIZE..]
  {
    var info := Info(host, db, wal[16..24]);
    DropPrefix(info + info + Tail(host), index[WAL_INDEX_HEADER_SIZE..]);
  }

  /**
   From any log of at least a header, any database and any random salts, a reset leaves
   exactly an empty log and a wal-index that verify and agree, and touches nothing of the
   wal-index page past its header.
   */
  lemma ResetIsSelfConsistent(host: Endian, wal: Bytes, index: Bytes, db: Bytes, random1: u32, random2: u32)
    requires |wal| >= WAL_HEADER_SIZE && |index| == WAL_INDEX_INITIAL_SIZE
    ensures var w := ResetLog(wal, random1, random2);
            SelfConsistent(host, w, ResetIndex(host, index, w, db), db)
            && SaltsFollow(wal, w, random1, random2)
            && ResetIndex(host, index, w, db)[WAL_INDEX_HEADER_SIZE..] == index[WAL_INDEX_HEADER_SIZE..]
  {
    var w := ResetLog(wal, random1, random2);
    HeaderIsVerified(NextSalt1(wal, random1), random2);
    SaltsAfterReset(wal, random1, random2);
    ResetIndexVerifies(host, index, w, db);
    ResetIndexDescribes(host, index, w, db);
    ResetIndexHasNoReaders(host, index, w, db);
    RestIsKept(host, index, w, db);
  }

  lemma SaltsAfterReset(wal: Bytes, random1: u32, random2: u32)
    requires |wal| >= WAL_HEADER_SIZE
    ensures SaltsFollow(wal, ResetLog(wal, random1, random2), random1, random2)
  {
    HeaderFields(NextSalt1(wal, random1), random2);
    Checksum.WrappingArithmetic(Field(Big, wal, 16), 1);
  }

  lemma ResetIndexVerifies(host: Endian, index: Bytes, w: Bytes, db: Bytes)
    requires |index| == WAL_INDEX_INITIAL_SIZE && |w| == WAL_HEADER_SIZE
    ensures IndexVerifies(host, ResetIndex(host, index, w, db))
  {
    IndexSlices(ResetIndex(host, index, w, db), Info(host, db, w[16..24]), Tail(host));
    InfoIsVerified(host, db, w[16..24]);
  }

  /** A field of a header copy that begins the page. */
  lemma CopyField(host: Endian, r: Bytes, info: Bytes, at: nat)
    requires info <= r && at + 4 <= |info|
    ensures Field(host, r, at) == Field(host, info, at)
  {
    PrefixSlice(info, r, at, at + 4);
  }

  lemma InfoFields(host: Endian, db: Bytes, salts: Bytes)
    requires |salts| == 8
    ensures var info := Info(host, db, salts);
            Field(host, info, 0) == 3007000 && Field(host, info, 8) == 0 && Field(host, info, 16) == 0
            && Field(host, info, 20) == |db| / 4096 % TWO32
  {
    var info := Info(host, db, salts);
    InfoWords(host, db, salts);
    StoredField(host, info, 0, WAL_INDEX_FORMAT_VERSION);
    StoredField(host, info, 8, 0);
    StoredField(host, info, 16, 0);
    StoredField(host, info, 20, PageCountField(db));
  }

  lemma FixedBytes(host: Endian)
    ensures Zeros(4) == [0, 0, 0, 0] && Zeros(8) == [0, 0, 0, 0, 0, 0, 0, 0]
    ensures [1, 0] + Enc16(host, PAGESIZE) == if host.Big? then [1, 0, 0x10, 0] else [1, 0, 0, 0x10]
  {
  }

  lemma InfoBytes(host: Endian, db: Bytes, salts: Bytes)
    requires |salts| == 8
    ensures var info := Info(host, db, salts);
            && info[4..8] == [0, 0, 0, 0] && info[12..16] == (if host.Big? then [1, 0, 0x10, 0] else [1, 0, 0, 0x10])
            && info[24..32] == [0, 0, 0, 0, 0, 0, 0, 0] && info[32..40] == salts
  {
    FixedBytes(host);
    InfoWords(host, db, salts);
  }

  lemma CopyDescribes(host: Endian, r: Bytes, info: Bytes, wal: Bytes, db: Bytes)
    requires |r| == WAL_INDEX_INITIAL_SIZE && |info| == 48 && info <= r && |wal| == WAL_HEADER_SIZE
    requires Field(host, info, 0) == 3007000 && Field(host, info, 8) == 0 && Field(host, info, 16) == 0
    requires Field(host, info, 20) == |db| / 4096 % TWO32
    requires info[4..8] == [0, 0, 0, 0] && info[12..16] == (if host.Big? then [1, 0, 0x10, 0] else [1, 0, 0, 0x10])
    requires info[24..32] == [0, 0, 0, 0, 0, 0, 0, 0] && info[32..40] == wal[16..24]
    ensures IndexDescribes(host, r, wal, db)
  {
    CopyField(host, r, info, 0);
    CopyField(host, r, info, 8);
    CopyField(host, r, info, 16);
    CopyField(host, r, info, 20);
    PrefixSlice(info, r, 4, 8);
    PrefixSlice(info, r, 12, 16);
    PrefixSlice(info, r, 24, 32);
    PrefixSlice(info, r, 32, 40);
  }

  lemma ResetIndexDescribes(host: Endian, index: Bytes, w: Bytes, db: Bytes)
    requires |index| == WAL_INDEX_INITIAL_SIZE && |w| == WAL_HEADER_SIZE
    ensures IndexDescribes(host, ResetIndex(host, index, w, db), w, db)
  {
    var r, info := ResetIndex(host, index, w, db), Info(host, db, w[16..24]);
    IndexSlices(r, info, Tail(host));
    InfoFields(host, db, w[16..24]);
    InfoBytes(host, db, w[16..24]);
    CopyDescribes(host, r, info, w, db);
  }

  lemma TailWords(t: Bytes, z: Bytes, u: Bytes)
    requires |z| == |u| == 4 && t == z + (z + z + u + u + u) + Zeros(8) + z + Zeros(4)
    ensures t[0..4] == z && t[4..8] == z && t[8..12] == z && t[12..16] == u && t[16..20] == u && t[20..24] == u
    ensures t[24..32] == Zeros(8) && t[32..36] == z && t[36..40] == Zeros(4)
  {
    var rest := Zeros(8) + z + Zeros(4);
    assert t == z + z + z + u + u + u + rest;
    SixWords(Big, z, z, z, u, u, u, rest);
    TailEnd(t, rest, z);
  }

  lemma TailEnd(t: Bytes, rest: Bytes, z: Bytes)
    requires |t| == 40 && t[24..] == rest && |z| == 4 && rest == Zeros(8) + z + Zeros(4)
    ensures t[24..32] == Zeros(8) && t[32..36] == z && t[36..40] == Zeros(4)
  {
    assert rest[0..8] == Zeros(8) && rest[8..12] == z && rest[12..16] == Zeros(4);
    assert t[24..] == t[24..40];
    SliceOfSlice(t, 24, 40, 0, 8);
    SliceOfSlice(t, 24, 40, 8, 12);
    SliceOfSlice(t, 24, 40, 12, 16);
  }

  lemma ResetIndexHasNoReaders(host: Endian, index: Bytes, w: Bytes, db: Bytes)
    requires |index| == WAL_INDEX_INITIAL_SIZE && |w| == WAL_HEADER_SIZE
    ensures NoReaders(host, ResetIndex(host, index, w, db))
  {
    var r := ResetIndex(host, index, w, db);
    var z, u := Enc32(host, 0), Enc32(host, READMARK_NOT_USED);
    IndexSlices(r, Info(host, db, w[16..24]), Tail(host));
    TailWords(Tail(host), z, u);
    DecEnc32(host, 0);
    DecEnc32(host, READMARK_NOT_USED);
    TailFields(host, r, Tail(host), z, u);
  }

  lemma TailFields(host: Endian, r: Bytes, t: Bytes, z: Bytes, u: Bytes)
    requires |r| == WAL_INDEX_INITIAL_SIZE && |t| == 40 && r[96..136] == t
    requires |z| == |u| == 4 && Dec32(host, z) == 0 && Dec32(host, u) == 0xffff_ffff
    requires t[0..4] == z && t[4..8] == z && t[8..12] == z && t[12..16] == u && t[16..20] == u && t[20..24] == u
    requires t[24..32] == Zeros(8) && t[32..36] == z && t[36..40] == Zeros(4)
    ensures NoReaders(host, r)
  {
    FixedBytes(host);
    SliceOfSlice(r, 96, 136, 0, 4);
    SliceOfSlice(r, 96, 136, 4, 8);
    SliceOfSlice(r, 96, 136, 8, 12);
    SliceOfSlice(r, 96, 136, 12, 16);
    SliceOfSlice(r, 96, 136, 16, 20);
    SliceOfSlice(r, 96, 136, 20, 24);
    SliceOfSlice(r, 96, 136, 24, 32);
    SliceOfSlice(r, 96, 136, 32, 36);
    SliceOfSlice(r, 96, 136, 36, 40);
  }

  /** The salts of consecutive resets differ, unless the first salt wrapped round to zero. */
  lemma ConsecutiveSaltsDiffer(wal: Bytes, random1: u32, random2: u32, random1': u32, random2': u32)
    requires |wal| >= WAL_HEADER_SIZE
    ensures var w := ResetLog(wal, random1, random2);
            var w' := ResetLog(w, random1', random2');
            Field(Big, w, 16) != 0 ==> Field(Big, w', 16) != Field(Big, w, 16)
  {
    var w := ResetLog(wal, random1, random2);
    var w' := ResetLog(w, random1', random2');
    HeaderFields(NextSalt1(wal, random1), random2);
    HeaderFields(NextSalt1(w, random1'), random2');
  }
}
