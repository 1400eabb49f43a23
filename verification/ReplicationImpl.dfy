/**
 The server and the client as the objects of the source, with their fields and loops,
 proved against the functions of the protocol. Each call here runs without interference;
 EndTxIsSteps shows that a whole unlock is then a run of the protocol's single steps.
 */
module ReplicationImpl {
  import opened Bytes
  import opened PageStore
  import opened WalFormat
  import opened WalReset
  import Checksum
  import R = Replication

  // ---------------------------------------------------------------- a whole unlock

  /** Offers transactions one after another at the same version until one is refused. */
  function Offers(s: R.Server, v: nat, txs: seq<Transaction>): (r: (R.Server, bool))
    decreases |txs|
  {
    if txs == [] then (s, true)
    else
      var (s', result) := R.CommitChange(s, v, txs[0]);
      if result.Refused? then (s', false) else Offers(s', v, txs[1..])
  }

  /** The last unlock of a session, with nobody else at the server meanwhile. */
  function EndTx(s: R.Server, c: R.Client, r: R.Salts): (res: (R.Server, R.Client, bool))
    requires R.CanEnd(c)
  {
    if R.Locked(c) || !c.hadWrite then (s, c, true)
    else
      var (s', ok) := Offers(s, c.serverVersion, Transactions(c.wal));
      (s', if ok then R.FinishEnd(c, r) else c, ok)
  }

  lemma OffersStopAfterOne(db0: Bytes, s: R.Server, v: nat, txs: seq<Transaction>)
    requires R.ServerInv(db0, s) && v <= |s.changes|
    ensures var (s', ok) := Offers(s, v, txs);
            && ok == (txs == [] || (|txs| == 1 && v == |s.changes|))
            && s'.changes == s.changes + (if txs != [] && v == |s.changes| then [R.Change(txs[0], v + 1)] else [])
            && R.ServerInv(db0, s')
  {
    if txs != [] {
      R.AcceptedCommit(db0, s, v, txs[0]);
      var s' := R.CommitChange(s, v, txs[0]).0;
      if |txs| > 1 && v == |s.changes| {
        R.AcceptedCommit(db0, s', v, txs[1..][0]);
      }
    }
  }

  /**
   One full unlock appends at most one entry: exactly the first transaction of the log, and
   only if the client was up to date. It succeeds just when there was nothing to offer or
   that single transaction was accepted.
   */
  lemma UnlockAppendsAtMostOne(db0: Bytes, s: R.Server, c: R.Client, r: R.Salts)
    requires R.ServerInv(db0, s) && R.ClientInv(db0, s, c) && R.CanEnd(c) && !R.Locked(c) && c.hadWrite
    ensures var (s', c', ok) := EndTx(s, c, r);
            var txs := Transactions(c.wal);
            var current := c.serverVersion == |s.changes|;
            && s'.changes == s.changes + (if txs != [] && current then [R.Change(txs[0], |s.changes| + 1)] else [])
            && ok == (txs == [] || (|txs| == 1 && current))
            && (ok ==> |c'.wal| == WAL_HEADER_SIZE && !c'.hadWrite)
            && (!ok ==> c' == c && c.serverVersion < |s'.changes|)
  {
    OffersStopAfterOne(db0, s, c.serverVersion, Transactions(c.wal));
  }

  /** Takes the client's own steps until its unlock has returned. */
  ghost function Settle(s: R.System, i: R.Id, r: R.Salts): (s': R.System)
    requires i in s.clients
    decreases if s.clients[i].phase.Offering? then |s.clients[i].phase.rest| + 1 else 0
  {
    var c := s.clients[i];
    if c.phase.Ready? then s
    else if c.phase.rest == [] then R.Next(s, R.Finish(i, r))
    else Settle(R.Next(s, R.Offer(i)), i, r)
  }

  /** The same steps, seen on the server and that client alone. */
  function SettlePair(server: R.Server, c: R.Client, r: R.Salts): (p: (R.Server, R.Client))
    decreases if c.phase.Offering? then |c.phase.rest| + 1 else 0
  {
    if c.phase.Ready? then (server, c)
    else if c.phase.rest == [] then (server, R.FinishEnd(c, r))
    else
      var (server', c') := R.OfferNext(server, c);
      SettlePair(server', c', r)
  }

  lemma OverwriteTwice<K, V>(m: map<K, V>, k: K, a: V, b: V)
    ensures m[k := a][k := b] == m[k := b]
  {
  }

  lemma {:induction false} SettleIsPair(s: R.System, i: R.Id, r: R.Salts)
    requires i in s.clients
    ensures var (server, c) := SettlePair(s.server, s.clients[i], r);
            Settle(s, i, r) == R.System(server, s.clients[i := c])
    decreases if s.clients[i].phase.Offering? then |s.clients[i].phase.rest| + 1 else 0
  {
    var c := s.clients[i];
    if c.phase.Ready? {
      assert s.clients[i := c] == s.clients;
    } else if c.phase.rest != [] {
      var s1 := R.Next(s, R.Offer(i));
      SettleIsPair(s1, i, r);
      var d := SettlePair(s1.server, s1.clients[i], r).1;
      OverwriteTwice(s.clients, i, s1.clients[i], d);
    }
  }

  /** Where an unlock ends does not depend on how many offers it had left. */
  lemma FinishIgnoresPhase(c: R.Client, p: R.Phase, r: R.Salts)
    ensures R.FinishEnd(c.(phase := p), r) == R.FinishEnd(c, r)
  {
  }

  lemma {:induction false} PairIsOffers(s: R.Server, c: R.Client, r: R.Salts)
    requires c.phase.Offering?
    ensures var (s', ok) := Offers(s, c.serverVersion, c.phase.rest);
            SettlePair(s, c, r) == (s', if ok then R.FinishEnd(c, r) else c.(phase := R.Ready))
    decreases |c.phase.rest|
  {
    if c.phase.rest != [] {
      var (s', c') := R.OfferNext(s, c);
      if c'.phase.Offering? {
        PairIsOffers(s', c', r);
        FinishIgnoresPhase(c, c'.phase, r);
      }
    }
  }

  /** A client that has just given up a lock, and the steps that follow. */
  lemma SettleAfterRelease(s: R.System, i: R.Id, c: R.Client, r: R.Salts)
    requires c.phase.Ready? && R.CanEnd(c)
    ensures var (server, c', ok) := EndTx(s.server, c, r);
            Settle(R.System(s.server, s.clients[i := R.BeginEnd(c)]), i, r) == R.System(server, s.clients[i := c'])
  {
    var s1 := R.System(s.server, s.clients[i := R.BeginEnd(c)]);
    SettleIsPair(s1, i, r);
    var (server, c', ok) := EndTx(s.server, c, r);
    OverwriteTwice(s.clients, i, R.BeginEnd(c), c');
    if !R.Locked(c) && c.hadWrite {
      PairIsOffers(s.server, s1.clients[i], r);
      FinishIgnoresPhase(c, s1.clients[i].phase, r);
    }
  }

  /** The client with one lock less. */
  function Release(c: R.Client, write: bool): (c': R.Client)
    requires (if write then c.writeLocks else c.readLocks) > 0
  {
    if write then c.(writeLocks := c.writeLocks - 1) else c.(readLocks := c.readLocks - 1)
  }

  function UnlockAction(i: R.Id, write: bool): R.Action {
    if write then R.UnlockWrite(i) else R.UnlockRead(i)
  }

  /** A whole unlock is the protocol's unlock step followed by its offers and its finish. */
  lemma EndTxIsSteps(s: R.System, i: R.Id, write: bool, r: R.Salts)
    requires R.Enabled(s, UnlockAction(i, write))
    ensures var (server, c', ok) := EndTx(s.server, Release(s.clients[i], write), r);
            Settle(R.Next(s, UnlockAction(i, write)), i, r) == R.System(server, s.clients[i := c'])
  {
    var c := Release(s.clients[i], write);
    assert R.Next(s, UnlockAction(i, write)) == R.System(s.server, s.clients[i := R.BeginEnd(c)]);
    SettleAfterRelease(s, i, c, r);
  }

  /** The client with one lock more, after a pull if it is the first. */
  function Taken(s: R.Server, c: R.Client, write: bool, r: R.Salts): (c': R.Client) {
    var b := R.MaybeBeginTx(s, c, r);
    if write then b.(writeLocks := b.writeLocks + 1, hadWrite := true) else b.(readLocks := b.readLocks + 1)
  }

  function LockAction(i: R.Id, write: bool, r: R.Salts): R.Action {
    if write then R.LockWrite(i, r) else R.LockRead(i, r)
  }

  /** A lock call is the protocol's lock step. */
  lemma LockIsStep(s: R.System, i: R.Id, write: bool, r: R.Salts)
    requires i in s.clients && s.clients[i].phase.Ready?
    ensures R.Enabled(s, LockAction(i, write, r))
    ensures R.Next(s, LockAction(i, write, r)) == R.System(s.server, s.clients[i := Taken(s.server, s.clients[i], write, r)])
  {
  }

  // ---------------------------------------------------------------- the server object

  class DbServerData {
    var latestSnapshot: Bytes
    var latestSnapshotVersion: nat
    var changes: seq<R.Change>

    ghost function View(): (s: R.Server)
      reads this
    {
      R.Server(latestSnapshot, latestSnapshotVersion, changes)
    }

    constructor (initialDb: Bytes)
      ensures View() == R.Server(initialDb, 0, [])
    {
      latestSnapshot, latestSnapshotVersion, changes := initialDb, 0, [];
    }

    method GetLatestSnapshot() returns (db: Bytes, version: nat)
      ensures db == View().snapshot && version == View().version
    {
      db, version := latestSnapshot, latestSnapshotVersion;
    }

    method GetChangesAfter(version: nat) returns (r: seq<R.Change>)
      ensures r == R.ChangesAfter(View().changes, version)
    {
      r := [];
      for k := 0 to |changes|
        invariant r == R.ChangesAfter(changes[..k], version)
      {
        assert changes[..k + 1][..k] == changes[..k];
        if changes[k].version > version {
          r := r + [changes[k]];
        }
      }
      assert changes[..|changes|] == changes;
    }

    method CommitChange(version: nat, tx: Transaction) returns (result: R.CommitResult)
      modifies this
      ensures (View(), result) == R.CommitChange(old(View()), version, tx)
    {
      if latestSnapshotVersion != version {
        return R.Refused;
      }
      latestSnapshot := ApplyTxLoop(latestSnapshot, tx);
      var newVersion := version + 1;
      latestSnapshotVersion := newVersion;
      changes := changes + [R.Change(tx, newVersion)];
      result := R.Accepted(newVersion);
    }
  }

  // ---------------------------------------------------------------- the client object

  datatype ShmLockIndex = WriteLock | CheckpointLock | RecoverLock | ReadLock(n: nat)
  datatype ShmLockMode = Shared | Exclusive
  datatype ShmLockOp = Lock | Unlock
  datatype Outcome = Ok | Busy | Bad

  /** The lock calls that do something: the write lock exclusively and the read locks shared. */
  predicate Effective(index: ShmLockIndex, mode: ShmLockMode) {
    (index.WriteLock? && mode == Exclusive) || (index.ReadLock? && mode == Shared)
  }

  class DbClient {
    const server: DbServerData
    const host: Endian
    var serverVersion: nat
    var dbData: Bytes
    var walData: Bytes
    const walIndex: array<byte>
    var writeLocks: nat
    var readLocks: nat
    var hadWrite: bool

    ghost predicate Valid()
      reads this, walIndex
    {
      |walData| >= WAL_HEADER_SIZE && walIndex.Length == WAL_INDEX_INITIAL_SIZE
    }

    ghost function View(): (c: R.Client)
      requires Valid()
      reads this, walIndex
    {
      R.ClientData(host, serverVersion, dbData, walData, walIndex[..], writeLocks, readLocks, hadWrite, R.Ready)
    }

    constructor (server: DbServerData, host: Endian, salts: R.Salts)
      ensures Valid() && this.server == server && this.host == host && fresh(walIndex)
      ensures View() == R.NewClient(server.View(), host, salts)
    {
      this.server, this.host := server, host;
      var db, version := server.GetLatestSnapshot();
      serverVersion, dbData := version, db;
      walData := Zeros(WAL_HEADER_SIZE);
      walIndex := new byte[WAL_INDEX_INITIAL_SIZE](i => 0);
      writeLocks, readLocks, hadWrite := 0, 0, false;
      new;
      assert walIndex[..] == Zeros(WAL_INDEX_INITIAL_SIZE);
      ResetWal(salts);
    }

    /** Writes both header copies of the wal-index page. */
    method SetIndex(info: Bytes)
      requires Valid() && |info| == WAL_INDEX_INFO_SIZE
      modifies walIndex
      ensures Valid()
      ensures walIndex[..] == info + info + old(walIndex[..])[2 * WAL_INDEX_INFO_SIZE..]
    {
      forall k | 0 <= k < 2 * WAL_INDEX_INFO_SIZE {
        walIndex[k] := info[if k < WAL_INDEX_INFO_SIZE then k else k - WAL_INDEX_INFO_SIZE];
      }
    }

    /** Writes the part of the wal-index header after the two copies. */
    method SetTail(tail: Bytes)
      requires Valid() && |tail| == WAL_INDEX_HEADER_SIZE - 2 * WAL_INDEX_INFO_SIZE
      modifies walIndex
      ensures Valid()
      ensures walIndex[..] == old(walIndex[..])[..2 * WAL_INDEX_INFO_SIZE] + tail
                              + old(walIndex[..])[WAL_INDEX_HEADER_SIZE..]
    {
      forall k | 2 * WAL_INDEX_INFO_SIZE <= k < WAL_INDEX_HEADER_SIZE {
        walIndex[k] := tail[k - 2 * WAL_INDEX_INFO_SIZE];
      }
    }

    /** The whole wal-index header, in the two writes of the source. */
    method WriteIndexHeader(info: Bytes, tail: Bytes)
      requires Valid() && |info| == WAL_INDEX_INFO_SIZE
      requires |tail| == WAL_INDEX_HEADER_SIZE - 2 * WAL_INDEX_INFO_SIZE
      modifies walIndex
      ensures Valid()
      ensures walIndex[..] == info + info + tail + old(walIndex[..])[WAL_INDEX_HEADER_SIZE..]
    {
      ResetIndexIsTwoWrites(walIndex[..], info, tail);
      SetIndex(info);
      SetTail(tail);
    }

    /** The first salt of the next header, from the header in the log. */
    method DrawSalt1(random1: u32) returns (salt1: u32)
      requires Valid()
      ensures salt1 == NextSalt1(walData, random1)
    {
      salt1 := Dec32(Big, walData[16..20]);
      if salt1 == 0 {
        salt1 := random1;
      } else {
        salt1 := Checksum.Add(salt1, 1);
      }
    }

    /** Truncates the log and writes a fresh header over the old one. */
    method ResetHeader(salts: R.Salts)
      requires Valid()
      modifies this`walData
      ensures walData == ResetLog(old(walData), salts.random1, salts.random2)
    {
      TruncationKeepsSalt(walData, salts.random1);
      walData := walData[..WAL_HEADER_SIZE];
      var salt1 := DrawSalt1(salts.random1);
      walData := MakeHeader(salt1, salts.random2);
    }

    method ResetWal(salts: R.Salts)
      requires Valid()
      modifies this, walIndex
      ensures Valid() && View() == R.ResetWal(old(View()), salts)
    {
      ResetHeader(salts);
      var info := MakeInfo(host, dbData, walData[16..24]);
      WriteIndexHeader(info, Tail(host));
    }

    method PullChanges(salts: R.Salts)
      requires Valid()
      modifies this, walIndex
      ensures Valid() && View() == R.PullChanges(server.View(), old(View()), salts)
    {
      var changes := server.GetChangesAfter(serverVersion);
      ghost var c := View();
      for k := 0 to |changes|
        invariant Valid() && View() == R.ApplyChanges(c, changes[..k])
      {
        dbData := ApplyTxLoop(dbData, changes[k].tx);
        serverVersion := changes[k].version;
        assert changes[..k + 1][..k] == changes[..k];
      }
      assert changes[..|changes|] == changes;
      if |changes| > 0 {
        ResetWal(salts);
      }
    }

    method MaybeBeginTx(salts: R.Salts)
      requires Valid()
      modifies this, walIndex
      ensures Valid() && View() == R.MaybeBeginTx(server.View(), old(View()), salts)
    {
      if writeLocks + readLocks != 0 {
        return;
      }
      PullChanges(salts);
    }

    /** The scan: `idx` moves frame by frame, `start` stays at the frame after the last commit. */
    method OfferTransactions() returns (ok: bool)
      requires Valid() && WellFormed(walData)
      modifies server
      ensures Valid() && (server.View(), ok) == Offers(old(server.View()), serverVersion, Transactions(walData))
    {
      var wal := walData;
      var n := |wal|;
      var start: nat, idx: nat := WAL_HEADER_SIZE, WAL_HEADER_SIZE;
      ScanBegins(wal);
      ghost var goal := Offers(server.View(), serverVersion, ToOffer(wal, start, idx));
      while idx < n
        invariant AtFrame(wal, start, idx)
        invariant Offers(server.View(), serverVersion, ToOffer(wal, start, idx)) == goal
      {
        OneTurn(server.View(), serverVersion, wal, start, idx);
        var size := ReadCommitSize(wal, idx, n);
        var end := idx + FRAME_SIZE;
        if size != 0 {
          var writes := ExtractWritesFromWal(wal, start, end);
          start := end;
          var result := server.CommitChange(serverVersion, Transaction(writes, size));
          if result.Refused? {
            return false;
          }
        }
        idx := end;
      }
      ScanEnds(wal, start);
      ok := true;
    }

    method MaybeEndTx(salts: R.Salts) returns (ok: bool)
      requires Valid() && R.CanEnd(View())
      modifies this, walIndex, server
      ensures Valid() && (server.View(), View(), ok) == EndTx(old(server.View()), old(View()), salts)
    {
      if writeLocks + readLocks != 0 {
        return true;
      }
      if hadWrite {
        ok := OfferTransactions();
        if !ok {
          return false;
        }
        ResetWal(salts);
      }
      hadWrite := false;
      ok := true;
    }

    method TakeLock(write: bool, salts: R.Salts)
      requires Valid()
      modifies this, walIndex
      ensures Valid()
      ensures View() == Taken(server.View(), old(View()), write, salts)
    {
      MaybeBeginTx(salts);
      if write {
        writeLocks := writeLocks + 1;
        hadWrite := true;
      } else {
        readLocks := readLocks + 1;
      }
    }

    ghost function Released(write: bool): (c: R.Client)
      requires Valid() && (if write then writeLocks else readLocks) > 0
      reads this, walIndex
    {
      Release(View(), write)
    }

    method ReleaseLock(write: bool, salts: R.Salts) returns (ok: bool)
      requires Valid() && (if write then writeLocks else readLocks) > 0 && R.CanEnd(Released(write))
      modifies this, walIndex, server
      ensures Valid() && (server.View(), View(), ok) == EndTx(old(server.View()), old(Released(write)), salts)
    {
      ghost var released := Released(write);
      if write {
        writeLocks := writeLocks - 1;
      } else {
        readLocks := readLocks - 1;
      }
      assert View() == released;
      ok := MaybeEndTx(salts);
    }

    /**
     A lock call. Unlocks must match locks, and the last unlock needs a log that can be
     scanned. A refused commit surfaces as an error of the unlock.
     */
    method ShmLock(index: ShmLockIndex, mode: ShmLockMode, op: ShmLockOp, salts: R.Salts)
        returns (outcome: Outcome)
      requires Valid()
      requires Effective(index, mode) && op == Unlock ==>
                 (if index.WriteLock? then writeLocks else readLocks) > 0 && R.CanEnd(Released(index.WriteLock?))
      modifies this, walIndex, server
      ensures Valid()
      ensures index.CheckpointLock? || index.RecoverLock? ==> outcome == Busy
      ensures index.WriteLock? && mode == Shared ==> outcome == if op == Lock then Busy else Bad
      ensures index.ReadLock? && mode == Exclusive ==> outcome == if op == Lock then Busy else Bad
      ensures !Effective(index, mode) ==> View() == old(View()) && server.View() == old(server.View())
      ensures Effective(index, mode) && op == Lock ==>
                outcome == Ok && server.View() == old(server.View())
                && View() == Taken(server.View(), old(View()), index.WriteLock?, salts)
      ensures Effective(index, mode) && op == Unlock ==>
                (server.View(), View(), outcome == Ok)
                == EndTx(old(server.View()), old(Released(index.WriteLock?)), salts)
    {
      match index {
        case WriteLock =>
          if mode == Shared {
            return if op == Lock then Busy else Bad;
          }
        case ReadLock(_) =>
          if mode == Exclusive {
            return if op == Lock then Busy else Bad;
          }
        case RecoverLock => return Busy;
        case CheckpointLock => return Busy;
      }
      outcome := Ok;
      if op == Lock {
        TakeLock(index.WriteLock?, salts);
      } else {
        var ok := ReleaseLock(index.WriteLock?, salts);
        outcome := if ok then Ok else Bad;
      }
    }

    method WriteWal(offset: nat, data: Bytes)
      requires Valid()
      modifies this`walData
      ensures Valid() && walData == WalWrite(old(walData), offset, data)
    {
      if offset + |data| > |walData| {
        walData := walData + Zeros(offset + |data| - |walData|);
      }
      walData := walData[..offset] + data + walData[offset + |data|..];
    }
  }

  lemma TruncationKeepsSalt(wal: Bytes, random1: u32)
    requires |wal| >= WAL_HEADER_SIZE
    ensures NextSalt1(wal[..WAL_HEADER_SIZE], random1) == NextSalt1(wal, random1)
  {
    SliceOfSlice(wal, 0, WAL_HEADER_SIZE, 16, 20);
    assert wal[..WAL_HEADER_SIZE] == wal[0..WAL_HEADER_SIZE];
  }

  lemma ResetIndexIsTwoWrites(before: Bytes, info: Bytes, tail: Bytes)
    requires |before| == WAL_INDEX_INITIAL_SIZE && |info| == WAL_INDEX_INFO_SIZE
    requires |tail| == WAL_INDEX_HEADER_SIZE - 2 * WAL_INDEX_INFO_SIZE
    ensures var once := info + info + before[2 * WAL_INDEX_INFO_SIZE..];
            once[..2 * WAL_INDEX_INFO_SIZE] + tail + once[WAL_INDEX_HEADER_SIZE..]
            == info + info + tail + before[WAL_INDEX_HEADER_SIZE..]
  {
    var once := info + info + before[2 * WAL_INDEX_INFO_SIZE..];
    assert once[..2 * WAL_INDEX_INFO_SIZE] == info + info;
    assert once[WAL_INDEX_HEADER_SIZE..] == before[WAL_INDEX_HEADER_SIZE..];
  }

  /** The scan stands at the beginning of a frame, `start` after the last commit. */
  predicate AtFrame(wal: Bytes, start: nat, idx: nat) {
    start <= idx <= |wal| && GoodFrames(wal[start..idx]) && GoodFrames(wal[idx..|wal|])
  }

  /** The transactions that the scan has still to find. */
  function ToOffer(wal: Bytes, start: nat, idx: nat): (txs: seq<Transaction>)
    requires AtFrame(wal, start, idx)
  {
    Scan(Frames(wal[start..idx]), Frames(wal[idx..|wal|]))
  }

  lemma ScanBegins(wal: Bytes)
    requires WellFormed(wal)
    ensures AtFrame(wal, WAL_HEADER_SIZE, WAL_HEADER_SIZE)
    ensures ToOffer(wal, WAL_HEADER_SIZE, WAL_HEADER_SIZE) == Transactions(wal)
  {
    assert wal[WAL_HEADER_SIZE..|wal|] == wal[WAL_HEADER_SIZE..];
    assert wal[WAL_HEADER_SIZE..WAL_HEADER_SIZE] == [];
  }

  lemma ScanEnds(wal: Bytes, start: nat)
    requires AtFrame(wal, start, |wal|)
    ensures ToOffer(wal, start, |wal|) == []
  {
    assert wal[|wal|..|wal|] == [];
  }

  /** One turn of the loop, with what is left to offer before and after it. */
  lemma OneTurn(s: R.Server, v: nat, wal: Bytes, start: nat, idx: nat)
    requires AtFrame(wal, start, idx) && idx < |wal|
    ensures var end := idx + FRAME_SIZE;
            && AtFrame(wal, start, end) && AtFrame(wal, end, end)
            && var size := CommitSize(wal[idx..|wal|]);
               var (s', result) := R.CommitChange(s, v, Transaction(FrameWrites(Frames(wal[start..end])), size));
               Offers(s, v, ToOffer(wal, start, idx))
               == if size == 0 then Offers(s, v, ToOffer(wal, start, end))
                  else if result.Refused? then (s', false)
                  else Offers(s', v, ToOffer(wal, end, end))
  {
    ScanStep(wal, start, idx);
    var end, size := idx + FRAME_SIZE, CommitSize(wal[idx..|wal|]);
    OffersOfOneMore(s, v, Transaction(FrameWrites(Frames(wal[start..end])), size), ToOffer(wal, end, end));
  }

  lemma OffersOfOneMore(s: R.Server, v: nat, tx: Transaction, rest: seq<Transaction>)
    ensures var (s', result) := R.CommitChange(s, v, tx);
            Offers(s, v, [tx] + rest) == if result.Refused? then (s', false) else Offers(s', v, rest)
  {
    assert ([tx] + rest)[1..] == rest;
  }

  /** One turn of the scan. */
  lemma ScanStep(wal: Bytes, start: nat, idx: nat)
    requires AtFrame(wal, start, idx) && idx < |wal|
    ensures var end := idx + FRAME_SIZE;
            && AtFrame(wal, start, end) && AtFrame(wal, end, end)
            && var size := CommitSize(wal[idx..|wal|]);
               ToOffer(wal, start, idx)
               == if size != 0 then [Transaction(FrameWrites(Frames(wal[start..end])), size)] + ToOffer(wal, end, end)
                  else ToOffer(wal, start, end)
  {
    var n, end := |wal|, idx + FRAME_SIZE;
    FrameAt(wal, idx, n);
    OneFrame(wal, idx, n);
    FramesConcat(wal[start..idx], wal[idx..end]);
    assert wal[start..idx] + wal[idx..end] == wal[start..end];
    assert wal[end..end] == [];
  }

  /** The bytes of a frame on their own hold just that frame. */
  lemma OneFrame(wal: Bytes, idx: nat, n: nat)
    requires idx < n <= |wal| && GoodFrames(wal[idx..n])
    ensures idx + FRAME_SIZE <= n && GoodFrames(wal[idx..idx + FRAME_SIZE])
    ensures Frames(wal[idx..idx + FRAME_SIZE]) == [FirstFrame(wal[idx..n])]
  {
    var f := FirstFrame(wal[idx..n]);
    FrameEncodesBack(wal[idx..n]);
    SliceOfSlice(wal, idx, n, 0, FRAME_SIZE);
    FramesDecodeBack([f]);
    assert EncodeFrames([f]) == EncodeFrame(f);
  }
}
