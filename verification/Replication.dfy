/**
 The replication protocol: one server with an append-only log of page transactions and
 any number of clients, each with its own copy of the database and its own write-ahead
 log. One step is one call that the server or a client completes under its mutex; the
 unlock that offers several transactions takes one step for each offer, because other
 clients can reach the server in between.
 */
module Replication {
  import opened Bytes
  import opened PageStore
  import opened WalFormat
  import opened WalReset

  // ---------------------------------------------------------------- server

  datatype Change = Change(tx: Transaction, version: nat)

  datatype Server = Server(snapshot: Bytes, version: nat, changes: seq<Change>)

  datatype CommitResult = Accepted(version: nat) | Refused

  /** The changes with a version above v, in log order. */
  function ChangesAfter(changes: seq<Change>, v: nat): (r: seq<Change>) {
    if changes == [] then []
    else
      var front, last := changes[..|changes| - 1], changes[|changes| - 1];
      if last.version > v then ChangesAfter(front, v) + [last] else ChangesAfter(front, v)
  }

  /** The optimistic check: a change is accepted only on top of the version it was built on. */
  function CommitChange(s: Server, v: nat, tx: Transaction): (r: (Server, CommitResult)) {
    if s.version != v then (s, Refused)
    else (Server(ApplyTx(s.snapshot, tx), v + 1, s.changes + [Change(tx, v + 1)]), Accepted(v + 1))
  }

  /** The database after replaying changes in order. */
  function Replay(db: Bytes, changes: seq<Change>): (r: Bytes) {
    if changes == [] then db
    else ApplyTx(Replay(db, changes[..|changes| - 1]), changes[|changes| - 1].tx)
  }

  // ---------------------------------------------------------------- client

  /** `Offering` is the inside of the last unlock: the transactions not yet offered. */
  datatype Phase = Ready | Offering(rest: seq<Transaction>)

  datatype ClientData = ClientData(
    host: Endian,
    serverVersion: nat,
    db: Bytes,
    wal: Bytes,
    index: Bytes,
    writeLocks: nat,
    readLocks: nat,
    hadWrite: bool,
    phase: Phase)

  /** The log never gets shorter than its header, and the wal-index page has a fixed size. */
  type Client = c: ClientData | |c.wal| >= WAL_HEADER_SIZE && |c.index| == WAL_INDEX_INITIAL_SIZE
    witness ClientData(Little, 0, [], Zeros(WAL_HEADER_SIZE), Zeros(WAL_INDEX_INITIAL_SIZE), 0, 0, false, Ready)

  /** The two random salts that a reset may draw. */
  datatype Salts = Salts(random1: u32, random2: u32)

  predicate Locked(c: Client) {
    c.writeLocks + c.readLocks != 0
  }

  /** From its first lock until its last unlock has returned. */
  predicate Engaged(c: Client) {
    Locked(c) || c.phase.Offering?
  }

  function ResetWal(c: Client, r: Salts): (c': Client)
    ensures |c'.wal| == WAL_HEADER_SIZE && c' == c.(wal := c'.wal, index := c'.index)
  {
    var w := ResetLog(c.wal, r.random1, r.random2);
    c.(wal := w, index := ResetIndex(c.host, c.index, w, c.db))
  }

  function ApplyChanges(c: Client, changes: seq<Change>): (c': Client) {
    c.(db := Replay(c.db, changes),
       serverVersion := if changes == [] then c.serverVersion else changes[|changes| - 1].version)
  }

  function PullChanges(s: Server, c: Client, r: Salts): (c': Client) {
    var changes := ChangesAfter(s.changes, c.serverVersion);
    var pulled := ApplyChanges(c, changes);
    if |changes| > 0 then ResetWal(pulled, r) else pulled
  }

  function MaybeBeginTx(s: Server, c: Client, r: Salts): (c': Client) {
    if Locked(c) then c else PullChanges(s, c, r)
  }

  function NewClient(s: Server, host: Endian, r: Salts): (c: Client) {
    var c: Client := ClientData(host, s.version, s.snapshot, Zeros(WAL_HEADER_SIZE),
                                Zeros(WAL_INDEX_INITIAL_SIZE), 0, 0, false, Ready);
    ResetWal(c, r)
  }

  /** The last unlock may only happen on a log that can be scanned. */
  predicate CanEnd(c: Client) {
    !Locked(c) && c.hadWrite ==> WellFormed(c.wal)
  }

  /** The start of the last unlock: with a write lock taken, the transactions of the log are to be offered. */
  function BeginEnd(c: Client): (c': Client)
    requires CanEnd(c)
  {
    if !Locked(c) && c.hadWrite then c.(phase := Offering(Transactions(c.wal))) else c
  }

  /** One offer; a refusal ends the unlock at once, leaving log and write mark as they are. */
  function OfferNext(s: Server, c: Client): (r: (Server, Client))
    requires c.phase.Offering? && c.phase.rest != []
  {
    var (s', result) := CommitChange(s, c.serverVersion, c.phase.rest[0]);
    if result.Accepted? then (s', c.(phase := Offering(c.phase.rest[1..])))
    else (s', c.(phase := Ready))
  }

  /** The end of an unlock whose offers were all accepted. */
  function FinishEnd(c: Client, r: Salts): (c': Client) {
    ResetWal(c, r).(hadWrite := false, phase := Ready)
  }

  // ---------------------------------------------------------------- the system

  type Id = nat

  datatype System = System(server: Server, clients: map<Id, Client>)

  datatype Action =
    | Open(c: Id, host: Endian, salts: Salts)
    | Close(c: Id)
    | LockRead(c: Id, salts: Salts)
    | LockWrite(c: Id, salts: Salts)
    | WriteLog(c: Id, offset: nat, data: Bytes)
    | TruncateLog(c: Id, size: nat)
    | UnlockRead(c: Id)
    | UnlockWrite(c: Id)
    | Offer(c: Id)
    | Finish(c: Id, salts: Salts)

  function Init(db0: Bytes): System {
    System(Server(db0, 0, []), map[])
  }

  /** What SQLite guarantees about when it makes each call; offers and finishes are the client's own. */
  predicate Enabled(s: System, a: Action) {
    if a.Open? then a.c !in s.clients
    else
      && a.c in s.clients
      && var c := s.clients[a.c];
         match a
         case Close(_) => true
         case Offer(_) => c.phase.Offering? && c.phase.rest != []
         case Finish(_, _) => c.phase.Offering? && c.phase.rest == []
         case WriteLog(_, _, _) => c.phase.Ready? && c.writeLocks > 0
         case TruncateLog(_, size) => c.phase.Ready? && c.writeLocks > 0 && size >= WAL_HEADER_SIZE
         case UnlockRead(_) => c.phase.Ready? && c.readLocks > 0 && CanEnd(c.(readLocks := c.readLocks - 1))
         case UnlockWrite(_) => c.phase.Ready? && c.writeLocks > 0 && CanEnd(c.(writeLocks := c.writeLocks - 1))
         case _ => c.phase.Ready?
  }

  /** The client that an action leaves behind, for the actions that do not change the server. */
  function ClientAfter(s: System, a: Action): (c': Client)
    requires Enabled(s, a) && !a.Close? && !a.Offer?
  {
    match a
    case Open(_, host, salts) => NewClient(s.server, host, salts)
    case LockRead(i, salts) =>
      var c := MaybeBeginTx(s.server, s.clients[i], salts);
      c.(readLocks := c.readLocks + 1)
    case LockWrite(i, salts) =>
      var c := MaybeBeginTx(s.server, s.clients[i], salts);
      c.(writeLocks := c.writeLocks + 1, hadWrite := true)
    case WriteLog(i, offset, data) =>
      WalWriteBytes(s.clients[i].wal, offset, data);
      s.clients[i].(wal := WalWrite(s.clients[i].wal, offset, data))
    case TruncateLog(i, size) => s.clients[i].(wal := Truncate(s.clients[i].wal, size))
    case UnlockRead(i) => BeginEnd(s.clients[i].(readLocks := s.clients[i].readLocks - 1))
    case UnlockWrite(i) => BeginEnd(s.clients[i].(writeLocks := s.clients[i].writeLocks - 1))
    case Finish(i, salts) => FinishEnd(s.clients[i], salts)
  }

  function Next(s: System, a: Action): (s': System)
    requires Enabled(s, a)
  {
    if a.Close? then System(s.server, s.clients - {a.c})
    else if a.Offer? then
      var (server, c) := OfferNext(s.server, s.clients[a.c]);
      System(server, s.clients[a.c := c])
    else System(s.server, s.clients[a.c := ClientAfter(s, a)])
  }

  // ---------------------------------------------------------------- the invariant

  /** The log is numbered from 1 and the snapshot is its replay. */
  ghost predicate ServerInv(db0: Bytes, s: Server) {
    && s.version == |s.changes|
    && (forall i :: 0 <= i < |s.changes| ==> s.changes[i].version == i + 1)
    && s.snapshot == Replay(db0, s.changes)
  }

  ghost predicate ClientInv(db0: Bytes, s: Server, c: Client) {
    // a replica of exactly the prefix it knows
    && c.serverVersion <= |s.changes|
    && c.db == Replay(db0, s.changes[..c.serverVersion])
    // frames in the log without a lock are frames of a refused commit, and then the server is ahead
    && (!Engaged(c) ==> |c.wal| == WAL_HEADER_SIZE || c.serverVersion < |s.changes|)
    // only a session that took the write lock has frames
    && (c.writeLocks > 0 ==> c.hadWrite)
    && (Locked(c) && !c.hadWrite ==> |c.wal| == WAL_HEADER_SIZE)
    // inside the last unlock: the rest of the transactions of the log, at most one accepted so far
    && (c.phase.Offering? ==> !Locked(c) && c.hadWrite && OffersInv(s, c))
  }

  ghost predicate OffersInv(s: Server, c: Client)
    requires c.phase.Offering?
  {
    && WellFormed(c.wal)
    && var txs, rest := Transactions(c.wal), c.phase.rest;
       |rest| <= |txs| <= |rest| + 1 && rest == txs[|txs| - |rest|..]
       && (|rest| < |txs| ==> c.serverVersion < |s.changes|)
  }

  ghost predicate Inv(db0: Bytes, s: System) {
    && ServerInv(db0, s.server)
    && forall i :: i in s.clients ==> ClientInv(db0, s.server, s.clients[i])
  }

  lemma InitInv(db0: Bytes)
    ensures Inv(db0, Init(db0))
  {
  }

  // ---------------------------------------------------------------- preservation

  lemma {:induction false} ReplayConcat(db: Bytes, a: seq<Change>, b: seq<Change>)
    ensures Replay(Replay(db, a), b) == Replay(db, a + b)
    decreases |b|
  {
    if b == [] {
      assert a + b == a;
    } else {
      ReplayConcat(db, a, b[..|b| - 1]);
      assert (a + b)[..|a + b| - 1] == a + b[..|b| - 1];
    }
  }

  /** A sequence cut in two, and its suffix cut before the last element. */
  lemma SuffixParts<T>(s: seq<T>, v: nat)
    requires v <= |s|
    ensures s[..v] + s[v..] == s
    ensures v < |s| ==> s[v..] == s[..|s| - 1][v..] + [s[|s| - 1]]
  {
    if v < |s| {
      assert s[..|s| - 1][v..] == s[v..|s| - 1];
    }
  }

  /** On a numbered log, what comes after version v is the suffix at v. */
  lemma {:induction false} ChangesAfterIsSuffix(changes: seq<Change>, v: nat)
    requires forall i :: 0 <= i < |changes| ==> changes[i].version == i + 1
    ensures ChangesAfter(changes, v) == if v <= |changes| then changes[v..] else []
    decreases |changes|
  {
    if changes != [] {
      var n := |changes|;
      ChangesAfterIsSuffix(changes[..n - 1], v);
      if v < n {
        SuffixParts(changes, v);
      } else if v == n {
        assert changes[v..] == [];
      }
    }
  }

  /** A pull brings a replica of any prefix up to the whole log; with nothing new it changes nothing. */
  lemma PullCatchesUp(db0: Bytes, s: Server, c: Client, r: Salts)
    requires ServerInv(db0, s) && ClientInv(db0, s, c) && !Engaged(c)
    ensures var c' := PullChanges(s, c, r);
            && c'.serverVersion == |s.changes|
            && c'.db == s.snapshot
            && |c'.wal| == WAL_HEADER_SIZE
            && c'.writeLocks == c'.readLocks == 0 && c'.phase.Ready? && c'.hadWrite == c.hadWrite
            && (c.serverVersion == |s.changes| ==> c' == c)
  {
    SuffixCompletesReplica(db0, s, c.serverVersion);
  }

  lemma SuffixCompletesReplica(db0: Bytes, s: Server, v: nat)
    requires ServerInv(db0, s) && v <= |s.changes|
    ensures var suffix := ChangesAfter(s.changes, v);
            && Replay(Replay(db0, s.changes[..v]), suffix) == s.snapshot
            && (suffix == [] <==> v == |s.changes|)
            && (suffix != [] ==> suffix[|suffix| - 1].version == |s.changes|)
  {
    ChangesAfterIsSuffix(s.changes, v);
    var prefix, suffix := s.changes[..v], s.changes[v..];
    ReplayConcat(db0, prefix, suffix);
    SuffixParts(s.changes, v);
    assert suffix != [] ==> suffix[|suffix| - 1] == s.changes[|s.changes| - 1];
  }

  /** A longer log of the same server keeps every other client's invariant. */
  lemma ClientInvGrows(db0: Bytes, s: Server, s': Server, c: Client)
    requires ClientInv(db0, s, c) && s.changes <= s'.changes
    ensures ClientInv(db0, s', c)
  {
    assert s'.changes[..c.serverVersion] == s.changes[..c.serverVersion];
  }

  lemma AcceptedCommit(db0: Bytes, s: Server, v: nat, tx: Transaction)
    requires ServerInv(db0, s)
    ensures var (s', result) := CommitChange(s, v, tx);
            && ServerInv(db0, s')
            && s.changes <= s'.changes
            && (result.Accepted? <==> v == |s.changes|)
            && (result.Accepted? ==> s'.changes == s.changes + [Change(tx, v + 1)])
            && (result.Refused? ==> s' == s)
  {
    var s' := CommitChange(s, v, tx).0;
    if v == s.version {
      assert s'.changes[..|s'.changes| - 1] == s.changes;
    }
  }

  lemma OfferPreserves(db0: Bytes, s: Server, c: Client)
    requires ServerInv(db0, s) && ClientInv(db0, s, c) && c.phase.Offering? && c.phase.rest != []
    ensures var (s', c') := OfferNext(s, c);
            ServerInv(db0, s') && s.changes <= s'.changes && ClientInv(db0, s', c')
  {
    AcceptedCommit(db0, s, c.serverVersion, c.phase.rest[0]);
    var (s', c') := OfferNext(s, c);
    ClientInvGrows(db0, s, s', c);
  }

  lemma BeginEndPreserves(db0: Bytes, s: Server, c: Client)
    requires CanEnd(c) && c.phase.Ready?
    requires c.serverVersion <= |s.changes| && c.db == Replay(db0, s.changes[..c.serverVersion])
    requires (c.writeLocks > 0 ==> c.hadWrite) && (!c.hadWrite ==> |c.wal| == WAL_HEADER_SIZE)
    ensures ClientInv(db0, s, BeginEnd(c))
  {
    if !Locked(c) && c.hadWrite {
      var txs := Transactions(c.wal);
      assert txs[0..] == txs;
    }
  }

  lemma NewClientInv(db0: Bytes, s: Server, host: Endian, r: Salts)
    requires ServerInv(db0, s)
    ensures ClientInv(db0, s, NewClient(s, host, r))
  {
    assert s.changes[..|s.changes|] == s.changes;
  }

  lemma LockPreserves(db0: Bytes, s: Server, c: Client, r: Salts)
    requires ServerInv(db0, s) && ClientInv(db0, s, c) && c.phase.Ready?
    ensures var b := MaybeBeginTx(s, c, r);
            ClientInv(db0, s, b.(readLocks := b.readLocks + 1))
            && ClientInv(db0, s, b.(writeLocks := b.writeLocks + 1, hadWrite := true))
  {
    if !Locked(c) {
      PullCatchesUp(db0, s, c, r);
      assert s.changes[..|s.changes|] == s.changes;
    }
  }

  lemma ClientAfterInv(db0: Bytes, s: System, a: Action)
    requires Inv(db0, s) && Enabled(s, a) && !a.Close? && !a.Offer?
    ensures ClientInv(db0, s.server, ClientAfter(s, a))
  {
    match a
    case Open(_, host, salts) => NewClientInv(db0, s.server, host, salts);
    case LockRead(i, salts) => LockPreserves(db0, s.server, s.clients[i], salts);
    case LockWrite(i, salts) => LockPreserves(db0, s.server, s.clients[i], salts);
    case UnlockRead(i) => BeginEndPreserves(db0, s.server, s.clients[i].(readLocks := s.clients[i].readLocks - 1));
    case UnlockWrite(i) => BeginEndPreserves(db0, s.server, s.clients[i].(writeLocks := s.clients[i].writeLocks - 1));
    case WriteLog(_, _, _) =>
    case TruncateLog(_, _) =>
    case Finish(_, _) =>
  }

  /** One client changes, the log may grow, everyone else stays. */
  lemma UpdateKeepsInv(db0: Bytes, s: System, server: Server, i: Id, c: Client)
    requires Inv(db0, s) && ServerInv(db0, server) && s.server.changes <= server.changes
    requires ClientInv(db0, server, c)
    ensures Inv(db0, System(server, s.clients[i := c]))
  {
    forall j | j in s.clients
      ensures ClientInv(db0, server, s.clients[j])
    {
      ClientInvGrows(db0, s.server, server, s.clients[j]);
    }
  }

  /** Every step of every client keeps the invariant. */
  lemma NextPreservesInv(db0: Bytes, s: System, a: Action)
    requires Inv(db0, s) && Enabled(s, a)
    ensures Inv(db0, Next(s, a))
    ensures s.server.changes <= Next(s, a).server.changes
  {
    if a.Offer? {
      var (server, c) := OfferNext(s.server, s.clients[a.c]);
      OfferPreserves(db0, s.server, s.clients[a.c]);
      UpdateKeepsInv(db0, s, server, a.c, c);
    } else if !a.Close? {
      ClientAfterInv(db0, s, a);
      UpdateKeepsInv(db0, s, s.server, a.c, ClientAfter(s, a));
    }
  }
}
