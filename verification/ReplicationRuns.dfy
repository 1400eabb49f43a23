/** What holds of every run of the replication protocol, however its clients interleave. */
module ReplicationRuns {
  import opened Bytes
  import opened PageStore
  import opened WalFormat
  import opened Replication

  /** states[k + 1] is the result of actions[k] in states[k]. */
  datatype Run = Run(db0: Bytes, states: seq<System>, actions: seq<Action>) {
    ghost predicate Valid() {
      && |states| == |actions| + 1
      && states[0] == Init(db0)
      && forall k :: 0 <= k < |actions| ==> StepAt(k)
    }

    ghost predicate StepAt(k: nat)
      requires k < |actions| && |states| == |actions| + 1
    {
      Enabled(states[k], actions[k]) && states[k + 1] == Next(states[k], actions[k])
    }

    ghost function Last(): System
      requires Valid()
    {
      states[|actions|]
    }

    ghost function Then(a: Action): Run
      requires Valid() && Enabled(Last(), a)
    {
      Run(db0, states + [Next(Last(), a)], actions + [a])
    }

    /** The server's log in state k. */
    function Log(k: nat): seq<Change>
      requires k < |states|
    {
      states[k].server.changes
    }

    predicate Present(c: Id, k: nat)
      requires k < |states|
    {
      c in states[k].clients
    }

    predicate EngagedAt(c: Id, k: nat)
      requires k < |states|
    {
      Present(c, k) && Engaged(states[k].clients[c])
    }

    /** Action k is a lock that client c takes while it holds none. */
    predicate FirstLock(c: Id, k: nat)
      requires k < |actions| && |states| == |actions| + 1
    {
      (actions[k].LockRead? || actions[k].LockWrite?) && actions[k].c == c && !EngagedAt(c, k)
    }

    /** Action k is an offer of client c that the server accepts. */
    predicate AcceptedOffer(c: Id, k: nat)
      requires k < |actions| && |states| == |actions| + 1
    {
      actions[k] == Offer(c) && states[k + 1].server != states[k].server
    }

    predicate RefusedOffer(c: Id, k: nat)
      requires k < |actions| && |states| == |actions| + 1
    {
      actions[k] == Offer(c) && states[k + 1].server == states[k].server
    }

    /**
     Client c took its first lock with action j, is engaged ever since up to state i, started
     with an empty log on the whole of the server's log, and its copy has not moved.
     */
    ghost predicate Session(c: Id, j: nat, i: nat)
      requires |states| == |actions| + 1 && i < |states|
    {
      && j < i && FirstLock(c, j)
      && Present(c, j + 1)
      && |states[j + 1].clients[c].wal| == WAL_HEADER_SIZE
      && states[j + 1].clients[c].serverVersion == |Log(j + 1)|
      && forall k :: j < k <= i ==>
           EngagedAt(c, k)
           && states[k].clients[c].db == states[j + 1].clients[c].db
           && states[k].clients[c].serverVersion == states[j + 1].clients[c].serverVersion
    }
  }

  // ---------------------------------------------------------------- every state

  lemma StepKeepsInv(run: Run, i: nat)
    requires run.Valid() && i < |run.actions| && Inv(run.db0, run.states[i])
    ensures Inv(run.db0, run.states[i + 1]) && run.Log(i) <= run.Log(i + 1)
  {
    assert run.StepAt(i);
    NextPreservesInv(run.db0, run.states[i], run.actions[i]);
  }

  lemma {:induction false} RunKeepsInv(run: Run, i: nat)
    requires run.Valid() && i < |run.states|
    ensures Inv(run.db0, run.states[i])
  {
    if i == 0 {
      InitInv(run.db0);
    } else {
      RunKeepsInv(run, i - 1);
      StepKeepsInv(run, i - 1);
    }
  }

  /** The log only ever grows at its end. */
  lemma {:induction false} LogIsAppendOnly(run: Run, i: nat, j: nat)
    requires run.Valid() && i <= j < |run.states|
    ensures run.Log(i) <= run.Log(j)
  {
    if i < j {
      LogIsAppendOnly(run, i, j - 1);
      RunKeepsInv(run, j - 1);
      StepKeepsInv(run, j - 1);
    }
  }

  /**
   Replica consistency: in every state of every run the server's snapshot is the replay of
   its whole log, entry i carries version i + 1, and every client's copy is the replay of
   exactly the prefix that the client knows.
   */
  lemma ReplicaConsistency(run: Run, i: nat)
    requires run.Valid() && i < |run.states|
    ensures var s := run.states[i];
            && s.server.version == |s.server.changes|
            && s.server.snapshot == Replay(run.db0, s.server.changes)
            && (forall k :: 0 <= k < |s.server.changes| ==> s.server.changes[k].version == k + 1)
            && forall c :: c in s.clients ==>
                 s.clients[c].serverVersion <= |s.server.changes|
                 && s.clients[c].db == Replay(run.db0, s.server.changes[..s.clients[c].serverVersion])
  {
    RunKeepsInv(run, i);
  }

  // ---------------------------------------------------------------- sessions

  lemma OthersKeepTheirs(s: System, a: Action, c: Id)
    requires Enabled(s, a) && a.c != c && c in Next(s, a).clients
    ensures c in s.clients && Next(s, a).clients[c] == s.clients[c]
  {
  }

  lemma OfferKeepsCopy(s: System, c: Id)
    requires Enabled(s, Offer(c))
    ensures var c' := Next(s, Offer(c)).clients[c];
            c'.db == s.clients[c].db && c'.serverVersion == s.clients[c].serverVersion
  {
  }

  /** A lock pulls if it is the first and otherwise leaves the copy alone. */
  lemma FirstLockPulls(db0: Bytes, s: System, a: Action)
    requires Inv(db0, s) && Enabled(s, a) && (a.LockRead? || a.LockWrite?)
    ensures var c, c' := s.clients[a.c], Next(s, a).clients[a.c];
            && Next(s, a).server == s.server
            && (Engaged(c) ==> c'.db == c.db && c'.serverVersion == c.serverVersion)
            && (!Engaged(c) ==> |c'.wal| == WAL_HEADER_SIZE && c'.serverVersion == |s.server.changes|)
  {
    if !Engaged(s.clients[a.c]) {
      PullCatchesUp(db0, s.server, s.clients[a.c], a.salts);
    }
  }

  /** One step: an engaged client keeps its copy, and only a first lock engages. */
  lemma EngagedStep(db0: Bytes, s: System, a: Action, c: Id)
    requires Inv(db0, s) && Enabled(s, a)
    requires c in Next(s, a).clients && Engaged(Next(s, a).clients[c])
    ensures c in s.clients
    ensures Engaged(s.clients[c]) ==>
              Next(s, a).clients[c].db == s.clients[c].db
              && Next(s, a).clients[c].serverVersion == s.clients[c].serverVersion
    ensures !Engaged(s.clients[c]) ==>
              (a.LockRead? || a.LockWrite?) && a.c == c
              && |Next(s, a).clients[c].wal| == WAL_HEADER_SIZE
              && Next(s, a).clients[c].serverVersion == |s.server.changes|
              && Next(s, a).server == s.server
  {
    if a.c != c {
      OthersKeepTheirs(s, a, c);
    } else if a.LockRead? || a.LockWrite? {
      FirstLockPulls(db0, s, a);
    } else if a.Offer? {
      OfferKeepsCopy(s, c);
    }
  }

  /** The same, for a step of a run. */
  lemma EngagedStepAt(run: Run, c: Id, i: nat)
    requires run.Valid() && i < |run.actions| && run.EngagedAt(c, i + 1)
    ensures run.Present(c, i)
    ensures run.EngagedAt(c, i) ==>
              run.states[i + 1].clients[c].db == run.states[i].clients[c].db
              && run.states[i + 1].clients[c].serverVersion == run.states[i].clients[c].serverVersion
    ensures !run.EngagedAt(c, i) ==>
              run.FirstLock(c, i)
              && |run.states[i + 1].clients[c].wal| == WAL_HEADER_SIZE
              && run.states[i + 1].clients[c].serverVersion == |run.Log(i + 1)|
  {
    RunKeepsInv(run, i);
    assert run.StepAt(i);
    EngagedStep(run.db0, run.states[i], run.actions[i], c);
  }

  /** Whenever a client is engaged there is the first lock that began its session. */
  lemma {:induction false} SessionStart(run: Run, c: Id, i: nat) returns (j: nat)
    requires run.Valid() && i < |run.states| && run.EngagedAt(c, i)
    ensures run.Session(c, j, i)
    decreases i
  {
    EngagedStepAt(run, c, i - 1);
    if run.EngagedAt(c, i - 1) {
      j := SessionStart(run, c, i - 1);
    } else {
      j := i - 1;
    }
  }

  /**
   Snapshot stability: while a client stays engaged, nothing that others do moves its copy
   or its version.
   */
  lemma {:induction false} SnapshotStability(run: Run, c: Id, i: nat, j: nat)
    requires run.Valid() && i <= j < |run.states|
    requires forall k :: i <= k <= j ==> run.EngagedAt(c, k)
    ensures run.EngagedAt(c, i) && run.EngagedAt(c, j)
    ensures run.states[i].clients[c].db == run.states[j].clients[c].db
    ensures run.states[i].clients[c].serverVersion == run.states[j].clients[c].serverVersion
  {
    assert run.EngagedAt(c, i) && run.EngagedAt(c, j);
    if i < j {
      SnapshotStability(run, c, i, j - 1);
      EngagedStepAt(run, c, j - 1);
    }
  }

  /** What an action does to the log of client c while it is engaged. */
  function LogAction(wal: Bytes, a: Action, c: Id): Bytes {
    if a.c != c then wal
    else if a.WriteLog? then WalWrite(wal, a.offset, a.data)
    else if a.TruncateLog? then Truncate(wal, a.size)
    else wal
  }

  function LogActions(wal: Bytes, actions: seq<Action>, c: Id): Bytes {
    if actions == [] then wal
    else LogAction(LogActions(wal, actions[..|actions| - 1], c), actions[|actions| - 1], c)
  }

  lemma LogStep(s: System, a: Action, c: Id)
    requires Enabled(s, a) && c in s.clients && c in Next(s, a).clients
    requires Engaged(s.clients[c]) && Engaged(Next(s, a).clients[c])
    requires s.clients[c].phase.Offering? ==> !Locked(s.clients[c])
    ensures Next(s, a).clients[c].wal == LogAction(s.clients[c].wal, a, c)
  {
  }

  lemma LogStepAt(run: Run, c: Id, i: nat)
    requires run.Valid() && i < |run.actions| && run.EngagedAt(c, i) && run.EngagedAt(c, i + 1)
    ensures run.states[i + 1].clients[c].wal == LogAction(run.states[i].clients[c].wal, run.actions[i], c)
  {
    RunKeepsInv(run, i);
    assert run.StepAt(i);
    LogStep(run.states[i], run.actions[i], c);
  }

  /** Within a session the client's log is made by the log writes of that session alone. */
  lemma {:induction false} SessionLogIsItsWrites(run: Run, c: Id, j: nat, i: nat)
    requires run.Valid() && i < |run.states| && run.Session(c, j, i)
    ensures run.EngagedAt(c, i)
    ensures run.states[i].clients[c].wal
            == LogActions(run.states[j + 1].clients[c].wal, run.actions[j + 1..i], c)
    decreases i
  {
    assert run.EngagedAt(c, i);
    if j + 1 < i {
      assert run.EngagedAt(c, i - 1);
      assert run.Session(c, j, i - 1);
      SessionLogIsItsWrites(run, c, j, i - 1);
      LogStepAt(run, c, i - 1);
      assert run.actions[j + 1..i][..i - 1 - (j + 1)] == run.actions[j + 1..i - 1];
    }
  }

  // ---------------------------------------------------------------- commits

  /** One step: the log grows only by an accepted offer, of the first transaction of the offerer's log. */
  lemma GrowthStep(db0: Bytes, s: System, a: Action)
    requires Inv(db0, s) && Enabled(s, a) && Next(s, a).server != s.server
    ensures a.Offer? && a.c in s.clients
    ensures var c := s.clients[a.c];
            && WellFormed(c.wal) && |Transactions(c.wal)| > 0
            && c.serverVersion == |s.server.changes|
            && Next(s, a).server.changes
               == s.server.changes + [Change(Transactions(c.wal)[0], |s.server.changes| + 1)]
  {
    var c := s.clients[a.c];
    AcceptedCommit(db0, s.server, c.serverVersion, c.phase.rest[0]);
    assert c.phase.rest == Transactions(c.wal);
  }

  /** The same, for a step of a run. */
  lemma GrowthAt(run: Run, i: nat) returns (c: Id)
    requires run.Valid() && i < |run.actions| && run.states[i + 1].server != run.states[i].server
    ensures run.AcceptedOffer(c, i) && run.EngagedAt(c, i)
    ensures var d := run.states[i].clients[c];
            && WellFormed(d.wal) && |Transactions(d.wal)| > 0
            && d.serverVersion == |run.Log(i)| && d.db == Replay(run.db0, run.Log(i))
            && run.Log(i + 1) == run.Log(i) + [Change(Transactions(d.wal)[0], |run.Log(i)| + 1)]
  {
    RunKeepsInv(run, i);
    assert run.StepAt(i);
    GrowthStep(run.db0, run.states[i], run.actions[i]);
    c := run.actions[i].c;
    assert run.Log(i)[..|run.Log(i)|] == run.Log(i);
  }

  /**
   No lost update: whenever the log grows, it grows by the first transaction of the log of a
   client whose session began with an empty log on exactly the server log that is now being
   extended; since that first lock the client's copy was the replay of that log, and nobody
   else committed.
   */
  lemma NoLostUpdate(run: Run, i: nat) returns (c: Id, j: nat)
    requires run.Valid() && i < |run.actions| && run.Log(i + 1) != run.Log(i)
    ensures run.AcceptedOffer(c, i)
    ensures run.Session(c, j, i)
    ensures forall k :: j < k <= i ==>
              run.states[k].clients[c].db == Replay(run.db0, run.Log(i))
              && run.states[k].clients[c].serverVersion == |run.Log(i)|
              && run.Log(k) == run.Log(i)
    ensures WellFormed(run.states[i].clients[c].wal)
    ensures var txs := Transactions(run.states[i].clients[c].wal);
            |txs| > 0 && run.Log(i + 1) == run.Log(i) + [Change(txs[0], |run.Log(i)| + 1)]
  {
    c := GrowthAt(run, i);
    j := SessionStart(run, c, i);
    forall k | j < k <= i
      ensures run.Log(k) == run.Log(i)
    {
      LogIsAppendOnly(run, j + 1, k);
      LogIsAppendOnly(run, k, i);
    }
  }

  /** Read your writes: a first lock after a client's own commit sees that commit, and everything else. */
  lemma ReadYourWrites(run: Run, c: Id, i: nat, j: nat)
    requires run.Valid() && i < j < |run.actions|
    requires run.AcceptedOffer(c, i) && run.FirstLock(c, j)
    ensures run.Log(i + 1) <= run.Log(j + 1) && |run.Log(i + 1)| == |run.Log(i)| + 1
    ensures run.Present(c, j + 1)
    ensures run.states[j + 1].clients[c].serverVersion == |run.Log(j + 1)|
    ensures run.states[j + 1].clients[c].db == Replay(run.db0, run.Log(j + 1))
  {
    var c' := GrowthAt(run, i);
    LogIsAppendOnly(run, i + 1, j + 1);
    FirstLockSeesAll(run, c, j);
  }

  /** A first lock leaves the client with the whole log replayed. */
  lemma FirstLockSeesAll(run: Run, c: Id, j: nat)
    requires run.Valid() && j < |run.actions| && run.FirstLock(c, j)
    ensures run.Present(c, j + 1)
    ensures run.states[j + 1].clients[c].serverVersion == |run.Log(j + 1)|
    ensures run.states[j + 1].clients[c].db == Replay(run.db0, run.Log(j + 1))
  {
    assert run.EngagedAt(c, j + 1) by {
      assert run.StepAt(j);
    }
    EngagedStepAt(run, c, j);
    RunKeepsInv(run, j + 1);
    assert run.Log(j + 1)[..|run.Log(j + 1)|] == run.Log(j + 1);
  }

  /** Growth of the log and acceptance of an offer are the same event. */
  lemma AcceptedGrows(run: Run, c: Id, i: nat)
    requires run.Valid() && i < |run.actions| && run.AcceptedOffer(c, i)
    ensures run.Log(i + 1) != run.Log(i)
  {
    var c' := GrowthAt(run, i);
  }

  /**
   One full unlock commits at most one transaction: between two accepted offers of a client
   there is always a new first lock, which pulls.
   */
  lemma OneCommitPerSession(run: Run, c: Id, i: nat, j: nat) returns (k: nat)
    requires run.Valid() && i < j < |run.actions|
    requires run.AcceptedOffer(c, i) && run.AcceptedOffer(c, j)
    ensures i < k < j && run.FirstLock(c, k) && run.Session(c, k, j)
  {
    AcceptedGrows(run, c, i);
    AcceptedGrows(run, c, j);
    var c';
    c', k := NoLostUpdate(run, j);
    assert c' == c;
  }

  /**
   Frames of a refused commit never reach the log: whatever a client commits after a refusal
   comes from a session that began later, with an empty log.
   */
  lemma RefusedFramesNeverCommit(run: Run, c: Id, i: nat, j: nat) returns (k: nat)
    requires run.Valid() && i < j < |run.actions|
    requires run.RefusedOffer(c, i) && run.AcceptedOffer(c, j)
    ensures i < k < j && run.Session(c, k, j)
    ensures |run.states[k + 1].clients[c].wal| == WAL_HEADER_SIZE
  {
    AcceptedGrows(run, c, j);
    var c';
    c', k := NoLostUpdate(run, j);
    assert c' == c;
    RefusalDisengages(run, c, i);
  }

  lemma RefusalDisengages(run: Run, c: Id, i: nat)
    requires run.Valid() && i < |run.actions| && run.RefusedOffer(c, i)
    ensures !run.EngagedAt(c, i + 1)
  {
    assert run.StepAt(i);
    RunKeepsInv(run, i);
    AcceptedCommit(run.db0, run.states[i].server, run.states[i].clients[c].serverVersion,
                   run.states[i].clients[c].phase.rest[0]);
  }

  /**
   With no lock held a client's log is empty or the server is ahead, so the next first lock
   empties it before anything can be committed from it.
   */
  lemma UnlockedLogIsEmptyOrStale(run: Run, c: Id, i: nat)
    requires run.Valid() && i < |run.states| && run.Present(c, i) && !run.EngagedAt(c, i)
    ensures var d := run.states[i].clients[c];
            |d.wal| == WAL_HEADER_SIZE || d.serverVersion < |run.Log(i)|
  {
    RunKeepsInv(run, i);
  }

  /** An unlock that ends without a refusal had at most one transaction in its log. */
  lemma CleanUnlockHadOneTransaction(run: Run, i: nat)
    requires run.Valid() && i < |run.actions| && run.actions[i].Finish?
    ensures run.Present(run.actions[i].c, i)
    ensures var d := run.states[i].clients[run.actions[i].c];
            WellFormed(d.wal) && |Transactions(d.wal)| <= 1
  {
    assert run.StepAt(i);
    RunKeepsInv(run, i);
  }

  /**
   The optimistic check over a whole session: an offer is accepted if and only if the server's
   log is still the one that the session began on.
   */
  lemma AcceptedIffNobodyCommitted(run: Run, c: Id, j: nat, i: nat)
    requires run.Valid() && i < |run.actions| && run.Session(c, j, i) && run.actions[i] == Offer(c)
    ensures run.AcceptedOffer(c, i) <==> run.Log(i) == run.Log(j + 1)
  {
    assert run.EngagedAt(c, i);
    LogIsAppendOnly(run, j + 1, i);
    AcceptedIffCurrent(run, c, i);
  }

  /** An offer is accepted if and only if the client knows the whole log. */
  lemma AcceptedIffCurrent(run: Run, c: Id, i: nat)
    requires run.Valid() && i < |run.actions| && run.actions[i] == Offer(c)
    ensures run.Present(c, i) && (run.AcceptedOffer(c, i) <==> run.states[i].clients[c].serverVersion == |run.Log(i)|)
  {
    RunKeepsInv(run, i);
    assert run.StepAt(i);
    var d := run.states[i].clients[c];
    AcceptedCommit(run.db0, run.states[i].server, d.serverVersion, d.phase.rest[0]);
  }

  // ---------------------------------------------------------------- who holds what

  /** What an observer of the calls alone can say of one connection. */
  datatype Account = Closed | Opened(host: Endian, readLocks: int, writeLocks: int, mark: bool)

  function Recorded(b: Account, a: Action, c: Id): Account {
    if a.c != c then b
    else if a.Open? then Opened(a.host, 0, 0, false)
    else if a.Close? || b.Closed? then Closed
    else if a.LockRead? then b.(readLocks := b.readLocks + 1)
    else if a.LockWrite? then b.(writeLocks := b.writeLocks + 1, mark := true)
    else if a.UnlockRead? then b.(readLocks := b.readLocks - 1)
    else if a.UnlockWrite? then b.(writeLocks := b.writeLocks - 1)
    else if a.Finish? then b.(mark := false)
    else b
  }

  function AccountOf(actions: seq<Action>, c: Id): Account {
    if actions == [] then Closed
    else Recorded(AccountOf(actions[..|actions| - 1], c), actions[|actions| - 1], c)
  }

  ghost predicate Matches(s: System, c: Id, b: Account) {
    if c !in s.clients then b.Closed?
    else
      var d := s.clients[c];
      b == Opened(d.host, d.readLocks, d.writeLocks, d.hadWrite)
  }

  lemma PullKeepsAccount(s: Server, c: Client, r: Salts)
    ensures var c' := MaybeBeginTx(s, c, r);
            c'.host == c.host && c'.readLocks == c.readLocks && c'.writeLocks == c.writeLocks && c'.hadWrite == c.hadWrite
  {
  }

  lemma RecordedMatches(s: System, a: Action, c: Id, b: Account)
    requires Enabled(s, a) && Matches(s, c, b)
    ensures Matches(Next(s, a), c, Recorded(b, a, c))
  {
    if a.c == c && (a.LockRead? || a.LockWrite?) {
      PullKeepsAccount(s.server, s.clients[c], a.salts);
    }
  }

  /**
   In every run a connection is there exactly from its opening to its closing, its lock counters
   are the locks it took less those it gave up, and its write mark is set exactly if it took the
   write lock since the last unlock that ended without a refusal.
   */
  lemma {:induction false} LocksAreCounted(run: Run, c: Id, i: nat)
    requires run.Valid() && i < |run.states|
    ensures Matches(run.states[i], c, AccountOf(run.actions[..i], c))
  {
    if i > 0 {
      LocksAreCounted(run, c, i - 1);
      assert run.StepAt(i - 1);
      assert run.actions[..i][..i - 1] == run.actions[..i - 1];
      RecordedMatches(run.states[i - 1], run.actions[i - 1], c, AccountOf(run.actions[..i - 1], c));
    }
  }

  // ---------------------------------------------------------------- pages

  /** The replay on page maps, with no bytes in it. */
  function ReplayPages(ps: seq<Bytes>, changes: seq<Change>): seq<Bytes> {
    if changes == [] then ps
    else PagesAfter(ReplayPages(ps, changes[..|changes| - 1]), changes[|changes| - 1].tx)
  }

  lemma {:induction false} ReplayRefinesPages(db: Bytes, changes: seq<Change>)
    requires Aligned(db)
    ensures Aligned(Replay(db, changes)) && Pages(Replay(db, changes)) == ReplayPages(Pages(db), changes)
  {
    if changes != [] {
      var front := changes[..|changes| - 1];
      ReplayRefinesPages(db, front);
      ApplyTxRefinesPages(Replay(db, front), changes[|changes| - 1].tx);
    }
  }

  lemma AlignedReadIsInRange(db: Bytes, offset: nat)
    requires Aligned(db) && offset % PAGESIZE == 0 && offset < |db|
    ensures offset + PAGESIZE <= |db|
  {
  }

  /**
   In every reachable state every aligned read of a client stays in range and returns the
   page that the page-level replay of its log prefix has there.
   */
  lemma ReadsReturnReplayedPages(run: Run, i: nat, c: Id, offset: nat)
    requires run.Valid() && i < |run.states| && run.Present(c, i) && Aligned(run.db0)
    requires offset % PAGESIZE == 0
    ensures var d := run.states[i].clients[c];
            && Aligned(d.db)
            && (offset < |d.db| ==> offset + PAGESIZE <= |d.db|)
            && d.serverVersion <= |run.Log(i)|
            && PageOr0(Pages(d.db), offset / PAGESIZE)
               == PageOr0(ReplayPages(Pages(run.db0), run.Log(i)[..d.serverVersion]), offset / PAGESIZE)
  {
    RunKeepsInv(run, i);
    var d := run.states[i].clients[c];
    ReplayRefinesPages(run.db0, run.Log(i)[..d.serverVersion]);
    if offset < |d.db| {
      AlignedReadIsInRange(d.db, offset);
    }
  }
}
