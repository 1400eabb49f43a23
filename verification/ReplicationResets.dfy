/** What a client's log and wal-index are after each reset, in every run. */
module ReplicationResets {
  import opened Bytes
  import opened WalFormat
  import opened WalReset
  import opened Replication
  import opened ReplicationRuns

  /** A log and a wal-index page. */
  datatype Files = Files(wal: Bytes, index: Bytes)

  ghost predicate HaveSizes(f: Files) {
    |f.wal| >= WAL_HEADER_SIZE && |f.index| == WAL_INDEX_INITIAL_SIZE
  }

  function FilesOf(c: Client): (f: Files)
    ensures HaveSizes(f)
  {
    Files(c.wal, c.index)
  }

  /**
   The files after a reset: both verify and agree with each other and with the database, the
   salts follow those before, and the page past the wal-index header is untouched.
   */
  ghost predicate Fresh(before: Files, after: Files, host: Endian, db: Bytes, r: Salts)
    requires HaveSizes(before) && HaveSizes(after)
  {
    && SelfConsistent(host, after.wal, after.index, db)
    && SaltsFollow(before.wal, after.wal, r.random1, r.random2)
    && after.index[WAL_INDEX_HEADER_SIZE..] == before.index[WAL_INDEX_HEADER_SIZE..]
  }

  /** A reset leaves files that are fresh for the client's own copy. */
  lemma ResetLeavesFreshFiles(c: Client, r: Salts)
    ensures Fresh(FilesOf(c), FilesOf(ResetWal(c, r)), c.host, c.db, r)
  {
    ResetIsSelfConsistent(c.host, c.wal, c.index, c.db, r.random1, r.random2);
  }

  // ---------------------------------------------------------------- in every run

  function ZeroFiles(): (f: Files)
    ensures HaveSizes(f)
  {
    Files(Zeros(WAL_HEADER_SIZE), Zeros(WAL_INDEX_INITIAL_SIZE))
  }

  /** The client before its first reset. */
  function ZeroClient(s: Server, host: Endian): Client {
    ClientData(host, s.version, s.snapshot, Zeros(WAL_HEADER_SIZE), Zeros(WAL_INDEX_INITIAL_SIZE), 0, 0, false, Ready)
  }

  lemma OpenedClient(run: Run, i: nat)
    requires run.Valid() && i < |run.actions| && run.actions[i].Open?
    ensures var a := run.actions[i];
            run.Present(a.c, i + 1)
            && run.states[i + 1].clients[a.c] == ResetWal(ZeroClient(run.states[i].server, a.host), a.salts)
  {
    assert run.StepAt(i);
  }

  /**
   Opening: the new client has the caller's byte order, the snapshot, no locks and no write
   mark, and its files are fresh for that snapshot, made from files of zeros.
   */
  lemma OpenLeavesFreshFiles(run: Run, i: nat)
    requires run.Valid() && i < |run.actions| && run.actions[i].Open?
    ensures run.Present(run.actions[i].c, i + 1)
    ensures var a, c := run.actions[i], run.states[i + 1].clients[run.actions[i].c];
            && Fresh(ZeroFiles(), FilesOf(c), a.host, run.states[i].server.snapshot, a.salts)
            && c.host == a.host && c.db == run.states[i].server.snapshot
            && c.readLocks == 0 && c.writeLocks == 0 && c.phase.Ready? && !c.hadWrite
  {
    var a := run.actions[i];
    var zero := ZeroClient(run.states[i].server, a.host);
    OpenedClient(run, i);
    assert FilesOf(zero) == ZeroFiles();
    ResetLeavesFreshFiles(zero, a.salts);
  }

  /** The client as a first lock leaves it, but for its lock counters. */
  lemma LockedClient(run: Run, c: Id, i: nat)
    requires run.Valid() && i < |run.actions| && run.FirstLock(c, i)
    ensures run.Present(c, i) && run.Present(c, i + 1)
    ensures var s, before, after := run.states[i].server, run.states[i].clients[c], run.states[i + 1].clients[c];
            var pulled := PullChanges(s, before, run.actions[i].salts);
            after.wal == pulled.wal && after.index == pulled.index && after.db == pulled.db && after.host == before.host
  {
    assert run.StepAt(i);
  }

  lemma PulledClient(db0: Bytes, s: Server, c: Client, r: Salts)
    requires ServerInv(db0, s) && ClientInv(db0, s, c) && !Engaged(c)
    ensures var pulled, applied := PullChanges(s, c, r), ApplyChanges(c, ChangesAfter(s.changes, c.serverVersion));
            && pulled == (if c.serverVersion < |s.changes| then ResetWal(applied, r) else c)
            && applied.db == s.snapshot && applied.wal == c.wal && applied.index == c.index && applied.host == c.host
  {
    SuffixCompletesReplica(db0, s, c.serverVersion);
    PullCatchesUp(db0, s, c, r);
  }

  /**
   A first lock: if others have committed since, the files are fresh for the copy with all of
   their changes, which is the server's snapshot; if not, files and copy are as they were.
   */
  lemma FirstLockLeavesFreshFiles(run: Run, c: Id, i: nat)
    requires run.Valid() && i < |run.actions| && run.FirstLock(c, i)
    ensures run.Present(c, i) && run.Present(c, i + 1)
    ensures var before, after := run.states[i].clients[c], run.states[i + 1].clients[c];
            && after.db == run.states[i].server.snapshot
            && if before.serverVersion < |run.Log(i)| then
                 Fresh(FilesOf(before), FilesOf(after), after.host, after.db, run.actions[i].salts)
               else FilesOf(after) == FilesOf(before) && after.db == before.db
  {
    LockedClient(run, c, i);
    RunKeepsInv(run, i);
    var s, before, r := run.states[i].server, run.states[i].clients[c], run.actions[i].salts;
    PulledClient(run.db0, s, before, r);
    PullCatchesUp(run.db0, s, before, r);
    ResetLeavesFreshFiles(ApplyChanges(before, ChangesAfter(s.changes, before.serverVersion)), r);
  }

  lemma FinishStep(s: System, c: Id, r: Salts)
    requires Enabled(s, Finish(c, r))
    ensures c in s.clients && s.clients[c].phase.Offering?
    ensures Next(s, Finish(c, r)) == System(s.server, s.clients[c := FinishEnd(s.clients[c], r)])
  {
  }

  lemma FinishedClient(run: Run, i: nat)
    requires run.Valid() && i < |run.actions| && run.actions[i].Finish?
    ensures var a := run.actions[i];
            && run.Present(a.c, i) && run.Present(a.c, i + 1)
            && var before, after := run.states[i].clients[a.c], run.states[i + 1].clients[a.c];
               after == ResetWal(before, a.salts).(hadWrite := false, phase := Ready) && before.phase.Offering?
  {
    assert run.StepAt(i);
    FinishStep(run.states[i], run.actions[i].c, run.actions[i].salts);
  }

  lemma OfferingIsUnlocked(run: Run, c: Id, i: nat)
    requires run.Valid() && i < |run.states| && run.Present(c, i) && run.states[i].clients[c].phase.Offering?
    ensures run.states[i].clients[c].readLocks == 0 && run.states[i].clients[c].writeLocks == 0
  {
    RunKeepsInv(run, i);
  }

  /** The end of an unlock without a refusal: the files are fresh for the client's copy, and the write mark is gone. */
  lemma FinishLeavesFreshFiles(run: Run, i: nat)
    requires run.Valid() && i < |run.actions| && run.actions[i].Finish?
    ensures run.Present(run.actions[i].c, i) && run.Present(run.actions[i].c, i + 1)
    ensures var before, after := run.states[i].clients[run.actions[i].c], run.states[i + 1].clients[run.actions[i].c];
            && Fresh(FilesOf(before), FilesOf(after), after.host, after.db, run.actions[i].salts)
            && after.db == before.db && after.host == before.host && !after.hadWrite && !Engaged(after)
  {
    FinishedClient(run, i);
    OfferingIsUnlocked(run, run.actions[i].c, i);
    ResetLeavesFreshFiles(run.states[i].clients[run.actions[i].c], run.actions[i].salts);
  }
}
