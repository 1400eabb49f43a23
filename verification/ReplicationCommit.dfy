/** A whole commit, from the write lock to the server's log, for any transaction at any time. */
module ReplicationCommit {
  import opened Bytes
  import opened PageStore
  import opened WalFormat
  import opened Replication
  import opened ReplicationRuns

  lemma ThenIsValid(run: Run, a: Action)
    requires run.Valid() && Enabled(run.Last(), a)
    ensures run.Then(a).Valid() && run.Then(a).Last() == Next(run.Last(), a)
  {
    var longer := run.Then(a);
    forall k | 0 <= k < |longer.actions|
      ensures longer.StepAt(k)
    {
      StepOfThen(run, a, k);
    }
  }

  lemma StepOfThen(run: Run, a: Action, k: nat)
    requires run.Valid() && Enabled(run.Last(), a) && k <= |run.actions|
    ensures run.Then(a).StepAt(k)
  {
    if k < |run.actions| {
      OldStep(run, run.Then(a), k);
    } else {
      NewStep(run, a);
    }
  }

  lemma NewStep(run: Run, a: Action)
    requires run.Valid() && Enabled(run.Last(), a)
    ensures run.Then(a).StepAt(|run.actions|)
  {
    var longer, k := run.Then(a), |run.actions|;
    assert longer.states[k] == run.Last() && longer.actions[k] == a;
  }

  lemma OldStep(run: Run, longer: Run, k: nat)
    requires run.Valid() && |longer.states| == |longer.actions| + 1 == |run.actions| + 2
    requires run.states <= longer.states && run.actions <= longer.actions
    requires k < |run.actions|
    ensures longer.StepAt(k)
  {
    assert run.StepAt(k);
    assert longer.states[k] == run.states[k] && longer.states[k + 1] == run.states[k + 1];
    assert longer.actions[k] == run.actions[k];
  }

  /** One more step of client c that leaves the server as it is. */
  lemma ClientStep(run: Run, a: Action, c': Client) returns (longer: Run)
    requires run.Valid() && Enabled(run.Last(), a) && !a.Close? && !a.Offer? && ClientAfter(run.Last(), a) == c'
    ensures longer.Valid() && longer.actions == run.actions + [a]
    ensures longer.Last() == System(run.Last().server, run.Last().clients[a.c := c'])
  {
    ThenIsValid(run, a);
    longer := run.Then(a);
  }

  /** Frames written right behind the header. */
  lemma WriteAfterHeader(header: Bytes, g: Group)
    requires |header| == WAL_HEADER_SIZE
    ensures var wal := WalWrite(header, WAL_HEADER_SIZE, EncodeFrames(g));
            WellFormed(wal) && Transactions(wal) == [GroupTransaction(g)]
  {
    var data := EncodeFrames(g);
    var wal := WalWrite(header, WAL_HEADER_SIZE, data);
    WalWriteBytes(header, WAL_HEADER_SIZE, data);
    assert wal == header + data;
    var gs: seq<Group> := [g];
    assert Flatten(gs) + [] == g;
    WalRoundTrip(header, gs, []);
    assert GroupTransactions(gs) == [GroupTransaction(g)];
  }

  /** The client after it has taken its write lock as its first lock. */
  lemma LockedForWrite(run: Run, c: Id, r: Salts) returns (longer: Run)
    requires run.Valid() && c in run.Last().clients && !Engaged(run.Last().clients[c])
    ensures longer.Valid() && longer.actions == run.actions + [LockWrite(c, r)]
    ensures longer.Last().server == run.Last().server && c in longer.Last().clients
    ensures var d := longer.Last().clients[c];
            && d.writeLocks == 1 && d.readLocks == 0 && d.phase.Ready? && d.hadWrite
            && d.serverVersion == |run.Last().server.changes| && |d.wal| == WAL_HEADER_SIZE
  {
    RunKeepsInv(run, |run.actions|);
    PullCatchesUp(run.db0, run.Last().server, run.Last().clients[c], r);
    longer := ClientStep(run, LockWrite(c, r), ClientAfter(run.Last(), LockWrite(c, r)));
  }

  /** The frames of g in an empty log. */
  lemma FramesWritten(run: Run, c: Id, g: Group) returns (longer: Run)
    requires run.Valid() && c in run.Last().clients
    requires var d := run.Last().clients[c]; d.writeLocks == 1 && d.phase.Ready? && |d.wal| == WAL_HEADER_SIZE
    ensures longer.Valid() && longer.actions == run.actions + [WriteLog(c, WAL_HEADER_SIZE, EncodeFrames(g))]
    ensures longer.Last().server == run.Last().server && c in longer.Last().clients
    ensures var d := longer.Last().clients[c];
            d == run.Last().clients[c].(wal := d.wal) && WellFormed(d.wal) && Transactions(d.wal) == [GroupTransaction(g)]
  {
    var d := run.Last().clients[c];
    WriteAfterHeader(d.wal, g);
    longer := ClientStep(run, WriteLog(c, WAL_HEADER_SIZE, EncodeFrames(g)),
                         d.(wal := WalWrite(d.wal, WAL_HEADER_SIZE, EncodeFrames(g))));
  }

  /** Its unlock up to the offer. */
  lemma UnlockForOffer(run: Run, c: Id, tx: Transaction) returns (longer: Run)
    requires run.Valid() && c in run.Last().clients
    requires var d := run.Last().clients[c];
             && d.writeLocks == 1 && d.readLocks == 0 && d.phase.Ready? && d.hadWrite
             && WellFormed(d.wal) && Transactions(d.wal) == [tx]
    ensures longer.Valid() && longer.actions == run.actions + [UnlockWrite(c)]
    ensures longer.Last().server == run.Last().server && c in longer.Last().clients
    ensures longer.Last().clients[c] == run.Last().clients[c].(writeLocks := 0, phase := Offering([tx]))
  {
    var d := run.Last().clients[c];
    longer := ClientStep(run, UnlockWrite(c), d.(writeLocks := 0, phase := Offering([tx])));
  }

  lemma OfferOne(db0: Bytes, s: Server, c: Client, tx: Transaction) returns (s': Server, c': Client)
    requires ServerInv(db0, s) && c.phase == Offering([tx]) && c.serverVersion == |s.changes|
    ensures OfferNext(s, c) == (s', c') && c'.phase == Offering([])
    ensures s'.changes == s.changes + [Change(tx, |s.changes| + 1)] && s'.snapshot == ApplyTx(s.snapshot, tx)
  {
    s', c' := OfferNext(s, c).0, OfferNext(s, c).1;
    assert [tx][0] == tx && [tx][1..] == [];
  }

  /** The offer of an up-to-date client. */
  lemma Offered(run: Run, c: Id, tx: Transaction) returns (longer: Run)
    requires run.Valid() && c in run.Last().clients && run.Last().clients[c].phase == Offering([tx])
    requires run.Last().clients[c].serverVersion == |run.Last().server.changes|
    ensures longer.Valid() && longer.actions == run.actions + [Offer(c)]
    ensures var s, s' := run.Last().server, longer.Last().server;
            s'.changes == s.changes + [Change(tx, |s.changes| + 1)] && s'.snapshot == ApplyTx(s.snapshot, tx)
    ensures c in longer.Last().clients && longer.Last().clients[c].phase == Offering([])
  {
    RunKeepsInv(run, |run.actions|);
    var s', c' := OfferOne(run.db0, run.Last().server, run.Last().clients[c], tx);
    ThenIsValid(run, Offer(c));
    longer := run.Then(Offer(c));
    assert longer.Last() == System(s', run.Last().clients[c := c']);
  }

  lemma Finished(run: Run, c: Id, r: Salts) returns (longer: Run)
    requires run.Valid() && c in run.Last().clients && run.Last().clients[c].phase == Offering([])
    ensures longer.Valid() && longer.actions == run.actions + [Finish(c, r)] && longer.Last().server == run.Last().server
  {
    longer := ClientStep(run, Finish(c, r), ClientAfter(run.Last(), Finish(c, r)));
  }

  /**
   From the end of any run, any connection that holds no lock can commit any transaction: it
   takes the write lock, writes the frames behind its log header and unlocks, and the server's
   log has grown by exactly that transaction.
   */
  lemma AnyTransactionCanCommit(run: Run, c: Id, tx: Transaction, r: Salts, r': Salts) returns (longer: Run, g: Group)
    requires run.Valid() && c in run.Last().clients && !Engaged(run.Last().clients[c])
    requires |tx.pageWrites| > 0 && tx.dbSizeAfter != 0
    ensures longer.Valid() && GroupTransaction(g) == tx
    ensures longer.actions == run.actions
                              + [LockWrite(c, r), WriteLog(c, WAL_HEADER_SIZE, EncodeFrames(g)), UnlockWrite(c), Offer(c), Finish(c, r')]
    ensures var s, s' := run.Last().server, longer.Last().server;
            s'.changes == s.changes + [Change(tx, |s.changes| + 1)] && s'.snapshot == ApplyTx(s.snapshot, tx)
  {
    g := EveryTransactionHasFrames(tx);
    longer := LockedForWrite(run, c, r);
    longer := FramesWritten(longer, c, g);
    longer := UnlockForOffer(longer, c, tx);
    longer := Offered(longer, c, tx);
    longer := Finished(longer, c, r');
  }
}
