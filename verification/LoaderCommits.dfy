/** What becomes of a trial that commits, and what the supervisor spawns after any child has ended. */
module LoaderCommits {
  import opened LoaderStorage
  import opened Loader
  import opened LoaderRuns
  import opened LoaderTrials

  // ---------------------------------------------------------------- after a commit

  /** A trial of x has committed and its child has not been reaped or killed yet. */
  ghost predicate Committed(w: World, x: Sha) {
    && w.disk.entrypoint == Some(x) && w.disk.attempting.None?
    && (w.sup.Watching? || w.sup.TimedOut? || w.sup.Waiting? || w.sup.Killing?)
    && match w.child
       case NoChild => false
       case Running(app) => app.sha == x && app.trial && !app.pc.Commit?
       case Exited(_) => true
  }

  lemma CommittedAppStep(d: Disk, app: App, a: Action)
    requires AppEnabled(d, app, a) && !a.Exit? && d.attempting.None? && !app.pc.Commit?
    ensures var (d', pc) := AppNext(d, app, a);
            d'.entrypoint == d.entrypoint && d'.attempting.None? && !pc.Commit?
  {
  }

  /** The supervisor kills it only if it was already about to; otherwise it will wait for it. */
  lemma CommittedStep(w: World, a: Action, x: Sha)
    requires Committed(w, x) && Enabled(w, a) && !EndsChild(a)
    ensures Committed(Next(w, a), x)
    ensures Next(w, a).sup.Killing? <==> w.sup.Killing?
    ensures a.CheckCommitted? || w.sup.Waiting? ==> Next(w, a).sup.Waiting?
  {
    if !SupEnabled(w, a) && !a.Exit? {
      CommittedAppStep(w.disk, w.child.app, a);
    }
  }

  ghost predicate NothingEnds(run: Run, i: nat, j: nat)
    requires run.Valid() && j < |run.states|
  {
    forall n :: i <= n < j ==> !EndsChild(run.actions[n])
  }

  lemma {:induction false} StaysCommitted(run: Run, c: nat, j: nat)
    requires run.Valid() && c < j < |run.states| && run.actions[c].CommitTrial? && NothingEnds(run, c, j)
    ensures run.states[c].child.Running? && Committed(run.states[j], run.states[c].child.app.sha)
    ensures run.states[j].sup.Killing? <==> run.states[c].sup.Killing?
    ensures forall n :: c < n < j && run.actions[n].CheckCommitted? ==> run.states[j].sup.Waiting?
    decreases j
  {
    RunKeepsInv(run, c);
    assert run.StepAt(j - 1);
    if c < j - 1 {
      StaysCommitted(run, c, j - 1);
      CommittedStep(run.states[j - 1], run.actions[j - 1], run.states[c].child.app.sha);
    }
  }

  /**
   A committed trial that ends other than by a crash is killed if and only if the supervisor
   had, at the commit, already found it uncommitted after the timeout. In every other case the
   supervisor waits for it to exit.
   */
  lemma CommittedTrialIsKilledIff(run: Run, c: nat, e: nat)
    requires run.Valid() && c < e < |run.actions| && run.actions[c].CommitTrial? && NothingEnds(run, c, e)
    requires run.actions[e].Reap? || run.actions[e].Kill?
    ensures run.actions[e].Kill? <==> run.states[c].sup.Killing?
    ensures run.states[c].child.Running? && run.Disk(e + 1).entrypoint == Some(run.states[c].child.app.sha)
  {
    StaysCommitted(run, c, e);
    assert run.StepAt(e);
  }

  /**
   Unless it came that late, a committed trial runs on until it exits or the system crashes: no
   kill, the same child, and once the timeout has been looked into the supervisor just waits.
   */
  lemma {:induction false} CommittedTrialRunsOn(run: Run, c: nat, j: nat)
    requires run.Valid() && c < j < |run.states| && run.actions[c].CommitTrial? && !run.states[c].sup.Killing?
    requires forall n :: c < n < j ==> !run.actions[n].Exit? && !run.actions[n].Crash?
    ensures run.states[c].child.Running? && run.states[j].child.Running?
    ensures run.states[j].child.app.sha == run.states[c].child.app.sha && run.states[j].child.app.trial
    ensures forall n :: c < n < j ==> !run.actions[n].Kill? && !run.actions[n].Reap?
    ensures forall n :: c < n < j && run.actions[n].CheckCommitted? ==> run.states[j].sup.Waiting?
    decreases j
  {
    RunKeepsInv(run, c);
    assert run.StepAt(j - 1);
    if c < j - 1 {
      CommittedTrialRunsOn(run, c, j - 1);
      assert NothingEnds(run, c, j - 1);
      StaysCommitted(run, c, j - 1);
    }
    assert NothingEnds(run, c, j);
    StaysCommitted(run, c, j);
  }

  /** The marker goes with the commit: once the application is past removing it, it is gone until the next is written. */
  lemma {:induction false} CommitClearsMarker(run: Run, c: nat, j: nat)
    requires run.Valid() && c < j < |run.states| && run.actions[c].CommitTrial? && NothingEnds(run, c, j)
    requires forall n :: c < n < j ==> !run.actions[n].WriteMarker? && !run.actions[n].Exit?
    ensures run.states[j].child.Running? && (run.states[j].child.app.pc.Unmark? || run.Disk(j).marker.None?)
    decreases j
  {
    RunKeepsInv(run, j - 1);
    assert run.StepAt(j - 1);
    if c < j - 1 {
      CommitClearsMarker(run, c, j - 1);
      MarkerStep(run.states[j - 1], run.actions[j - 1]);
      UnmarkStep(run.states[j - 1], run.actions[j - 1]);
    }
  }

  lemma UnmarkStep(w: World, a: Action)
    requires Enabled(w, a) && !EndsChild(a) && !a.Exit? && w.child.Running? && !w.sup.Spawn?
    ensures Next(w, a).child.Running?
    ensures w.child.app.pc.Unmark? ==> Next(w, a).child.app.pc.Unmark? || Next(w, a).disk.marker.None?
  {
  }

  /** A trial that the supervisor has found uncommitted and is about to kill. */
  lemma AboutToKill() returns (run: Run)
    ensures run.Valid() && run.Last() == World(DueDisk, Killing, Running(App(2, true, Boot)))
  {
    run := TrialIsSpawned();
    run := Follow(run, Timeout, World(DueDisk, TimedOut, Running(App(2, true, Boot))));
    run := Follow(run, CheckCommitted(true), World(DueDisk, Killing, Running(App(2, true, Boot))));
  }

  /** The late commit happens: the trial commits between the supervisor's look and its kill. */
  lemma KilledAfterCommit() returns (run: Run, c: nat)
    ensures run.Valid() && c + 2 == |run.actions| && run.actions[c].CommitTrial? && run.actions[c + 1].Kill?
    ensures run.Last().disk.entrypoint == Some(2) && run.Last().sup.Down?
  {
    run := AboutToKill();
    run := Follow(run, MarkReady(true), World(DueDisk, Killing, Running(App(2, true, Commit))));
    c := |run.actions|;
    var done := DueDisk.(entrypoint := Some(2), attempting := None);
    run := Follow(run, CommitTrial, World(done, Killing, Running(App(2, true, Unmark))));
    run := Follow(run, Kill, World(done, Down, NoChild));
  }

  // ---------------------------------------------------------------- what is spawned next

  /** A child has ended, this attempt was pending then, and nothing has been spawned or crashed since. */
  ghost predicate Between(w: World, entrypoint: Link, attempt: Link) {
    && w.disk.entrypoint == entrypoint && w.child.NoChild?
    && match w.sup
       case Down => w.disk.attempt == attempt
       case Start => w.disk.attempt == attempt
       case LoopHead => w.disk.attempt == attempt
       case TakeAttempt => w.disk.attempt == attempt && attempt.Some?
       case Spawn(trial) => trial == attempt.Some? && (trial ==> w.disk.attempting == attempt)
       case _ => false
  }

  lemma BetweenStep(w: World, a: Action, entrypoint: Link, attempt: Link)
    requires Inv(w) && entrypoint.Some? && Between(w, entrypoint, attempt) && Enabled(w, a) && !a.SpawnChild? && !a.Crash?
    ensures Between(Next(w, a), entrypoint, attempt)
  {
  }

  lemma {:induction false} StaysBetween(run: Run, e: nat, m: nat)
    requires run.Valid() && e < m < |run.states| && EndsChild(run.actions[e]) && run.Disk(e + 1).entrypoint.Some?
    requires forall n :: e < n < m ==> !run.actions[n].SpawnChild? && !run.actions[n].Crash?
    ensures Between(run.states[m], run.Disk(e + 1).entrypoint, run.Disk(e + 1).attempt)
    decreases m
  {
    if m == e + 1 {
      assert run.StepAt(e);
      RunKeepsInv(run, e);
    } else {
      StaysBetween(run, e, m - 1);
      RunKeepsInv(run, m - 1);
      assert run.StepAt(m - 1);
      BetweenStep(run.states[m - 1], run.actions[m - 1], run.Disk(e + 1).entrypoint, run.Disk(e + 1).attempt);
    }
  }

  /**
   Whatever child ended and however: the next spawn, if no crash comes before it, is a trial of
   the pending attempt if there is one, and otherwise the installed image without a trial. After
   exit code 42 it comes with the supervisor's very next steps.
   */
  lemma NextSpawn(run: Run, e: nat, m: nat)
    requires run.Valid() && e < m < |run.actions| && EndsChild(run.actions[e]) && run.Disk(e + 1).entrypoint.Some?
    requires run.actions[m].SpawnChild? && forall n :: e < n < m ==> !run.actions[n].SpawnChild? && !run.actions[n].Crash?
    ensures var d := run.Disk(e + 1);
            run.states[m + 1].child
            == Running(if d.attempt.Some? then App(d.attempt.value, true, Boot) else App(d.entrypoint.value, false, Boot))
    ensures EndedWith42(run, e) ==> m == if run.Disk(e + 1).attempt.Some? then e + 3 else e + 2
  {
    StaysBetween(run, e, m);
    assert run.StepAt(m);
    if EndedWith42(run, e) {
      SpawnSteps(run, e, m);
    }
  }

  /** The steps from the loop head to the spawn. */
  lemma SpawnSteps(run: Run, e: nat, m: nat)
    requires run.Valid() && e < m < |run.actions| && EndedWith42(run, e) && run.Disk(e + 1).entrypoint.Some?
    requires run.actions[m].SpawnChild? && forall n :: e < n < m ==> !run.actions[n].SpawnChild? && !run.actions[n].Crash?
    ensures m == if run.Disk(e + 1).attempt.Some? then e + 3 else e + 2
  {
    assert run.StepAt(e) && run.StepAt(e + 1) && run.StepAt(e + 2);
    RunKeepsInv(run, e + 1);
    StaysBetween(run, e, e + 1);
    StaysBetween(run, e, e + 2);
    if run.Disk(e + 1).attempt.Some? {
      StaysBetween(run, e, e + 3);
      assert run.StepAt(e + 3);
    }
  }

  lemma {:induction false} DownUntilRestart(run: Run, i: nat, j: nat)
    requires run.Valid() && i <= j < |run.states| && run.states[i].sup.Down?
    requires forall n :: i <= n < j ==> !run.actions[n].Restart?
    ensures run.states[j].sup.Down?
    decreases j
  {
    if i < j {
      DownUntilRestart(run, i, j - 1);
      RunKeepsInv(run, j - 1);
      assert run.StepAt(j - 1);
    }
  }

  /** Between two children there is an outside restart, or the first exited with code 42 and nothing crashed since. */
  lemma SpawnNeedsRestartOr42(run: Run, e: nat, m: nat)
    requires run.Valid() && e < m < |run.actions| && EndsChild(run.actions[e]) && run.actions[m].SpawnChild?
    requires forall n :: e < n < m ==> !run.actions[n].Restart?
    ensures EndedWith42(run, e) && forall n :: e < n < m ==> !run.actions[n].Crash?
  {
    assert run.StepAt(m) && run.StepAt(e);
    if n :| e < n < m && run.actions[n].Crash? {
      assert run.StepAt(n);
      DownUntilRestart(run, n + 1, m);
    }
    if !EndedWith42(run, e) {
      DownUntilRestart(run, e + 1, m);
    }
  }

  /**
   So an update that has gone well stays: after a committed trial of x exits with code 42, the
   next child is x itself without a trial, unless x has by then published an attempt, which is
   tried instead.
   */
  lemma CommittedImageRunsNext(run: Run, c: nat, e: nat, m: nat)
    requires run.Valid() && c < e < m < |run.actions| && run.actions[c].CommitTrial? && NothingEnds(run, c, e)
    requires EndedWith42(run, e) && run.actions[m].SpawnChild?
    requires forall n :: e < n < m ==> !run.actions[n].SpawnChild? && !run.actions[n].Crash?
    ensures run.states[c].child.Running?
    ensures run.states[m + 1].child
            == Running(if run.Disk(e).attempt.Some? then App(run.Disk(e).attempt.value, true, Boot)
                       else App(run.states[c].child.app.sha, false, Boot))
  {
    CommittedTrialIsKilledIff(run, c, e);
    assert run.StepAt(e);
    NextSpawn(run, e, m);
  }
}
