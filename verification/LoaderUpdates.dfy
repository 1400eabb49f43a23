/** What an update has done by the time it is marked: what ran before it, and what it has stored. */
module LoaderUpdates {
  import opened LoaderStorage
  import opened Loader
  import opened LoaderRuns

  // ---------------------------------------------------------------- cleanup first

  /** The application has not finished the cleanup that mark_ready does. */
  predicate BeforeCleanup(w: World) {
    w.child.Running? ==> var pc := w.child.app.pc; pc.Boot? || pc.Commit? || pc.Unmark? || pc.Cleaning?
  }

  lemma BeforeCleanupStep(w: World, a: Action)
    requires Inv(w) && Enabled(w, a) && BeforeCleanup(w) && a != CleanOne(BlobsDone)
    ensures BeforeCleanup(Next(w, a)) && !a.CheckLatest?
  {
    if !SupEnabled(w, a) && !a.Exit? {
      BeforeCleanupAppStep(w.disk, w.child.app, a);
    }
  }

  lemma BeforeCleanupAppStep(d: Disk, app: App, a: Action)
    requires AppEnabled(d, app, a) && !a.Exit? && a != CleanOne(BlobsDone)
    requires app.pc.Boot? || app.pc.Commit? || app.pc.Unmark? || app.pc.Cleaning?
    ensures var pc := AppNext(d, app, a).1; pc.Boot? || pc.Commit? || pc.Unmark? || pc.Cleaning?
    ensures !a.CheckLatest?
  {
  }

  lemma {:induction false} StaysBeforeCleanup(run: Run, i: nat, j: nat)
    requires run.Valid() && i < j < |run.states| && (run.actions[i].SpawnChild? || run.actions[i].ReadyAgain?)
    requires forall k :: i < k < j ==> run.actions[k] != CleanOne(BlobsDone)
    ensures BeforeCleanup(run.states[j])
    decreases j
  {
    assert run.StepAt(j - 1);
    if i < j - 1 {
      StaysBeforeCleanup(run, i, j - 1);
      RunKeepsInv(run, j - 1);
      BeforeCleanupStep(run.states[j - 1], run.actions[j - 1]);
    }
  }

  /** No application looks for updates before the cleanup of its start, or of its latest mark_ready, is complete. */
  lemma CleanupComesBeforeChecks(run: Run, i: nat, j: nat) returns (k: nat)
    requires run.Valid() && i < j < |run.actions| && run.actions[j].CheckLatest?
    requires run.actions[i].SpawnChild? || run.actions[i].ReadyAgain?
    ensures i < k < j && run.actions[k] == CleanOne(BlobsDone)
  {
    if n :| i < n < j && run.actions[n] == CleanOne(BlobsDone) {
      k := n;
    } else {
      StaysBeforeCleanup(run, i, j);
      RunKeepsInv(run, j);
      assert run.StepAt(j);
      BeforeCleanupStep(run.states[j], run.actions[j]);
      assert false;
    }
  }

  // ---------------------------------------------------------------- what an update stores

  /** The application is building an update for x in state k. */
  predicate BuildingAt(run: Run, k: nat, x: Sha)
    requires k < |run.states|
  {
    run.states[k].child.Running? && run.states[k].child.app.pc.Building? && run.states[k].child.app.pc.target == x
  }

  lemma BuildingStep(w: World, a: Action)
    requires Enabled(w, a) && w.child.Running? && w.child.app.pc.Building? && Inv(w)
    requires Next(w, a).child.Running? && Next(w, a).child.app.pc.Building?
    ensures if a.BuildStep? then
              && JobEnabled(w.disk.store, w.child.app.pc.job, a.job)
              && (Next(w, a).disk.store, Next(w, a).child.app.pc.job) == JobNext(w.disk.store, w.child.app.pc.job, a.job)
            else Next(w, a).disk.store == w.disk.store && Next(w, a).child.app.pc.job == w.child.app.pc.job
  {
    if !SupEnabled(w, a) && !a.Exit? {
      BuildingAppStep(w.disk, w.child.app, a);
    }
  }

  lemma BuildingAppStep(d: Disk, app: App, a: Action)
    requires AppEnabled(d, app, a) && !a.Exit? && app.pc.Building? && AppNext(d, app, a).1.Building?
    ensures a.BuildStep?
  {
  }

  /** One step of a run, with what it does to the progress of the update. */
  lemma BuildingProgressAt(run: Run, i: nat, j: nat, sha: Sha, m: Manifest) returns (sha': Sha, m': Manifest)
    requires run.Valid() && i < j < |run.actions|
    requires run.states[j].child.Running? && run.states[j].child.app.pc.Building?
    requires run.states[j + 1].child.Running? && run.states[j + 1].child.app.pc.Building?
    requires Progress(run.Disk(i).store, run.Disk(j).store, run.states[j].child.app.pc.job, sha, m)
    ensures Progress(run.Disk(i).store, run.Disk(j + 1).store, run.states[j + 1].child.app.pc.job, sha', m')
  {
    sha', m' := sha, m;
    var a, job := run.actions[j], run.states[j].child.app.pc.job;
    assert run.StepAt(j);
    RunKeepsInv(run, j);
    BuildingStep(run.states[j], a);
    if a.BuildStep? {
      if a.job.Fetch? {
        sha', m' := a.job.gotSha, a.job.gotManifest;
      }
      ProgressStep(run.Disk(i).store, run.Disk(j).store, job, sha', m', a.job);
    }
  }

  lemma {:induction false} BuildingProgress(run: Run, i: nat, j: nat, x: Sha) returns (sha: Sha, m: Manifest)
    requires run.Valid() && i < j < |run.states| && run.actions[i].CheckLatest?
    requires forall k :: i < k <= j ==> BuildingAt(run, k, x)
    ensures BuildingAt(run, j, x) && Progress(run.Disk(i).store, run.Disk(j).store, run.states[j].child.app.pc.job, sha, m)
    decreases j
  {
    assert BuildingAt(run, j, x) && BuildingAt(run, i + 1, x);
    if j == i + 1 {
      assert run.StepAt(i);
      RunKeepsInv(run, i);
      sha, m := 0, Manifest(0, []);
    } else {
      assert BuildingAt(run, j - 1, x);
      sha, m := BuildingProgress(run, i, j - 1, x);
      sha, m := BuildingProgressAt(run, i, j - 1, sha, m);
    }
  }

  /**
   An update that gets to its marker has added to the storage exactly one manifest, that
   manifest's layers and, unless it was there, the complete image, and has left nothing
   temporary behind.
   */
  lemma UpdateStoresExactly(run: Run, i: nat, j: nat, x: Sha) returns (sha: Sha, m: Manifest)
    requires run.Valid() && i < j < |run.actions| && run.actions[i].CheckLatest? && run.actions[j].WriteMarker?
    requires forall k :: i < k <= j ==> BuildingAt(run, k, x)
    ensures var before, after := run.Disk(i).store, run.Disk(j).store;
            && after.images == before.images[Final(sha) := m]
            && (forall n :: n in after.blobs <==> n in before.blobs || exists d :: d in m.layers && n == Final(d))
            && after.extracted == (if Final(x) in before.extracted then before.extracted else before.extracted[Final(x) := Whole(x)])
  {
    sha, m := BuildingProgress(run, i, j, x);
    RunKeepsInv(run, j);
    assert run.StepAt(j) && BuildingAt(run, j, x);
    assert forall d :: d in m.layers ==> Final(d) in LayerBlobs(m, |m.layers|);
  }
}
