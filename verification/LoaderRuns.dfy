/** What holds of every run of the loader, with crashes anywhere. */
module LoaderRuns {
  import opened LoaderStorage
  import opened Loader

  datatype Run = Run(states: seq<World>, actions: seq<Action>) {
    ghost predicate Valid() {
      && |states| == |actions| + 1
      && states[0] == Init()
      && forall k :: 0 <= k < |actions| ==> StepAt(k)
    }

    ghost predicate StepAt(k: nat)
      requires k < |actions| && |states| == |actions| + 1
    {
      Enabled(states[k], actions[k]) && states[k + 1] == Next(states[k], actions[k])
    }

    function Disk(k: nat): Disk
      requires k < |states|
    {
      states[k].disk
    }

    ghost function Last(): World
      requires Valid()
    {
      states[|actions|]
    }

    ghost function Then(a: Action): Run
      requires Valid() && Enabled(Last(), a)
    {
      Run(states + [Next(Last(), a)], actions + [a])
    }

    /** Action k starts a trial of image x: the attempt becomes the attempt being tried. */
    predicate TrialStart(k: nat, x: Sha)
      requires k < |actions| && k < |states|
    {
      actions[k].MoveAttempt? && Disk(k).attempt == Some(x)
    }

    /** Action k writes the marker for image y. */
    predicate Marks(k: nat, y: Sha)
      requires k < |actions| && k < |states|
    {
      actions[k].WriteMarker? && states[k].child.Running? && states[k].child.app.pc.Building?
      && states[k].child.app.pc.target == y
    }
  }

  lemma ThenIsValid(run: Run, a: Action)
    requires run.Valid() && Enabled(run.Last(), a)
    ensures run.Then(a).Valid() && run.Then(a).Last() == Next(run.Last(), a)
  {
    var longer := run.Then(a);
    forall k | 0 <= k < |longer.actions|
      ensures longer.StepAt(k)
    {
      if k < |run.actions| {
        assert run.StepAt(k);
      }
    }
  }

  lemma StepKeepsInv(run: Run, i: nat)
    requires run.Valid() && i < |run.actions| && Inv(run.states[i])
    ensures Inv(run.states[i + 1])
  {
    assert run.StepAt(i);
    NextKeepsInv(run.states[i], run.actions[i]);
  }

  lemma {:induction false} RunKeepsInv(run: Run, i: nat)
    requires run.Valid() && i < |run.states|
    ensures Inv(run.states[i])
  {
    if i == 0 {
      InitInv();
    } else {
      RunKeepsInv(run, i - 1);
      StepKeepsInv(run, i - 1);
    }
  }

  // ---------------------------------------------------------------- entrypoint safety

  /**
   In every state that any run with any crashes can reach, the entrypoint, once installed,
   and the attempt, whenever there is one, resolve to completely extracted images.
   */
  lemma EntrypointSafety(run: Run, i: nat)
    requires run.Valid() && i < |run.states|
    ensures run.Disk(i).entrypoint.Some? ==> Extracted(run.Disk(i).store, run.Disk(i).entrypoint.value)
    ensures run.Disk(i).attempt.Some? ==> Extracted(run.Disk(i).store, run.Disk(i).attempt.value)
  {
    RunKeepsInv(run, i);
  }

  /** Whatever the supervisor executes is completely extracted. */
  lemma SpawnsOnlyWholeImages(run: Run, i: nat)
    requires run.Valid() && i < |run.actions| && run.states[i].sup.Spawn?
    ensures SpawnLink(run.states[i]).Some?
    ensures Extracted(run.Disk(i).store, SpawnLink(run.states[i]).value)
    ensures Enabled(run.states[i], SpawnChild)
  {
    RunKeepsInv(run, i);
  }

  /** At every step of download, extraction and cleanup every published manifest has its layers. */
  lemma StorageStaysConsistent(run: Run, i: nat)
    requires run.Valid() && i < |run.states|
    ensures forall x :: Final(x) in run.Disk(i).store.images ==>
              forall d :: d in run.Disk(i).store.images[Final(x)].layers ==> Final(d) in run.Disk(i).store.blobs
  {
    RunKeepsInv(run, i);
    var s := run.Disk(i).store;
    forall x, d | Final(x) in s.images && d in s.images[Final(x)].layers
      ensures Final(d) in s.blobs
    {
      var m := s.images[Final(x)];
      assert LayersPresent(s, m, |m.layers|);
    }
  }

  /** The download or extraction that the supervisor or the application is in the middle of. */
  function CurrentJob(w: World): Option<Job> {
    if w.sup.Install? then Some(w.sup.job)
    else if w.child.Running? && w.child.app.pc.Building? then Some(w.child.app.pc.job)
    else None
  }

  function JobAction(w: World, step: JobStep): Action {
    if w.sup.Install? then InstallStep(step) else BuildStep(step)
  }

  /**
   No extraction ever finds a layer blob missing: in every state of every run in which either
   process is unpacking an image, its next layer can be unpacked, or the directory published.
   */
  lemma ExtractionFindsItsLayers(run: Run, i: nat)
    requires run.Valid() && i < |run.states|
    requires CurrentJob(run.states[i]).Some? && CurrentJob(run.states[i]).value.Unpack?
    ensures var w := run.states[i];
            var j := CurrentJob(w).value;
            j.unpacked <= |j.m.layers|
            && Enabled(w, JobAction(w, if j.unpacked < |j.m.layers| then UnpackLayer else PublishDir))
  {
    RunKeepsInv(run, i);
    var w := run.states[i];
    var j := CurrentJob(w).value;
    assert JobOk(w.disk.store, j);
    assert j.unpacked < |j.m.layers| ==> Final(j.m.layers[j.unpacked]) in w.disk.store.blobs;
  }

  /** So every run can be continued to the end of its extraction, by the extraction's own steps alone. */
  lemma {:induction false} ExtractionCompletes(run: Run) returns (longer: Run)
    requires run.Valid() && CurrentJob(run.Last()).Some? && CurrentJob(run.Last()).value.Unpack?
    ensures longer.Valid() && run.actions <= longer.actions
    ensures var j := CurrentJob(run.Last()).value;
            && CurrentJob(longer.Last()) == Some(Built(j.image)) && Extracted(longer.Last().disk.store, j.image)
            && |longer.actions| == |run.actions| + (|j.m.layers| - j.unpacked) + 1
    decreases var j := CurrentJob(run.Last()).value; |j.m.layers| - j.unpacked
  {
    ExtractionFindsItsLayers(run, |run.actions|);
    var w := run.Last();
    var j := CurrentJob(w).value;
    var a := JobAction(w, if j.unpacked < |j.m.layers| then UnpackLayer else PublishDir);
    ThenIsValid(run, a);
    longer := run.Then(a);
    if j.unpacked < |j.m.layers| {
      longer := ExtractionCompletes(longer);
    }
  }

  // ---------------------------------------------------------------- rollback

  lemma EntrypointAppStep(d: Disk, app: App, a: Action)
    requires AppInv(d, app) && AppEnabled(d, app, a) && !a.Exit? && AppNext(d, app, a).0.entrypoint != d.entrypoint
    ensures a.CommitTrial? && app.trial && AppNext(d, app, a).0.entrypoint == Some(app.sha)
  {
  }

  /** One step: what may move the entrypoint, and where to. */
  lemma EntrypointStep(w: World, a: Action)
    requires Inv(w) && Enabled(w, a) && Next(w, a).disk.entrypoint != w.disk.entrypoint
    ensures a.InstallLink? || a.CommitTrial?
    ensures a.InstallLink? ==> w.disk.entrypoint.None?
    ensures a.CommitTrial? ==>
              w.child.Running? && w.child.app.trial && Next(w, a).disk.entrypoint == Some(w.child.app.sha)
  {
    if !SupEnabled(w, a) && !a.Exit? {
      EntrypointAppStep(w.disk, w.child.app, a);
    }
  }

  /**
   The entrypoint moves only when it is first installed and when a running trial commits
   itself, and then to that trial's own image.
   */
  lemma EntrypointMovesOnlyByCommit(run: Run, i: nat)
    requires run.Valid() && i < |run.actions| && run.Disk(i + 1).entrypoint != run.Disk(i).entrypoint
    ensures (run.actions[i].InstallLink? && run.Disk(i).entrypoint.None?)
            || (run.actions[i].CommitTrial? && run.states[i].child.Running? && run.states[i].child.app.trial
                && run.Disk(i + 1).entrypoint == Some(run.states[i].child.app.sha))
  {
    RunKeepsInv(run, i);
    assert run.StepAt(i);
    EntrypointStep(run.states[i], run.actions[i]);
  }

  /** Rollback: with no commit in between, however trials end, the same image is installed. */
  lemma {:induction false} UncommittedTrialsRollBack(run: Run, i: nat, j: nat)
    requires run.Valid() && i <= j < |run.states| && run.Disk(i).entrypoint.Some?
    requires forall k :: i <= k < j ==> !run.actions[k].CommitTrial?
    ensures run.Disk(j).entrypoint == run.Disk(i).entrypoint
    decreases j - i
  {
    if i < j {
      UncommittedTrialsRollBack(run, i, j - 1);
      if run.Disk(j).entrypoint != run.Disk(j - 1).entrypoint {
        EntrypointMovesOnlyByCommit(run, j - 1);
      }
    }
  }

  // ---------------------------------------------------------------- at most one trial

  /** Image x has had its trial and nothing since could lead to another one. */
  ghost predicate Spent(w: World, x: Sha) {
    var d := w.disk;
    && d.attempt.None?
    && SpentMarker(d, x)
    && (w.sup.Spawn? && w.sup.trial ==> d.attempting == Some(x))
    && (w.child.Running? ==> SpentApp(w.child.app, x))
  }

  predicate SpentApp(app: App, x: Sha) {
    && (app.trial ==> app.sha == x)
    && (app.pc.Building? ==> app.pc.target != x)
    && !(app.pc.ProbeTmp? || app.pc.RemoveTmpLink? || app.pc.LinkTmp? || app.pc.Publish? || app.pc.Leaving?)
  }

  predicate SpentMarker(d: Disk, x: Sha) {
    d.marker == Some(x) || (d.marker.None? && d.entrypoint == Some(x))
  }

  lemma SpentAppStep(d: Disk, app: App, a: Action, x: Sha)
    requires AppInv(d, app) && AppEnabled(d, app, a) && !a.Exit? && !a.WriteMarker?
    requires d.attempt.None? && SpentMarker(d, x) && SpentApp(app, x)
    ensures var (d', pc) := AppNext(d, app, a);
            d'.attempt.None? && SpentMarker(d', x) && SpentApp(app.(pc := pc), x)
  {
  }

  lemma SpentStep(w: World, a: Action, x: Sha)
    requires Inv(w) && Enabled(w, a) && Spent(w, x)
    requires !(a.WriteMarker? && w.child.Running? && w.child.app.pc.Building?)
    ensures Spent(Next(w, a), x)
  {
    if !SupEnabled(w, a) && !a.Exit? {
      SpentAppStep(w.disk, w.child.app, a, x);
    }
  }

  lemma TrialStartSpends(run: Run, i: nat, x: Sha)
    requires run.Valid() && i < |run.actions| && run.TrialStart(i, x)
    ensures Spent(run.states[i + 1], x)
  {
    RunKeepsInv(run, i);
    assert run.StepAt(i);
  }

  lemma {:induction false} StaysSpent(run: Run, i: nat, j: nat, x: Sha)
    requires run.Valid() && i < j < |run.states| && run.TrialStart(i, x)
    requires forall k, y :: i < k < j && run.Marks(k, y) ==> y == x
    ensures Spent(run.states[j], x)
    decreases j
  {
    if j == i + 1 {
      TrialStartSpends(run, i, x);
    } else {
      StaysSpent(run, i, j - 1, x);
      RunKeepsInv(run, j - 1);
      assert run.StepAt(j - 1);
      var w, a := run.states[j - 1], run.actions[j - 1];
      if a.WriteMarker? && w.child.Running? && w.child.app.pc.Building? {
        assert run.Marks(j - 1, w.child.app.pc.target);
        assert false;
      }
      SpentStep(w, a, x);
    }
  }

  /**
   At most one trial: between two trials of the same image the marker has been written for
   another image.
   */
  lemma AtMostOneTrial(run: Run, i: nat, j: nat, x: Sha) returns (k: nat, y: Sha)
    requires run.Valid() && i < j < |run.actions| && run.TrialStart(i, x) && run.TrialStart(j, x)
    ensures i < k < j && run.Marks(k, y) && y != x
  {
    if k', y' :| i < k' < j && run.Marks(k', y') && y' != x {
      k, y := k', y';
    } else {
      StaysSpent(run, i, j, x);
      assert false;
    }
  }

  // ---------------------------------------------------------------- cleanup

  /** The application with this image is cleaning up in state k. */
  predicate CleaningAt(run: Run, k: nat, x: Sha)
    requires k < |run.states|
  {
    run.states[k].child.Running? && run.states[k].child.app.sha == x && run.states[k].child.app.pc.Cleaning?
  }

  lemma CleaningStep(w: World, a: Action)
    requires Inv(w) && Enabled(w, a)
    requires w.child.Running? && w.child.app.pc.Cleaning?
    requires Next(w, a).child.Running?
    ensures var x := w.child.app.sha;
            && KeepsImage(w.disk.store, Next(w, a).disk.store, x)
            && (Next(w, a).child.app.pc.Idle? ==> CleanOk(Next(w, a).disk.store, x, Cleaned))
  {
    if a.CleanOne? && !SupEnabled(w, a) {
      CleanKeeps(w.disk.store, w.child.app.sha, w.child.app.pc.phase, a.clean);
    }
  }

  lemma {:induction false} CleaningKeeps(run: Run, i: nat, j: nat, x: Sha)
    requires run.Valid() && i <= j < |run.states|
    requires forall k :: i <= k < j ==> CleaningAt(run, k, x)
    requires run.states[j].child.Running?
    ensures KeepsImage(run.Disk(i).store, run.Disk(j).store, x)
    decreases j - i
  {
    if i < j {
      assert CleaningAt(run, j - 1, x);
      CleaningKeeps(run, i, j - 1, x);
      RunKeepsInv(run, j - 1);
      assert run.StepAt(j - 1);
      CleaningStep(run.states[j - 1], run.actions[j - 1]);
      KeepsImageTransitive(run.Disk(i).store, run.Disk(j - 1).store, run.Disk(j).store, x);
    }
  }

  /**
   A completed cleanup, whatever the supervisor does meanwhile, leaves exactly the running
   image, its manifest and the blobs that the manifest names.
   */
  lemma CompletedCleanupIsExact(run: Run, i: nat, j: nat, x: Sha)
    requires run.Valid() && i < j < |run.states|
    requires forall k :: i <= k < j ==> CleaningAt(run, k, x)
    requires run.states[j].child.Running? && run.states[j].child.app.pc.Idle?
    ensures run.Disk(j).store == CleanedStore(run.Disk(i).store, {x})
    ensures var before, after := run.Disk(i).store, run.Disk(j).store;
            && (forall n :: n in after.extracted <==> n == Final(x) && n in before.extracted)
            && (forall n :: n in after.images <==> n == Final(x) && n in before.images)
            && (forall n :: n in after.blobs <==>
                  n in before.blobs && n.Final? && Final(x) in before.images && Names(before.images[Final(x)], n.key))
  {
    CleaningKeeps(run, i, j, x);
    assert CleaningAt(run, j - 1, x);
    RunKeepsInv(run, j - 1);
    assert run.StepAt(j - 1);
    CleaningStep(run.states[j - 1], run.actions[j - 1]);
    CleanedIsExact(run.Disk(i).store, run.Disk(j).store, x);
    CleanedSpelledOut(run.Disk(i).store, {x});
  }
}
