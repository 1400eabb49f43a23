/**
 A crash at the wrong moment leaves a temporary symlink behind that blocks later updates. This
 shows exactly when an update is blocked, and a run that gets there.
 */
module LoaderBlockedUpdate {
  import opened LoaderStorage
  import opened Loader
  import opened LoaderRuns
  import opened LoaderScenarios

  /** The application's steps between its marker and its exit, without giving up. */
  predicate PublishingStep(a: Action) {
    a.FindTmpLink? || a.DropTmpLink? || a.MakeTmpLink? || a.PublishAttempt?
  }

  /** Those steps can be taken one after another from d and end with the attempt in place. */
  predicate LeadsToAttempt(d: Disk, app: App, x: Sha, actions: seq<Action>)
    decreases |actions|
  {
    if actions == [] then app.pc == Leaving(x) && d.attempt == Some(x)
    else
      && PublishingStep(actions[0]) && AppEnabled(d, app, actions[0])
      && var (d', pc) := AppNext(d, app, actions[0]);
         LeadsToAttempt(d', app.(pc := pc), x, actions[1..])
  }

  ghost predicate CanPublish(d: Disk, app: App)
    requires app.pc.ProbeTmp?
  {
    exists actions :: LeadsToAttempt(d, app, app.pc.target, actions)
  }

  /** Once the temporary link is out of the way, it can be made and renamed. */
  lemma LinkThenPublish(d: Disk, app: App, x: Sha)
    requires app.pc == LinkTmp(x) && d.attemptTmp.None?
    ensures LeadsToAttempt(d, app, x, [MakeTmpLink, PublishAttempt])
  {
    var d1, app1 := d.(attemptTmp := Some(x)), app.(pc := Publish(x));
    var d2, app2 := d1.(attempt := Some(x), attemptTmp := None), app.(pc := Leaving(x));
    assert LeadsToAttempt(d2, app2, x, []);
    assert [PublishAttempt][1..] == [];
    assert LeadsToAttempt(d1, app1, x, [PublishAttempt]);
    assert [MakeTmpLink, PublishAttempt][1..] == [PublishAttempt];
  }

  /** One more step in front. */
  lemma StepFirst(d: Disk, app: App, x: Sha, a: Action, d': Disk, pc: Pc, rest: seq<Action>)
    requires PublishingStep(a) && AppEnabled(d, app, a) && AppNext(d, app, a) == (d', pc)
    requires LeadsToAttempt(d', app.(pc := pc), x, rest)
    ensures LeadsToAttempt(d, app, x, [a] + rest)
  {
    assert ([a] + rest)[1..] == rest;
  }

  /**
   An update can put its attempt in place just when the temporary link is absent or found to
   exist. A link left by a crash whose image was cleaned up since is neither: the probe
   follows it and answers no, and creating the link again fails.
   */
  lemma UpdateBlockedByDanglingLink(d: Disk, app: App)
    requires app.pc.ProbeTmp?
    ensures CanPublish(d, app) <==> d.attemptTmp.None? || Final(d.attemptTmp.value) in d.store.extracted
  {
    var x := app.pc.target;
    if d.attemptTmp.None? {
      LinkThenPublish(d, app.(pc := LinkTmp(x)), x);
      StepFirst(d, app, x, FindTmpLink(false), d, LinkTmp(x), [MakeTmpLink, PublishAttempt]);
    } else if Final(d.attemptTmp.value) in d.store.extracted {
      var d' := d.(attemptTmp := None);
      LinkThenPublish(d', app.(pc := LinkTmp(x)), x);
      StepFirst(d, app.(pc := RemoveTmpLink(x)), x, DropTmpLink, d', LinkTmp(x), [MakeTmpLink, PublishAttempt]);
      StepFirst(d, app, x, FindTmpLink(true), d, RemoveTmpLink(x), [DropTmpLink] + [MakeTmpLink, PublishAttempt]);
    } else {
      forall actions
        ensures !LeadsToAttempt(d, app, x, actions)
      {
        DanglingLinkBlocks(d, app, actions);
      }
    }
  }

  lemma DanglingLinkBlocks(d: Disk, app: App, actions: seq<Action>)
    requires app.pc.ProbeTmp? && d.attemptTmp.Some? && Final(d.attemptTmp.value) !in d.store.extracted
    ensures !LeadsToAttempt(d, app, app.pc.target, actions)
  {
  }

  // ---------------------------------------------------------------- how long it lasts

  /** The temporary link points to image x, which is gone, and nobody is about to drop the link. */
  predicate Stuck(w: World, x: Sha) {
    && w.disk.attemptTmp == Some(x) && Final(x) !in w.disk.store.extracted
    && !(w.child.Running? && w.child.app.pc.RemoveTmpLink?)
  }

  lemma StuckAppStep(d: Disk, app: App, a: Action, x: Sha)
    requires AppInv(d, app) && AppEnabled(d, app, a) && !a.Exit?
    requires d.attemptTmp == Some(x) && Final(x) !in d.store.extracted && !app.pc.RemoveTmpLink?
    ensures !a.PublishAttempt?
    ensures var (d', pc) := AppNext(d, app, a); d'.attemptTmp == Some(x) && !pc.RemoveTmpLink?
  {
  }

  lemma StuckStep(w: World, a: Action, x: Sha)
    requires Inv(w) && Enabled(w, a) && Stuck(w, x)
    ensures !a.PublishAttempt?
    ensures Final(x) !in Next(w, a).disk.store.extracted ==> Stuck(Next(w, a), x)
  {
    if !SupEnabled(w, a) && !a.Exit? {
      StuckAppStep(w.disk, w.child.app, a, x);
    }
  }

  /** No attempt is published, by any number of starts and update checks, until image x itself is extracted again. */
  lemma {:induction false} NoUpdateWhileStuck(run: Run, i: nat, j: nat, x: Sha)
    requires run.Valid() && i <= j < |run.states| && Stuck(run.states[i], x)
    requires forall k :: i <= k <= j ==> Final(x) !in run.Disk(k).store.extracted
    ensures Stuck(run.states[j], x)
    ensures forall k :: i <= k < j ==> !run.actions[k].PublishAttempt?
    decreases j - i
  {
    if i < j {
      NoUpdateWhileStuck(run, i, j - 1, x);
      RunKeepsInv(run, j - 1);
      assert run.StepAt(j - 1);
      StuckStep(run.states[j - 1], run.actions[j - 1], x);
      assert Final(x) !in run.Disk(j).store.extracted;
    }
  }

  // ---------------------------------------------------------------- a run that gets there

  /** A crash right after the temporary link is made, and the next start. */
  lemma CrashedAfterLink(d: Disk, x: Sha)
    requires Reachable(Run1(d, ProbeTmp(x))) && d.attemptTmp.None? && d.entrypoint == Some(1) && Extracted(d.store, 1)
    requires d.attempt.None?
    ensures Reachable(Run1(d.(attemptTmp := Some(x)), Boot))
  {
    GoApp(d, ProbeTmp(x), FindTmpLink(false), d, LinkTmp(x));
    var d1 := d.(attemptTmp := Some(x));
    GoApp(d, LinkTmp(x), MakeTmpLink, d1, Publish(x));
    Go(Run1(d1, Publish(x)), Crash, World(d1, Down, NoChild));
    Go(World(d1, Down, NoChild), Restart, World(d1, Start, NoChild));
    Go(World(d1, Start, NoChild), FindEntrypoint(true), World(d1, LoopHead, NoChild));
    Started(d1);
  }

  /**
   Such a run: image 1 is installed, a crash stops the update to image 2 right after its
   temporary link is made, the next start cleans image 2 up, and the update to image 3 is
   marked as attempted and then blocked.
   */
  lemma BlockedUpdateIsReachable() returns (w: World)
    ensures Reachable(w) && w.child.Running? && w.child.app.pc == ProbeTmp(3) && w.disk.marker == Some(3)
    ensures !CanPublish(w.disk, w.child.app)
  {
    FirstUpdateMarked();
    var d2 := D1.(store := Both(2), marker := Some(2));
    CrashedAfterLink(d2, 2);
    var d3 := d2.(attemptTmp := Some(2));
    CleanedUp(d3);
    assert Both(2).images - {Final(2)} == S1.images && Both(2).extracted - {Final(2)} == S1.extracted;
    var d4 := d3.(store := S1);
    Marked(d4, 3);
    w := Run1(d4.(store := Both(3), marker := Some(3)), ProbeTmp(3));
    UpdateBlockedByDanglingLink(w.disk, w.child.app);
  }
}
