/**
 How trials end, and what the marker says about them: when the previous version runs again
 after a trial that did not commit, and when a marked image was never tried.
 */
module LoaderTrials {
  import opened LoaderStorage
  import opened Loader
  import opened LoaderRuns
  import opened LoaderScenarios

  // ---------------------------------------------------------------- a trial that does not commit

  predicate EndsChild(a: Action) {
    a.Reap? || a.Kill? || a.Crash?
  }

  /** Action i spawns a trial, which does not commit, and action k of the supervisor ends it. */
  ghost predicate UncommittedTrial(run: Run, i: nat, k: nat)
    requires run.Valid()
  {
    && i < k < |run.actions| && run.actions[i].SpawnChild? && run.states[i].sup == Spawn(true)
    && (forall n :: i < n < k ==> !EndsChild(run.actions[n]) && !run.actions[n].CommitTrial?)
    && (run.actions[k].Reap? || run.actions[k].Kill?)
  }

  /** The supervisor saw the child exit with the restart code. */
  ghost predicate EndedWith42(run: Run, k: nat)
    requires run.Valid() && k < |run.actions|
  {
    run.actions[k].Reap? && run.states[k].child == Exited(true)
  }

  /** Inside such a trial of x, with e installed. */
  ghost predicate OnTrial(w: World, x: Sha, e: Sha) {
    && w.disk.attempting == Some(x) && w.disk.entrypoint == Some(e) && w.disk.attempt.None?
    && Extracted(w.disk.store, x)
    && (w.sup.Watching? || w.sup.TimedOut? || w.sup.Killing?)
    && match w.child
       case NoChild => false
       case Running(app) => app.trial && (app.pc.Boot? || app.pc.Commit?)
       case Exited(_) => true
  }

  lemma OnTrialStep(w: World, a: Action, x: Sha, e: Sha)
    requires OnTrial(w, x, e) && Enabled(w, a) && !EndsChild(a) && !a.CommitTrial?
    ensures OnTrial(Next(w, a), x, e)
  {
  }

  lemma {:induction false} StaysOnTrial(run: Run, i: nat, k: nat, j: nat) returns (x: Sha, e: Sha)
    requires run.Valid() && UncommittedTrial(run, i, k) && i < j <= k
    ensures run.Disk(i).entrypoint == Some(e) && OnTrial(run.states[j], x, e)
    decreases j
  {
    if j == i + 1 {
      RunKeepsInv(run, i);
      assert run.StepAt(i);
      x, e := run.Disk(i).attempting.value, run.Disk(i).entrypoint.value;
    } else {
      x, e := StaysOnTrial(run, i, k, j - 1);
      assert run.StepAt(j - 1);
      OnTrialStep(run.states[j - 1], run.actions[j - 1], x, e);
    }
  }

  /**
   How a trial ends that does not commit: the installed image is the one from before and no
   attempt is pending. The supervisor goes on if and only if the child exited with the
   restart code; after a timeout or any other exit it is down.
   */
  lemma UncommittedTrialEnds(run: Run, i: nat, k: nat)
    requires run.Valid() && UncommittedTrial(run, i, k)
    ensures run.Disk(i).entrypoint.Some? && run.Disk(k + 1).entrypoint == run.Disk(i).entrypoint
    ensures run.Disk(k + 1).attempt.None? && run.states[k + 1].child.NoChild?
    ensures run.states[k + 1].sup == if EndedWith42(run, k) then LoopHead else Down
  {
    var x, e := StaysOnTrial(run, i, k, k);
    assert run.StepAt(k);
  }

  // ---------------------------------------------------------------- what runs next

  /** Between that end and the next spawn. */
  ghost predicate AfterTrial(w: World, e: Sha) {
    && w.disk.entrypoint == Some(e) && w.disk.attempt.None? && w.child.NoChild?
    && (w.sup.Down? || w.sup.Start? || w.sup.LoopHead? || w.sup == Spawn(false))
  }

  lemma AfterTrialStep(w: World, a: Action, e: Sha)
    requires Inv(w) && AfterTrial(w, e) && Enabled(w, a) && !a.SpawnChild?
    ensures AfterTrial(Next(w, a), e)
    ensures w.sup.Down? && !a.Restart? ==> Next(w, a).sup.Down?
  {
  }

  lemma {:induction false} UntilNextSpawn(run: Run, i: nat, k: nat, m: nat) returns (e: Sha)
    requires run.Valid() && UncommittedTrial(run, i, k) && k < m < |run.states|
    requires forall n :: k < n < m ==> !run.actions[n].SpawnChild?
    ensures run.Disk(i).entrypoint == Some(e) && AfterTrial(run.states[m], e)
    ensures !EndedWith42(run, k) && (forall n :: k < n < m ==> !run.actions[n].Restart?) ==> run.states[m].sup.Down?
    decreases m
  {
    if m == k + 1 {
      UncommittedTrialEnds(run, i, k);
      e := run.Disk(i).entrypoint.value;
    } else {
      e := UntilNextSpawn(run, i, k, m - 1);
      RunKeepsInv(run, m - 1);
      assert run.StepAt(m - 1);
      AfterTrialStep(run.states[m - 1], run.actions[m - 1], e);
    }
  }

  /**
   Rollback: whatever happens after an uncommitted trial, crashes and restarts included, what
   is spawned next is the image that was installed before it, and not on trial. Without an
   outside restart it is spawned only after exit code 42, and then, unless a crash comes in
   between, at once.
   */
  lemma PreviousVersionRunsNext(run: Run, i: nat, k: nat, m: nat)
    requires run.Valid() && UncommittedTrial(run, i, k) && k < m < |run.actions| && run.actions[m].SpawnChild?
    requires forall n :: k < n < m ==> !run.actions[n].SpawnChild?
    ensures run.Disk(i).entrypoint.Some?
    ensures run.states[m + 1].child == Running(App(run.Disk(i).entrypoint.value, false, Boot))
    ensures (forall n :: k < n < m ==> !run.actions[n].Restart?) ==> EndedWith42(run, k)
    ensures EndedWith42(run, k) && (forall n :: k < n < m ==> !run.actions[n].Crash?) ==> m == k + 2
  {
    var e := UntilNextSpawn(run, i, k, m);
    assert run.StepAt(m);
    if EndedWith42(run, k) && forall n :: k < n < m ==> !run.actions[n].Crash? {
      UncommittedTrialEnds(run, i, k);
      assert run.StepAt(k + 1);
      assert run.StepAt(k + 2);
    }
  }

  /** From w the installed image e comes up without an outside restart. */
  ghost predicate ComesUpAlone(w: World, e: Sha) {
    exists actions :: BringsUp(w, actions, e)
  }

  predicate BringsUp(w: World, actions: seq<Action>, e: Sha)
    decreases |actions|
  {
    if actions == [] then w.child == Running(App(e, false, Boot))
    else Enabled(w, actions[0]) && !actions[0].Restart? && BringsUp(Next(w, actions[0]), actions[1..], e)
  }

  lemma {:induction false} DownStaysDown(w: World, actions: seq<Action>, e: Sha)
    requires w.sup.Down? && w.child.NoChild?
    ensures !BringsUp(w, actions, e)
    decreases |actions|
  {
    if actions != [] && Enabled(w, actions[0]) && !actions[0].Restart? {
      DownStaysDown(Next(w, actions[0]), actions[1..], e);
    }
  }

  /**
   The previous version can come up again by the supervisor alone if and only if the trial
   ended with exit code 42.
   */
  lemma RestoredIffExit42(run: Run, i: nat, k: nat)
    requires run.Valid() && UncommittedTrial(run, i, k)
    ensures run.Disk(i).entrypoint.Some?
    ensures ComesUpAlone(run.states[k + 1], run.Disk(i).entrypoint.value) <==> EndedWith42(run, k)
  {
    UncommittedTrialEnds(run, i, k);
    RunKeepsInv(run, k + 1);
    var w, e := run.states[k + 1], run.Disk(i).entrypoint.value;
    if EndedWith42(run, k) {
      var w1 := Next(w, SeeAttempt(false));
      var w2 := Next(w1, SpawnChild);
      assert BringsUp(w2, [], e);
      assert [SpawnChild][1..] == [];
      assert BringsUp(w1, [SpawnChild], e);
      assert [SeeAttempt(false), SpawnChild][1..] == [SpawnChild];
      assert BringsUp(w, [SeeAttempt(false), SpawnChild], e);
    } else {
      forall actions
        ensures !BringsUp(w, actions, e)
      {
        DownStaysDown(w, actions, e);
      }
    }
  }

  // ---------------------------------------------------------------- such trials exist

  /** The update to image 2 is published, the application has left, and its trial is about to be spawned. */
  const DueDisk := D1.(store := Both(2), marker := Some(2), attempting := Some(2))

  lemma TrialIsDue() returns (run: Run)
    ensures run.Valid() && run.Last() == World(DueDisk, Spawn(true), NoChild)
  {
    FirstUpdateMarked();
    var d := D1.(store := Both(2), marker := Some(2));
    GoApp(d, ProbeTmp(2), FindTmpLink(false), d, LinkTmp(2));
    GoApp(d, LinkTmp(2), MakeTmpLink, d.(attemptTmp := Some(2)), Publish(2));
    var d' := d.(attempt := Some(2));
    GoApp(d.(attemptTmp := Some(2)), Publish(2), PublishAttempt, d', Leaving(2));
    run := AttemptIsTaken(d');
  }

  lemma AttemptIsTaken(d: Disk) returns (run: Run)
    requires Reachable(Run1(d, Leaving(2))) && d.attempt == Some(2) && Extracted(d.store, 2)
    ensures run.Valid() && run.Last() == World(d.(attempting := Some(2), attempt := None), Spawn(true), NoChild)
  {
    Go(Run1(d, Leaving(2)), Exit(true), World(d, Waiting, Exited(true)));
    Go(World(d, Waiting, Exited(true)), Reap, World(d, LoopHead, NoChild));
    Go(World(d, LoopHead, NoChild), SeeAttempt(true), World(d, TakeAttempt, NoChild));
    run :| run.Valid() && NoTrial(run) && run.Last() == World(d, TakeAttempt, NoChild);
    run := Follow(run, MoveAttempt, World(d.(attempting := Some(2), attempt := None), Spawn(true), NoChild));
  }

  /** One more step of a run. */
  lemma Follow(run: Run, a: Action, w': World) returns (longer: Run)
    requires run.Valid() && Enabled(run.Last(), a) && Next(run.Last(), a) == w'
    ensures longer.Valid() && longer.Last() == w'
    ensures longer.actions == run.actions + [a] && run.states <= longer.states
  {
    ThenIsValid(run, a);
    longer := run.Then(a);
  }

  /** The trial as it starts. */
  lemma TrialIsSpawned() returns (run: Run)
    ensures run.Valid() && |run.actions| > 0
    ensures run.actions[|run.actions| - 1].SpawnChild? && run.states[|run.actions| - 1].sup == Spawn(true)
    ensures run.Disk(|run.actions| - 1) == DueDisk
    ensures run.Last() == World(DueDisk, Watching, Running(App(2, true, Boot)))
  {
    run := TrialIsDue();
    run := Follow(run, SpawnChild, World(DueDisk, Watching, Running(App(2, true, Boot))));
  }

  lemma LetItTimeOut(spawned: Run) returns (run: Run)
    requires spawned.Valid() && |spawned.actions| > 0
    requires spawned.actions[|spawned.actions| - 1].SpawnChild? && spawned.states[|spawned.actions| - 1].sup == Spawn(true)
    requires spawned.Last() == World(DueDisk, Watching, Running(App(2, true, Boot)))
    ensures run.Valid() && spawned.states <= run.states
    ensures UncommittedTrial(run, |spawned.actions| - 1, |spawned.actions| + 2)
    ensures run.actions == spawned.actions + [Timeout, CheckCommitted(true), Kill]
  {
    run := Follow(spawned, Timeout, World(DueDisk, TimedOut, Running(App(2, true, Boot))));
    run := Follow(run, CheckCommitted(true), World(DueDisk, Killing, Running(App(2, true, Boot))));
    run := Follow(run, Kill, World(DueDisk, Down, NoChild));
  }

  /** A trial that never reports ready: after the timeout the supervisor kills it and is down itself. */
  lemma TimedOutTrial() returns (run: Run, i: nat, k: nat)
    ensures run.Valid() && UncommittedTrial(run, i, k) && run.actions[k].Kill?
    ensures run.Disk(i).entrypoint == Some(1) && run.Disk(i).attempting == Some(2)
    ensures run.states[k + 1].sup.Down? && !ComesUpAlone(run.states[k + 1], 1)
  {
    var spawned := TrialIsSpawned();
    i, k := |spawned.actions| - 1, |spawned.actions| + 2;
    run := LetItTimeOut(spawned);
    UncommittedTrialEnds(run, i, k);
    RestoredIffExit42(run, i, k);
  }

  /** A trial that exits before it is ready, with the restart code or with another one. */
  lemma ExitedTrial(restart: bool) returns (run: Run, i: nat, k: nat)
    ensures run.Valid() && UncommittedTrial(run, i, k) && run.actions[k].Reap?
    ensures run.Disk(i).entrypoint == Some(1) && run.Disk(i).attempting == Some(2)
    ensures run.states[k + 1].sup == if restart then LoopHead else Down
    ensures ComesUpAlone(run.states[k + 1], 1) <==> restart
  {
    run := TrialIsSpawned();
    i, k := |run.actions| - 1, |run.actions| + 1;
    run := Follow(run, Exit(restart), World(DueDisk, Watching, Exited(restart)));
    run := Follow(run, Reap, World(DueDisk, if restart then LoopHead else Down, NoChild));
    assert UncommittedTrial(run, i, k);
    UncommittedTrialEnds(run, i, k);
    RestoredIffExit42(run, i, k);
  }

  // ---------------------------------------------------------------- a marked image and its trial

  /** Action k starts a trial of x, for some k from i on and before j. */
  ghost predicate TriedBetween(run: Run, i: nat, j: nat, x: Sha)
    requires run.Valid() && j < |run.states|
  {
    exists k :: i <= k < j && run.TrialStart(k, x)
  }

  ghost predicate PublishedBetween(run: Run, i: nat, j: nat)
    requires run.Valid() && j < |run.states|
  {
    exists k :: i <= k < j && run.actions[k].PublishAttempt?
  }

  /** Nothing is written to the marker by actions i to j - 1. */
  ghost predicate Unwritten(run: Run, i: nat, j: nat)
    requires run.Valid() && j < |run.states|
  {
    forall k :: i <= k < j ==> !run.actions[k].WriteMarker?
  }

  /** Image x is marked, no attempt is there, and no trial is under way that could commit. */
  ghost predicate Shelved(w: World, x: Sha) {
    && w.disk.marker == Some(x) && w.disk.attempt.None?
    && !(w.sup.Spawn? && w.sup.trial)
    && (w.child.Running? ==>
          var app := w.child.app;
          && (app.trial ==> w.disk.attempting.None? && !app.pc.Commit? && !app.pc.Unmark?)
          && (app.pc.Building? ==> app.pc.target != x))
  }

  lemma ShelvedStep(w: World, a: Action, x: Sha)
    requires Inv(w) && Enabled(w, a) && Shelved(w, x) && !a.WriteMarker? && !a.PublishAttempt?
    ensures Shelved(Next(w, a), x) && !a.MoveAttempt?
  {
  }

  /** From the marker on, as long as nothing is published or marked. */
  lemma {:induction false} StaysShelved(run: Run, i: nat, j: nat, x: Sha)
    requires run.Valid() && i < j < |run.states| && run.Marks(i, x)
    requires Unwritten(run, i + 1, j) && !PublishedBetween(run, i + 1, j)
    ensures Shelved(run.states[j], x) && forall k :: i < k < j ==> !run.actions[k].MoveAttempt?
    decreases j
  {
    RunKeepsInv(run, j - 1);
    assert run.StepAt(j - 1);
    if j > i + 1 {
      StaysShelved(run, i, j - 1, x);
      ShelvedStep(run.states[j - 1], run.actions[j - 1], x);
    }
  }

  /** What a publication after the marker of x publishes: x. */
  lemma PublishedIsMarked(run: Run, i: nat, j: nat, x: Sha)
    requires run.Valid() && i < j < |run.actions| && run.Marks(i, x)
    requires Unwritten(run, i + 1, j) && run.actions[j].PublishAttempt?
    ensures run.Disk(j + 1).attempt == Some(x)
  {
    RunKeepsInv(run, j);
    assert run.StepAt(j);
    MarkerIsXOrGone(run, i, j, x);
  }

  lemma {:induction false} MarkerIsXOrGone(run: Run, i: nat, j: nat, x: Sha)
    requires run.Valid() && i < j < |run.states| && run.Marks(i, x) && Unwritten(run, i + 1, j)
    ensures run.Disk(j).marker == Some(x) || run.Disk(j).marker.None?
    decreases j
  {
    assert run.StepAt(j - 1);
    if j > i + 1 {
      MarkerIsXOrGone(run, i, j - 1, x);
      MarkerStep(run.states[j - 1], run.actions[j - 1]);
    } else {
      RunKeepsInv(run, i);
    }
  }

  lemma MarkerStep(w: World, a: Action)
    requires Enabled(w, a) && !a.WriteMarker?
    ensures Next(w, a).disk.marker == w.disk.marker || Next(w, a).disk.marker.None?
  {
  }

  lemma {:induction false} PendingOrTried(run: Run, i: nat, j: nat, x: Sha)
    requires run.Valid() && i < j < |run.states| && run.Marks(i, x)
    requires Unwritten(run, i + 1, j) && PublishedBetween(run, i + 1, j)
    ensures run.Disk(j).attempt == Some(x) || TriedBetween(run, i + 1, j, x)
    decreases j
  {
    var a, w := run.actions[j - 1], run.states[j - 1];
    assert run.StepAt(j - 1);
    if a.PublishAttempt? {
      RunKeepsInv(run, i);
      assert run.StepAt(i);
      PublishedIsMarked(run, i, j - 1, x);
    } else {
      PendingOrTried(run, i, j - 1, x);
      if TriedBetween(run, i + 1, j - 1, x) {
        var k :| i + 1 <= k < j - 1 && run.TrialStart(k, x);
        assert run.TrialStart(k, x);
      } else if a.MoveAttempt? {
        assert run.TrialStart(j - 1, x);
      } else {
        AttemptStep(w, a);
      }
    }
  }

  lemma AttemptStep(w: World, a: Action)
    requires Enabled(w, a) && !a.PublishAttempt? && !a.MoveAttempt?
    ensures Next(w, a).disk.attempt == w.disk.attempt
  {
  }

  /**
   The marker is written before the attempt is published. As long as no other marker is
   written, the marked image has had its trial or has it pending if and only if the attempt
   was published; a crash or an error in between leaves an image marked that was never tried.
   */
  lemma MarkedIsTriedIffPublished(run: Run, i: nat, j: nat, x: Sha)
    requires run.Valid() && i < j < |run.states| && run.Marks(i, x) && Unwritten(run, i + 1, j)
    ensures run.Disk(j).attempt == Some(x) || TriedBetween(run, i + 1, j, x) <==> PublishedBetween(run, i + 1, j)
  {
    if PublishedBetween(run, i + 1, j) {
      PendingOrTried(run, i, j, x);
    } else {
      StaysShelved(run, i, j, x);
    }
  }

  /** The application is on its way from its marker to its attempt. */
  predicate Publishing(w: World) {
    w.child.Running? && var pc := w.child.app.pc; pc.ProbeTmp? || pc.RemoveTmpLink? || pc.LinkTmp? || pc.Publish?
  }

  lemma SkippedStep(w: World, a: Action, x: Sha)
    requires Inv(w) && Enabled(w, a) && Shelved(w, x) && !Publishing(w) && !a.WriteMarker?
    ensures Shelved(Next(w, a), x) && !Publishing(Next(w, a)) && !a.PublishAttempt? && !a.MoveAttempt?
    ensures a == CheckLatest(x) ==> Next(w, a) == w
  {
    ShelvedStep(w, a, x);
  }

  /** The same, for a step of a run that marks no other image. */
  lemma SkippedAt(run: Run, k: nat, x: Sha)
    requires run.Valid() && k < |run.actions| && Shelved(run.states[k], x) && !Publishing(run.states[k])
    requires forall y :: run.Marks(k, y) ==> y == x
    ensures Shelved(run.states[k + 1], x) && !Publishing(run.states[k + 1]) && !run.actions[k].MoveAttempt?
    ensures run.actions[k] == CheckLatest(x) ==> run.states[k + 1] == run.states[k]
  {
    RunKeepsInv(run, k);
    assert run.StepAt(k);
    var w, a := run.states[k], run.actions[k];
    if a.WriteMarker? {
      assert run.Marks(k, w.child.app.pc.target);
      assert false;
    }
    SkippedStep(w, a, x);
  }

  /**
   An update that stopped between its marker and its attempt, at state m: from then on every
   check that finds x skips it and no trial of x starts, over any number of crashes and
   starts, until the marker is written for another image.
   */
  lemma {:induction false} UntriedImageIsSkipped(run: Run, i: nat, m: nat, j: nat, x: Sha)
    requires run.Valid() && i < m <= j < |run.states| && run.Marks(i, x)
    requires Unwritten(run, i + 1, m) && !PublishedBetween(run, i + 1, m) && !Publishing(run.states[m])
    requires forall k, y :: m <= k < j && run.Marks(k, y) ==> y == x
    ensures Shelved(run.states[j], x) && !Publishing(run.states[j])
    ensures forall k :: i < k < j ==> !run.TrialStart(k, x)
    ensures forall k :: m <= k < j && run.actions[k] == CheckLatest(x) ==> run.states[k + 1] == run.states[k]
    decreases j
  {
    if m == j {
      StaysShelved(run, i, m, x);
    } else {
      UntriedImageIsSkipped(run, i, m, j - 1, x);
      SkippedAt(run, j - 1, x);
    }
  }

  /** Such an image exists: marked, never tried, not pending, and the system down after a crash. */
  lemma UntriedImageIsReachable() returns (run: Run, i: nat)
    ensures run.Valid() && i < |run.actions| && run.Marks(i, 2)
    ensures run.Last().disk.marker == Some(2) && run.Last().disk.attempt.None? && run.Last().sup.Down?
    ensures forall k :: 0 <= k < |run.actions| ==> !run.TrialStart(k, 2)
  {
    FirstUpdateBuilt();
    var d := D1.(store := Both(2));
    run :| run.Valid() && NoTrial(run) && run.Last() == Run1(d, Building(2, Built(2)));
    i := |run.actions|;
    var marked := d.(marker := Some(2));
    run := Follow(run, WriteMarker, Run1(marked, ProbeTmp(2)));
    run := Follow(run, Crash, World(marked, Down, NoChild));
  }
}
