/** Runs step by step: the first install, a start with its cleanup, and an update up to its marker. */
module LoaderScenarios {
  import opened LoaderStorage
  import opened Loader
  import opened LoaderRuns

  ghost predicate NoTrial(run: Run) {
    forall k :: 0 <= k < |run.actions| ==> !run.actions[k].MoveAttempt?
  }

  /** Some run in which no trial starts ends in w. */
  ghost predicate Reachable(w: World) {
    exists run: Run :: run.Valid() && NoTrial(run) && run.Last() == w
  }

  lemma Go(w: World, a: Action, w': World)
    requires Reachable(w) && Enabled(w, a) && Next(w, a) == w' && !a.MoveAttempt?
    ensures Reachable(w')
  {
    var run: Run :| run.Valid() && NoTrial(run) && run.Last() == w;
    ThenIsValid(run, a);
    var longer := run.Then(a);
    assert longer.Valid() && NoTrial(longer) && longer.Last() == w';
  }

  /** An image without layers. */
  const M := Manifest(0, [])

  /** Image 1 alone, installed. */
  const S1 := Store({}, map[Final(1) := M], map[Final(1) := Whole(1)])
  const D1 := Disk(S1, Some(1), None, None, None, None)

  /** Image x besides it. */
  function Both(x: Sha): Store {
    Store({}, map[Final(1) := M, Final(x) := M], map[Final(1) := Whole(1), Final(x) := Whole(x)])
  }

  function Run1(d: Disk, pc: Pc): World {
    World(d, Waiting, Running(App(1, false, pc)))
  }

  /** A step of that application. */
  lemma GoApp(d: Disk, pc: Pc, a: Action, d': Disk, pc': Pc)
    requires Reachable(Run1(d, pc)) && !a.Exit? && !a.MoveAttempt?
    requires AppEnabled(d, App(1, false, pc), a) && AppNext(d, App(1, false, pc), a) == (d', pc')
    ensures Reachable(Run1(d', pc'))
  {
    Go(Run1(d, pc), a, Run1(d', pc'));
  }

  /** A step of its cleanup; the last phase ends it. */
  lemma GoClean(d: Disk, c: Clean, step: CleanStep, s': Store, c': Clean)
    requires Reachable(Run1(d, Cleaning(c)))
    requires CleanEnabled(d.store, 1, c, step) && CleanNext(d.store, 1, c, step) == (s', c')
    ensures Reachable(Run1(d.(store := s'), if c'.Cleaned? then Idle else Cleaning(c')))
  {
    GoApp(d, Cleaning(c), CleanOne(step), d.(store := s'), if c'.Cleaned? then Idle else Cleaning(c'));
  }

  /** A step of its download or extraction. */
  lemma GoBuild(d: Disk, x: Sha, j: Job, step: JobStep, s': Store, j': Job)
    requires Reachable(Run1(d, Building(x, j)))
    requires JobEnabled(d.store, j, step) && JobNext(d.store, j, step) == (s', j')
    ensures Reachable(Run1(d.(store := s'), Building(x, j')))
  {
    GoApp(d, Building(x, j), BuildStep(step), d.(store := s'), Building(x, j'));
  }

  /** A step of the first install. */
  lemma GoInstall(d: Disk, j: Job, step: JobStep, s': Store, j': Job)
    requires Reachable(World(d, Install(j), NoChild))
    requires JobEnabled(d.store, j, step) && JobNext(d.store, j, step) == (s', j')
    ensures Reachable(World(d.(store := s'), Install(j'), NoChild))
  {
    Go(World(d, Install(j), NoChild), InstallStep(step), World(d.(store := s'), Install(j'), NoChild));
  }

  /** The first start, up to the published manifest of image 1. */
  lemma Downloaded()
    ensures Reachable(World(Init().disk.(store := Store({}, map[Final(1) := M], map[])), Install(Probe(1)), NoChild))
  {
    var w0 := Init();
    var run := Run([w0], []);
    assert run.Valid() && NoTrial(run) && run.Last() == w0;
    var d0 := w0.disk;
    Go(w0, Restart, World(d0, Start, NoChild));
    Go(World(d0, Start, NoChild), FindEntrypoint(false), World(d0, Install(Pull(None)), NoChild));
    var s1, s2 := Store({}, map[Tmp(0) := M], map[]), Store({}, map[Final(1) := M], map[]);
    GoInstall(d0, Pull(None), Fetch(0, 1, M), s1, Layers(None, 0, 1, M, 0));
    assert (s1.images - {Tmp(0)})[Final(1) := M] == s2.images;
    GoInstall(d0.(store := s1), Layers(None, 0, 1, M, 0), PublishManifest, s2, Probe(1));
  }

  /** The first install, of image 1. */
  lemma Installed()
    ensures Reachable(World(D1, LoopHead, NoChild))
  {
    Downloaded();
    var s2 := Store({}, map[Final(1) := M], map[]);
    var s3 := s2.(extracted := map[Tmp(0) := Broken]);
    var d := Init().disk;
    GoInstall(d.(store := s2), Probe(1), MakeDir(0), s3, ReadManifest(1, 0));
    GoInstall(d.(store := s3), ReadManifest(1, 0), OpenManifest, s3, Unpack(1, 0, M, 0));
    assert (s3.extracted - {Tmp(0)})[Final(1) := Whole(1)] == S1.extracted;
    GoInstall(d.(store := s3), Unpack(1, 0, M, 0), PublishDir, S1, Built(1));
    Go(World(d.(store := S1), Install(Built(1)), NoChild), InstallLink, World(D1, LoopHead, NoChild));
  }

  lemma Started(d: Disk)
    requires Reachable(World(d, LoopHead, NoChild))
    requires d.attempt.None? && d.entrypoint == Some(1) && Extracted(d.store, 1)
    ensures Reachable(Run1(d, Boot))
  {
    Go(World(d, LoopHead, NoChild), SeeAttempt(false), World(d, Spawn(false), NoChild));
    Go(World(d, Spawn(false), NoChild), SpawnChild, Run1(d, Boot));
  }

  /** A cleanup that keeps image 1 and removes image 2 if it is there. */
  lemma CleanedUp(d: Disk)
    requires Reachable(Run1(d, Boot)) && d.attempting.None? && d.store.blobs == {}
    requires d.store.extracted.Keys <= {Final(1), Final(2)} && d.store.images.Keys <= {Final(1), Final(2)}
    ensures Reachable(Run1(d.(store := Store({}, d.store.images - {Final(2)}, d.store.extracted - {Final(2)})), Idle))
  {
    GoApp(d, Boot, MarkReady(false), d, Cleaning(SweepTmp));
    var s := d.store;
    var refs := KeptRefs(s, 1);
    GoClean(d, SweepTmp, CollectRefs, s, RemoveDirs(refs));
    assert d.(store := s) == d;
    var s1 := s.(extracted := s.extracted - {Final(2)});
    GoClean(d, RemoveDirs(refs), RemoveDir(Final(2)), s1, RemoveDirs(refs));
    CleanedUpRest(d.(store := s1), refs);
  }

  lemma CleanedUpRest(d: Disk, refs: set<Digest>)
    requires Reachable(Run1(d, Cleaning(RemoveDirs(refs)))) && d.store.blobs == {}
    requires d.store.extracted.Keys <= {Final(1)} && d.store.images.Keys <= {Final(1), Final(2)}
    ensures Reachable(Run1(d.(store := Store({}, d.store.images - {Final(2)}, d.store.extracted)), Idle))
  {
    var s := d.store;
    GoClean(d, RemoveDirs(refs), DirsDone, s, RemoveImages(refs));
    assert d.(store := s) == d;
    var s1 := s.(images := s.images - {Final(2)});
    GoClean(d, RemoveImages(refs), RemoveImage(Final(2)), s1, RemoveImages(refs));
    var d1 := d.(store := s1);
    GoClean(d1, RemoveImages(refs), ImagesDone, s1, RemoveBlobs(refs));
    assert d1.(store := s1) == d1;
    GoClean(d1, RemoveBlobs(refs), BlobsDone, s1, Cleaned);
  }

  /** An update to image x, up to the end of its extraction. */
  lemma UpdateBuilt(d: Disk, x: Sha)
    requires Reachable(Run1(d, Idle)) && x != 1 && d.marker != Some(x) && d.store == S1
    ensures Reachable(Run1(d.(store := Both(x)), Building(x, Built(x))))
  {
    GoApp(d, Idle, CheckLatest(x), d, Building(x, Pull(Some(x))));
    var s1 := S1.(images := S1.images[Tmp(0) := M]);
    GoBuild(d, x, Pull(Some(x)), Fetch(0, x, M), s1, Layers(Some(x), 0, x, M, 0));
    var s2 := S1.(images := map[Final(1) := M, Final(x) := M]);
    assert (s1.images - {Tmp(0)})[Final(x) := M] == s2.images;
    GoBuild(d.(store := s1), x, Layers(Some(x), 0, x, M, 0), PublishManifest, s2, Probe(x));
    BuiltDir(d.(store := s2), x);
  }

  /** An update to image x, up to its marker. */
  lemma Marked(d: Disk, x: Sha)
    requires Reachable(Run1(d, Idle)) && x != 1 && d.marker != Some(x) && d.store == S1
    ensures Reachable(Run1(d.(store := Both(x), marker := Some(x)), ProbeTmp(x)))
  {
    UpdateBuilt(d, x);
    var d' := d.(store := Both(x));
    GoApp(d', Building(x, Built(x)), WriteMarker, d'.(marker := Some(x)), ProbeTmp(x));
  }

  lemma BuiltDir(d: Disk, x: Sha)
    requires Reachable(Run1(d, Building(x, Probe(x)))) && x != 1
    requires d.store == Store({}, map[Final(1) := M, Final(x) := M], map[Final(1) := Whole(1)])
    ensures Reachable(Run1(d.(store := d.store.(extracted := map[Final(1) := Whole(1), Final(x) := Whole(x)])), Building(x, Built(x))))
  {
    var s := d.store;
    var s1 := s.(extracted := s.extracted[Tmp(0) := Broken]);
    GoBuild(d, x, Probe(x), MakeDir(0), s1, ReadManifest(x, 0));
    var d1 := d.(store := s1);
    GoBuild(d1, x, ReadManifest(x, 0), OpenManifest, s1, Unpack(x, 0, M, 0));
    assert d1.(store := s1) == d1;
    var s2 := s.(extracted := map[Final(1) := Whole(1), Final(x) := Whole(x)]);
    assert (s1.extracted - {Tmp(0)})[Final(x) := Whole(x)] == s2.extracted;
    GoBuild(d1, x, Unpack(x, 0, M, 0), PublishDir, s2, Built(x));
  }

  /** The first start with its cleanup. */
  lemma FirstStart()
    ensures Reachable(Run1(D1, Idle))
  {
    Installed();
    Started(D1);
    CleanedUp(D1);
    assert S1.images - {Final(2)} == S1.images && S1.extracted - {Final(2)} == S1.extracted;
  }

  lemma FirstUpdateBuilt()
    ensures Reachable(Run1(D1.(store := Both(2)), Building(2, Built(2))))
  {
    FirstStart();
    UpdateBuilt(D1, 2);
  }

  lemma FirstUpdateMarked()
    ensures Reachable(Run1(D1.(store := Both(2), marker := Some(2)), ProbeTmp(2)))
  {
    FirstStart();
    Marked(D1, 2);
  }
}
