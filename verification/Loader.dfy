/**
 The self-updating loader: a supervisor, the application it spawns, and the symlinks, the
 marker file and the exit code through which they talk. Both processes can be killed between
 any two filesystem calls.
 */
module Loader {
  import opened LoaderStorage

  /** A symlink to `extracted/<sha>/entrypoint`, or nothing. */
  type Link = Option<Sha>

  /** `update-attempt` is the marker; `attemptTmp` is the symlink before its rename. */
  datatype Disk = Disk(
    store: Store,
    entrypoint: Link,
    attempt: Link,
    attemptTmp: Link,
    attempting: Link,
    marker: Option<Sha>)

  /** Where the application is; an update in the making carries the image it is for. */
  datatype Pc =
    | Boot
    | Commit
    | Unmark
    | Cleaning(phase: Clean)
    | Idle
    | Building(target: Sha, job: Job)
    | ProbeTmp(target: Sha)
    | RemoveTmpLink(target: Sha)
    | LinkTmp(target: Sha)
    | Publish(target: Sha)
    | Leaving(target: Sha)

  datatype App = App(sha: Sha, trial: bool, pc: Pc)

  datatype Child = NoChild | Running(app: App) | Exited(restart: bool)

  datatype Sup =
    | Down
    | Start
    | Install(job: Job)
    | LoopHead
    | TakeAttempt
    | Spawn(trial: bool)
    | Watching
    | TimedOut
    | Killing
    | Waiting

  datatype World = World(disk: Disk, sup: Sup, child: Child)

  /** What `try_exists` may answer: it follows the link, and a broken directory may or may not have the file. */
  predicate MayAnswer(s: Store, l: Link, found: bool) {
    if l.None? || Final(l.value) !in s.extracted then !found
    else if s.extracted[Final(l.value)] == Broken then true
    else found
  }

  datatype Action =
    // supervisor
    | Restart
    | FindEntrypoint(found: bool)
    | InstallStep(job: JobStep)
    | InstallLink
    | SeeAttempt(found: bool)
    | MoveAttempt
    | SpawnChild
    | Timeout
    | CheckCommitted(found: bool)
    | Kill
    | Reap
    | Crash
    // application
    | Exit(restart: bool)
    | MarkReady(found: bool)
    | CommitTrial
    | RemoveMarker
    | CleanOne(clean: CleanStep)
    | ReadyAgain
    | CheckLatest(latest: Sha)
    | BuildStep(job: JobStep)
    | WriteMarker
    | FindTmpLink(found: bool)
    | DropTmpLink
    | MakeTmpLink
    | PublishAttempt
    | GiveUp

  /** The link that the supervisor is about to execute. */
  function SpawnLink(w: World): Link
    requires w.sup.Spawn?
  {
    if w.sup.trial then w.disk.attempting else w.disk.entrypoint
  }

  predicate SupEnabled(w: World, a: Action) {
    match a
    case Restart => w.sup.Down?
    case FindEntrypoint(found) => w.sup.Start? && MayAnswer(w.disk.store, w.disk.entrypoint, found)
    case InstallStep(step) => w.sup.Install? && JobEnabled(w.disk.store, w.sup.job, step)
    case InstallLink => w.sup.Install? && w.sup.job.Built? && w.disk.entrypoint.None?
    case SeeAttempt(found) => w.sup.LoopHead? && MayAnswer(w.disk.store, w.disk.attempt, found)
    case MoveAttempt => w.sup.TakeAttempt? && w.disk.attempt.Some?
    case SpawnChild => w.sup.Spawn? && SpawnLink(w).Some? && Final(SpawnLink(w).value) in w.disk.store.extracted
    case Timeout => w.sup.Watching?
    case CheckCommitted(found) => w.sup.TimedOut? && MayAnswer(w.disk.store, w.disk.attempting, found)
    case Kill => w.sup.Killing?
    case Reap => (w.sup.Watching? || w.sup.Waiting?) && w.child.Exited?
    case Crash => true
    case _ => false
  }

  predicate AppEnabled(d: Disk, app: App, a: Action) {
    match a
    case Exit(restart) => app.pc.Leaving? ==> restart
    case MarkReady(found) => app.pc.Boot? && MayAnswer(d.store, d.attempting, found)
    case CommitTrial => app.pc.Commit? && d.attempting.Some?
    case RemoveMarker => app.pc.Unmark?
    case CleanOne(step) => app.pc.Cleaning? && CleanEnabled(d.store, app.sha, app.pc.phase, step)
    case ReadyAgain => app.pc.Idle?
    case CheckLatest(_) => app.pc.Idle?
    case BuildStep(step) => app.pc.Building? && JobEnabled(d.store, app.pc.job, step)
    case WriteMarker => app.pc.Building? && app.pc.job.Built?
    case FindTmpLink(found) => app.pc.ProbeTmp? && MayAnswer(d.store, d.attemptTmp, found)
    case DropTmpLink => app.pc.RemoveTmpLink?
    case MakeTmpLink => app.pc.LinkTmp? && d.attemptTmp.None?
    case PublishAttempt => app.pc.Publish?
    case GiveUp => app.pc.Building? || app.pc.ProbeTmp? || app.pc.RemoveTmpLink? || app.pc.LinkTmp? || app.pc.Publish?
    case _ => false
  }

  predicate Enabled(w: World, a: Action) {
    SupEnabled(w, a) || (w.child.Running? && AppEnabled(w.disk, w.child.app, a))
  }

  function SupNext(w: World, a: Action): (w': World)
    requires SupEnabled(w, a)
  {
    var d := w.disk;
    match a
    case Restart => w.(sup := Start)
    case FindEntrypoint(found) => w.(sup := if found then LoopHead else Install(Pull(None)))
    case InstallStep(step) =>
      var (s, j) := JobNext(d.store, w.sup.job, step);
      w.(disk := d.(store := s), sup := Install(j))
    case InstallLink => w.(disk := d.(entrypoint := Some(w.sup.job.image)), sup := LoopHead)
    case SeeAttempt(found) => w.(sup := if found then TakeAttempt else Spawn(false))
    case MoveAttempt => w.(disk := d.(attempting := d.attempt, attempt := None), sup := Spawn(true))
    case SpawnChild =>
      w.(sup := if w.sup.trial then Watching else Waiting,
         child := Running(App(SpawnLink(w).value, w.sup.trial, Boot)))
    case Timeout => w.(sup := TimedOut)
    case CheckCommitted(found) => w.(sup := if found then Killing else Waiting)
    case Kill => w.(sup := Down, child := NoChild)
    case Reap => w.(sup := if w.child.restart then LoopHead else Down, child := NoChild)
    case Crash => w.(sup := Down, child := NoChild)
  }

  /** The disk and the application after one of its steps other than its exit. */
  function AppNext(d: Disk, app: App, a: Action): (r: (Disk, Pc))
    requires AppEnabled(d, app, a) && !a.Exit?
  {
    match a
    case MarkReady(found) => (d, if app.trial && found then Commit else Cleaning(SweepTmp))
    case CommitTrial => (d.(entrypoint := d.attempting, attempting := None), Unmark)
    case RemoveMarker => (d.(marker := None), Cleaning(SweepTmp))
    case CleanOne(step) =>
      var (s, c) := CleanNext(d.store, app.sha, app.pc.phase, step);
      (d.(store := s), if c.Cleaned? then Idle else Cleaning(c))
    case ReadyAgain => (d, Boot)
    case CheckLatest(latest) =>
      (d, if latest == app.sha || d.marker == Some(latest) then Idle else Building(latest, Pull(Some(latest))))
    case BuildStep(step) =>
      var (s, j) := JobNext(d.store, app.pc.job, step);
      (d.(store := s), Building(app.pc.target, j))
    case WriteMarker => (d.(marker := Some(app.pc.target)), ProbeTmp(app.pc.target))
    case FindTmpLink(found) => (d, if found then RemoveTmpLink(app.pc.target) else LinkTmp(app.pc.target))
    case DropTmpLink => (d.(attemptTmp := None), LinkTmp(app.pc.target))
    case MakeTmpLink => (d.(attemptTmp := Some(app.pc.target)), Publish(app.pc.target))
    case PublishAttempt => (d.(attempt := d.attemptTmp, attemptTmp := None), Leaving(app.pc.target))
    case GiveUp => (d, Idle)
  }

  function Next(w: World, a: Action): (w': World)
    requires Enabled(w, a)
  {
    if SupEnabled(w, a) then SupNext(w, a)
    else if a.Exit? then w.(child := Exited(a.restart))
    else
      var app := w.child.app;
      var (d, pc) := AppNext(w.disk, app, a);
      World(d, w.sup, Running(app.(pc := pc)))
  }

  function Init(): World {
    World(Disk(Store({}, map[], map[]), None, None, None, None, None), Down, NoChild)
  }

  // ---------------------------------------------------------------- the invariant

  /** A link that is there resolves to the complete image it names. */
  predicate Resolves(s: Store, l: Link) {
    l.Some? ==> Extracted(s, l.value)
  }

  /** Where the storage may hold half-removed directories under final names: until this application has cleaned up. */
  predicate Swept(pc: Pc) {
    !(pc.Boot? || pc.Commit? || pc.Unmark? || pc.Cleaning?)
  }

  ghost predicate DiskInv(d: Disk) {
    && Consistent(d.store) && RightDirs(d.store)
    && Resolves(d.store, d.entrypoint)
    && Resolves(d.store, d.attempt)
    // an attempt is always marked, and only an installed system makes one
    && (d.attempt.Some? ==> d.marker == d.attempt)
    && (d.entrypoint.None? ==> d.attempt.None? && NoBrokenFinals(d.store))
  }

  ghost predicate SupInv(w: World) {
    var d := w.disk;
    && (w.sup.Down? || w.sup.Start? || w.sup.Install? || w.sup.LoopHead? || w.sup.TakeAttempt? || w.sup.Spawn? ==>
          w.child.NoChild?)
    && (!(w.sup.Down? || w.sup.Start? || w.sup.Install?) ==> d.entrypoint.Some?)
    && (w.sup.Install? ==> d.entrypoint.None? && JobOk(d.store, w.sup.job))
    && (w.sup.TakeAttempt? ==> d.attempt.Some?)
    && (w.sup.Spawn? ==> d.attempt.None?)
    && (w.sup.Spawn? && w.sup.trial ==> d.attempting.Some? && Resolves(d.store, d.attempting))
  }

  ghost predicate AppInv(d: Disk, app: App) {
    var pc := app.pc;
    && d.entrypoint.Some?
    // only an application on its way out has made an attempt
    && (pc.Leaving? <==> d.attempt.Some?)
    // it runs from the entrypoint, or from the attempt that it is about to commit
    && (d.entrypoint == Some(app.sha)
        || (app.trial && (pc.Boot? || pc.Commit?) && d.attempting == Some(app.sha) && Extracted(d.store, app.sha)))
    && (pc.Boot? && app.trial && d.attempting.Some? ==> d.attempting == Some(app.sha) && Extracted(d.store, app.sha))
    && (pc.Commit? ==> app.trial && d.attempting == Some(app.sha) && Extracted(d.store, app.sha))
    && (app.trial && !pc.Boot? && !pc.Commit? ==> d.attempting.None?)
    && (pc.Unmark? ==> app.trial)
    && (pc.Cleaning? ==> CleanOk(d.store, app.sha, pc.phase))
    && (Swept(pc) ==> NoBrokenFinals(d.store))
    // an update is for another image, and after its marker is written it is the marked one
    && (pc.Building? ==> JobOk(d.store, pc.job) && JobFor(pc.job, pc.target))
    && (pc.ProbeTmp? || pc.RemoveTmpLink? || pc.LinkTmp? || pc.Publish? || pc.Leaving? ==>
          Extracted(d.store, pc.target) && d.marker == Some(pc.target))
    && (pc.Publish? ==> d.attemptTmp == Some(pc.target))
    && (pc.Leaving? ==> d.attempt == Some(pc.target))
  }

  /** An update job builds the image that it is for, whatever it downloads. */
  predicate JobFor(j: Job, x: Sha) {
    match j
    case Pull(want) => want == Some(x)
    case Layers(want, _, _, _, _) => want == Some(x)
    case Stream(want, _, _, _, _, _) => want == Some(x)
    case Probe(y) => y == x
    case ReadManifest(y, _) => y == x
    case Unpack(y, _, _, _) => y == x
    case Built(y) => y == x
  }

  ghost predicate Inv(w: World) {
    && DiskInv(w.disk) && SupInv(w)
    && (w.child.Running? ==> AppInv(w.disk, w.child.app))
  }

  lemma InitInv()
    ensures Inv(Init())
  {
  }

  // ---------------------------------------------------------------- preservation

  lemma SupKeepsInv(w: World, a: Action)
    requires Inv(w) && SupEnabled(w, a)
    ensures Inv(SupNext(w, a))
  {
    if a.InstallStep? {
      JobKeeps(w.disk.store, w.sup.job, a.job);
    }
  }

  lemma BuildKeepsInv(d: Disk, app: App, a: Action)
    requires DiskInv(d) && AppInv(d, app) && AppEnabled(d, app, a) && a.BuildStep?
    ensures var (d', pc) := AppNext(d, app, a);
            DiskInv(d') && AppInv(d', app.(pc := pc))
  {
    JobKeeps(d.store, app.pc.job, a.job);
  }

  lemma CleanKeepsInv(d: Disk, app: App, a: Action)
    requires DiskInv(d) && AppInv(d, app) && AppEnabled(d, app, a) && a.CleanOne?
    ensures var (d', pc) := AppNext(d, app, a);
            DiskInv(d') && AppInv(d', app.(pc := pc))
  {
    CleanKeeps(d.store, app.sha, app.pc.phase, a.clean);
  }

  lemma AppKeepsInv(d: Disk, app: App, a: Action)
    requires DiskInv(d) && AppInv(d, app) && AppEnabled(d, app, a) && !a.Exit?
    ensures var (d', pc) := AppNext(d, app, a);
            DiskInv(d') && AppInv(d', app.(pc := pc)) && (d.entrypoint.Some? ==> d'.entrypoint.Some?)
  {
    if a.BuildStep? {
      BuildKeepsInv(d, app, a);
    } else if a.CleanOne? {
      CleanKeepsInv(d, app, a);
    }
  }

  /** Every step of either process, and every crash, keeps the invariant. */
  lemma NextKeepsInv(w: World, a: Action)
    requires Inv(w) && Enabled(w, a)
    ensures Inv(Next(w, a))
  {
    if SupEnabled(w, a) {
      SupKeepsInv(w, a);
    } else if !a.Exit? {
      AppKeepsInv(w.disk, w.child.app, a);
    }
  }
}
