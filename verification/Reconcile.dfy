/**
 The loop that keeps the running applications in step with a directory of wasm files. The
 instance table is shared with the request handlers, so every change of it is a step of its
 own and the handlers see each state in between. An instance is opaque here: its serial number
 tells instances apart, and its source says which file it was built from.
 */
module Reconcile {

  type Key = string

  datatype Source = Source(path: string, modified: nat)

  type Listing = map<Key, Source>

  datatype Instance = Instance(serial: nat, source: Source)

  /** What the loop knows of the last listing, the shared table, and the next serial number. */
  datatype Tables = Tables(previous: Listing, instances: map<Key, Instance>, serial: nat)

  /** Where the loop is in its pass; `todo` holds the names that it has still to come to. */
  datatype Phase =
    | Between
    | Removing(current: Listing, todo: set<Key>)
    | Comparing(current: Listing, todo: set<Key>)
    | Building(current: Listing, todo: set<Key>, key: Key)

  datatype State = State(tables: Tables, phase: Phase)

  datatype Action =
    | List(listing: Listing)
    | Drop(gone: Key)
    | AllDropped
    | Keep(same: Key)
    | Load(changed: Key)
    | Insert
    | PassDone

  predicate Enabled(s: State, a: Action) {
    var t, ph := s.tables, s.phase;
    match a
    case List(_) => ph.Between?
    case Drop(k) => ph.Removing? && k in ph.todo
    case AllDropped => ph.Removing? && ph.todo == {}
    case Keep(k) => ph.Comparing? && k in ph.todo && k in ph.current && k in t.previous && t.previous[k] == ph.current[k]
    case Load(k) => ph.Comparing? && k in ph.todo && k in ph.current && !(k in t.previous && t.previous[k] == ph.current[k])
    case Insert => ph.Building? && ph.key in ph.current
    case PassDone => ph.Comparing? && ph.todo == {}
  }

  function Next(s: State, a: Action): (s': State)
    requires Enabled(s, a)
  {
    var t, ph := s.tables, s.phase;
    match a
    case List(current) => State(t, Removing(current, t.previous.Keys - current.Keys))
    case Drop(k) =>
      State(Tables(t.previous - {k}, t.instances - {k}, t.serial), Removing(ph.current, ph.todo - {k}))
    case AllDropped => State(t, Comparing(ph.current, ph.current.Keys))
    case Keep(k) => State(t, Comparing(ph.current, ph.todo - {k}))
    case Load(k) =>
      State(t.(previous := t.previous[k := ph.current[k]]), Building(ph.current, ph.todo - {k}, k))
    case Insert =>
      State(Tables(t.previous, t.instances[ph.key := Instance(t.serial, ph.current[ph.key])], t.serial + 1),
            Comparing(ph.current, ph.todo))
    case PassDone => State(t, Between)
  }

  function Init(): State {
    State(Tables(map[], map[], 0), Between)
  }

  // ---------------------------------------------------------------- runs

  /** states[k + 1] is the result of actions[k] in states[k]. */
  datatype Run = Run(states: seq<State>, actions: seq<Action>) {
    ghost predicate Valid() {
      && |states| == |actions| + 1
      && states[0] == Init()
      && forall k :: 0 <= k < |actions| ==> StepAt(k)
    }

    ghost predicate StepAt(k: nat)
      requires k < |actions| && |states| == |actions| + 1
    {
      Enabled(states[k], actions[k]) && states[k + 1] == Next(states[k], actions[k])
    }

    ghost function Last(): State
      requires Valid()
    {
      states[|actions|]
    }

    ghost function Then(a: Action): Run
      requires Valid() && Enabled(Last(), a)
    {
      Run(states + [Next(Last(), a)], actions + [a])
    }
  }

  lemma ThenIsValid(run: Run, a: Action)
    requires run.Valid() && Enabled(run.Last(), a)
    ensures run.Then(a).Valid() && run.Then(a).Last() == Next(run.Last(), a)
    ensures Listings(run.Then(a).actions) == Listings(run.actions) + (if a.List? then [a.listing] else [])
  {
    var longer := run.Then(a);
    forall k | 0 <= k < |longer.actions|
      ensures longer.StepAt(k)
    {
      if k < |run.actions| {
        assert run.StepAt(k);
      }
    }
    assert longer.actions[..|run.actions|] == run.actions;
  }

  /** The listings that a run has gone through. */
  function Listings(actions: seq<Action>): seq<Listing> {
    if actions == [] then []
    else
      var a := actions[|actions| - 1];
      Listings(actions[..|actions| - 1]) + (if a.List? then [a.listing] else [])
  }

  // ---------------------------------------------------------------- one pass

  /** The table has exactly the listed names, each instance built from its listed file. */
  predicate InStep(t: Tables) {
    && t.instances.Keys == t.previous.Keys
    && forall k :: k in t.instances ==> t.instances[k].source == t.previous[k]
  }

  predicate SerialsBelow(t: Tables) {
    forall k :: k in t.instances ==> t.instances[k].serial < t.serial
  }

  /** A name that the pass begun at t has not changed. */
  ghost predicate Untouched(t: Tables, now: Tables, k: Key) {
    && (k in now.previous <==> k in t.previous) && (k in now.instances <==> k in t.previous)
    && (k in t.previous ==> now.previous[k] == t.previous[k])
    && (k in t.previous && k in t.instances ==> now.instances[k] == t.instances[k])
  }

  /** A name that the pass has dealt with: unchanged files keep their instance, others have a new one. */
  ghost predicate Served(t: Tables, current: Listing, now: Tables, k: Key)
    requires k in current
  {
    && k in now.previous && now.previous[k] == current[k]
    && k in now.instances && now.instances[k].source == current[k]
    && if k in t.previous && t.previous[k] == current[k]
       then k in t.instances && now.instances[k] == t.instances[k]
       else now.instances[k].serial >= t.serial
  }

  /** Where a pass over this listing can be that was begun at t. */
  ghost predicate InPass(t: Tables, s: State) {
    var now, ph := s.tables, s.phase;
    && InStep(t) && t.serial <= now.serial
    && match ph
       case Between => false
       case Removing(current, todo) =>
         && todo <= t.previous.Keys && todo !! current.Keys
         && now.previous.Keys == (t.previous.Keys * current.Keys) + todo
         && (forall k :: k in now.previous ==> Untouched(t, now, k))
         && now.instances.Keys == now.previous.Keys
       case Comparing(current, todo) =>
         && todo <= current.Keys && now.instances.Keys == now.previous.Keys <= current.Keys
         && (forall k :: k in current && k !in todo ==> Served(t, current, now, k))
         && (forall k :: k in todo ==> Untouched(t, now, k))
       case Building(current, todo, key) =>
         && todo <= current.Keys && key in current && key !in todo
         && now.instances.Keys + {key} == now.previous.Keys <= current.Keys
         && (forall k :: k in current && k !in todo && k != key ==> Served(t, current, now, k))
         && (forall k :: k in todo ==> Untouched(t, now, k))
         && now.previous[key] == current[key] && !(key in t.previous && t.previous[key] == current[key])
         && (key in now.instances <==> key in t.previous)
         && (key in t.previous ==> now.instances[key] == t.instances[key])
  }

  lemma PassBegins(s: State, current: Listing)
    requires s.phase.Between? && InStep(s.tables)
    ensures InPass(s.tables, Next(s, List(current)))
  {
  }

  lemma DropKeepsPass(t: Tables, s: State, k: Key)
    requires InPass(t, s) && Enabled(s, Drop(k))
    ensures InPass(t, Next(s, Drop(k)))
  {
    var s' := Next(s, Drop(k));
    assert forall n :: n in s'.tables.previous ==> Untouched(t, s.tables, n);
  }

  lemma AllDroppedKeepsPass(t: Tables, s: State)
    requires InPass(t, s) && Enabled(s, AllDropped)
    ensures InPass(t, Next(s, AllDropped))
  {
    var now := s.tables;
    forall k | k in s.phase.current
      ensures Untouched(t, now, k)
    {
      if k in t.previous {
        assert k in now.previous;
      }
    }
  }

  lemma LoadKeepsPass(t: Tables, s: State, k: Key)
    requires InPass(t, s) && Enabled(s, Load(k))
    ensures InPass(t, Next(s, Load(k)))
  {
    var s', current := Next(s, Load(k)), s.phase.current;
    assert Untouched(t, s.tables, k);
    forall n | n in s'.phase.todo
      ensures Untouched(t, s'.tables, n)
    {
      assert Untouched(t, s.tables, n);
    }
    forall n | n in current && n !in s'.phase.todo && n != k
      ensures Served(t, current, s'.tables, n)
    {
      assert Served(t, current, s.tables, n);
    }
  }

  lemma InsertKeepsPass(t: Tables, s: State)
    requires InPass(t, s) && Enabled(s, Insert)
    ensures InPass(t, Next(s, Insert))
  {
    var s', current, key := Next(s, Insert), s.phase.current, s.phase.key;
    assert forall n :: n in s.phase.todo ==> Untouched(t, s.tables, n);
    forall n | n in current && n !in s.phase.todo
      ensures Served(t, current, s'.tables, n)
    {
      assert n != key ==> Served(t, current, s.tables, n);
    }
  }

  lemma StepKeepsPass(t: Tables, s: State, a: Action)
    requires InPass(t, s) && Enabled(s, a) && !a.PassDone?
    ensures InPass(t, Next(s, a))
  {
    match a
    case Drop(k) => DropKeepsPass(t, s, k);
    case AllDropped => AllDroppedKeepsPass(t, s);
    case Keep(k) => assert Untouched(t, s.tables, k);
    case Load(k) => LoadKeepsPass(t, s, k);
    case Insert => InsertKeepsPass(t, s);
  }

  /** What a completed pass achieves. */
  ghost predicate Pass(t: Tables, current: Listing, t': Tables) {
    && t'.previous == current && t'.instances.Keys == current.Keys
    && forall k :: k in current ==> Served(t, current, t', k)
  }

  lemma PassEnds(t: Tables, s: State)
    requires InPass(t, s) && Enabled(s, PassDone)
    ensures Pass(t, s.phase.current, s.tables) && InStep(s.tables)
  {
    var current, now := s.phase.current, s.tables;
    forall k | k in current
      ensures Served(t, current, now, k)
    {
    }
    assert now.previous == current;
  }

  // ---------------------------------------------------------------- every run

  /** The pass that state m is in began with action i. */
  ghost predicate PassSince(run: Run, i: nat, m: nat)
    requires run.Valid() && m < |run.states|
  {
    && i < m && run.actions[i].List? && run.states[i].phase.Between?
    && InPass(run.states[i].tables, run.states[m])
    && run.states[m].phase.current == run.actions[i].listing
    && forall k :: i < k < m ==> !run.actions[k].List? && !run.actions[k].PassDone?
  }

  /** Between passes the table is in step; inside one there is the listing that began it. */
  lemma {:induction false} PassStart(run: Run, m: nat) returns (i: nat)
    requires run.Valid() && m < |run.states|
    ensures run.states[m].phase.Between? ==> InStep(run.states[m].tables)
    ensures !run.states[m].phase.Between? ==> PassSince(run, i, m)
    decreases m
  {
    i := 0;
    if m > 0 {
      i := PassStart(run, m - 1);
      assert run.StepAt(m - 1);
      var s, a := run.states[m - 1], run.actions[m - 1];
      if a.List? {
        PassBegins(s, a.listing);
        i := m - 1;
      } else if a.PassDone? {
        PassEnds(run.states[i].tables, s);
      } else {
        StepKeepsPass(run.states[i].tables, s, a);
      }
    }
  }

  /**
   After each completed pass, in any iteration order, the table has exactly the listed names,
   each built from its listed path and time; unchanged files kept their instance and new or
   changed ones have a new one.
   */
  lemma TableFollowsListing(run: Run, j: nat) returns (i: nat)
    requires run.Valid() && j < |run.actions| && run.actions[j].PassDone?
    ensures i < j && run.actions[i].List?
    ensures forall k :: i < k < j ==> !run.actions[k].List?
    ensures Pass(run.states[i].tables, run.actions[i].listing, run.states[j + 1].tables)
    ensures forall k :: k in run.actions[i].listing ==>
              k in run.states[j + 1].tables.instances
              && run.states[j + 1].tables.instances[k].source == run.actions[i].listing[k]
  {
    assert run.StepAt(j);
    i := PassStart(run, j);
    PassEnds(run.states[i].tables, run.states[j]);
    var current, t' := run.actions[i].listing, run.states[j + 1].tables;
    assert forall k :: k in current ==> Served(run.states[i].tables, current, t', k);
  }

  /**
   What the handlers can see in the middle of a pass: every name that was in step before the
   pass and is still listed is in the table all the time, built from its old or its new file,
   and nothing else than old and new names is there.
   */
  lemma NoGapInService(run: Run, m: nat) returns (i: nat)
    requires run.Valid() && m < |run.states| && !run.states[m].phase.Between?
    ensures PassSince(run, i, m)
    ensures var before, current, now := run.states[i].tables.previous, run.actions[i].listing, run.states[m].tables.instances;
            && (forall k :: k in before && k in current ==>
                  k in now && (now[k].source == before[k] || now[k].source == current[k]))
            && (forall k :: k in now && k !in before ==> k in current && now[k].source == current[k])
            && (forall k :: k in now && k !in current ==> k in before && now[k].source == before[k])
  {
    i := PassStart(run, m);
    var t, s := run.states[i].tables, run.states[m];
    forall k | (k in t.previous && k in s.phase.current) || k in s.tables.instances
      ensures k in s.tables.instances && (k in t.previous || k in s.phase.current)
      ensures (k in t.previous && s.tables.instances[k].source == t.previous[k])
              || (k in s.phase.current && s.tables.instances[k].source == s.phase.current[k])
    {
      if s.phase.Removing? {
        assert k in s.tables.previous && Untouched(t, s.tables, k);
      } else if k in s.phase.todo {
        assert Untouched(t, s.tables, k);
      } else if !(s.phase.Building? && k == s.phase.key) {
        assert k in s.phase.current;
        assert Served(t, s.phase.current, s.tables, k);
      }
    }
  }

  /** Application k is up, from this file, and the pass under way leaves it alone. */
  predicate Steady(s: State, k: Key, source: Source, instance: Instance) {
    && k in s.tables.previous && s.tables.previous[k] == source
    && k in s.tables.instances && s.tables.instances[k] == instance
    && (!s.phase.Between? ==> k in s.phase.current && s.phase.current[k] == source)
    && (s.phase.Removing? ==> k !in s.phase.todo)
    && (s.phase.Building? ==> s.phase.key != k)
  }

  lemma SteadyStep(s: State, a: Action, k: Key, source: Source, instance: Instance)
    requires Steady(s, k, source, instance) && Enabled(s, a)
    requires a.List? ==> k in a.listing && a.listing[k] == source
    ensures Steady(Next(s, a), k, source, instance)
  {
  }

  /**
   An application that no listing changes is served by the very same instance in every state,
   the middle of passes included, over any number of passes.
   */
  lemma {:induction false} UnchangedAppKeepsInstance(run: Run, k: Key, i: nat, j: nat)
    requires run.Valid() && i <= j < |run.states|
    requires run.states[i].phase.Between? && k in run.states[i].tables.previous
    requires forall n :: i <= n < j && run.actions[n].List? ==>
               k in run.actions[n].listing && run.actions[n].listing[k] == run.states[i].tables.previous[k]
    ensures k in run.states[i].tables.instances
    ensures Steady(run.states[j], k, run.states[i].tables.previous[k], run.states[i].tables.instances[k])
    decreases j - i
  {
    var p := PassStart(run, i);
    if i < j {
      UnchangedAppKeepsInstance(run, k, i, j - 1);
      assert run.StepAt(j - 1);
      SteadyStep(run.states[j - 1], run.actions[j - 1], k, run.states[i].tables.previous[k], run.states[i].tables.instances[k]);
    }
  }

  /** Serial numbers only grow and are never given twice. */
  lemma {:induction false} SerialsGrow(run: Run, i: nat, j: nat)
    requires run.Valid() && i <= j < |run.states|
    ensures SerialsBelow(run.states[i].tables) && run.states[i].tables.serial <= run.states[j].tables.serial
    decreases j
  {
    if i < j {
      SerialsGrow(run, i, j - 1);
      assert run.StepAt(j - 1);
    } else if i > 0 {
      SerialsGrow(run, i - 1, i - 1);
      assert run.StepAt(i - 1);
    }
  }

  /**
   When a pass completes, an application whose file is new or changed is served by an instance
   younger than every instance that any handler could see before the pass began.
   */
  lemma ChangedAppGetsNewInstance(run: Run, j: nat, k: Key) returns (i: nat)
    requires run.Valid() && j < |run.actions| && run.actions[j].PassDone?
    ensures i < j && run.actions[i].List?
    ensures forall n :: i < n < j ==> !run.actions[n].List?
    ensures var before, current := run.states[i].tables.previous, run.actions[i].listing;
            k in current && !(k in before && before[k] == current[k]) ==>
              && k in run.states[j + 1].tables.instances
              && forall m, n :: 0 <= m <= i && n in run.states[m].tables.instances ==>
                   run.states[m].tables.instances[n].serial < run.states[j + 1].tables.instances[k].serial
  {
    i := TableFollowsListing(run, j);
    var t, current := run.states[i].tables, run.actions[i].listing;
    if k in current && !(k in t.previous && t.previous[k] == current[k]) {
      assert Served(t, current, run.states[j + 1].tables, k);
      forall m, n | 0 <= m <= i && n in run.states[m].tables.instances
        ensures run.states[m].tables.instances[n].serial < run.states[j + 1].tables.instances[k].serial
      {
        SerialsGrow(run, m, i);
      }
    }
  }

  // ---------------------------------------------------------------- the loop

  /** A longer run in which nothing was listed since. */
  ghost predicate Continues(a: Run, b: Run) {
    && a.actions <= b.actions && a.states <= b.states
    && forall k :: |a.actions| <= k < |b.actions| ==> !b.actions[k].List?
  }

  lemma {:induction false} NothingListed(actions: seq<Action>, n: nat)
    requires n <= |actions| && forall k :: n <= k < |actions| ==> !actions[k].List?
    ensures Listings(actions) == Listings(actions[..n])
    decreases |actions|
  {
    if n < |actions| {
      var front := actions[..|actions| - 1];
      NothingListed(front, n);
      assert front[..n] == actions[..n];
    } else {
      assert actions[..n] == actions;
    }
  }

  /** From the listing to the end of its pass. */
  lemma PassOf(before: Run, begun: Run, done: Run, current: Listing)
    requires before.Valid() && before.Last().phase.Between? && begun == before.Then(List(current))
    requires done.Valid() && Continues(begun, done) && Enabled(done.Last(), PassDone)
    ensures var end := done.Then(PassDone);
            Pass(before.Last().tables, current, done.Last().tables)
            && Listings(end.actions) == Listings(before.actions) + [current]
  {
    var end, i, j := done.Then(PassDone), |before.actions|, |done.actions|;
    ThenIsValid(before, List(current));
    ThenIsValid(done, PassDone);
    assert done.actions[..i + 1] == begun.actions;
    assert end.actions[i] == begun.actions[i] && end.states[i] == begun.states[i];
    NothingListed(done.actions, i + 1);
    var p := TableFollowsListing(end, j);
    assert p == i;
  }

  class AppSync {
    var previous: Listing
    var instances: map<Key, Instance>
    var serial: nat
    ghost var run: Run

    ghost function View(): Tables
      reads this
    {
      Tables(previous, instances, serial)
    }

    /** What the object has done so far is a run, and this is where it has got to. */
    ghost predicate At(phase: Phase)
      reads this
    {
      run.Valid() && run.Last() == State(View(), phase)
    }

    constructor ()
      ensures At(Between) && Listings(run.actions) == []
    {
      previous, instances, serial := map[], map[], 0;
      run := Run([Init()], []);
    }

    ghost method Record(a: Action)
      requires run.Valid() && Enabled(run.Last(), a)
      modifies this`run
      ensures run == old(run).Then(a) && run.Valid() && run.Last() == Next(old(run.Last()), a)
      ensures !a.List? ==> Continues(old(run), run)
    {
      ThenIsValid(run, a);
      run := run.Then(a);
    }

    /** Drops the applications whose file is gone. */
    method RemoveMissing(current: Listing)
      requires At(Removing(current, previous.Keys - current.Keys))
      modifies this
      ensures At(Comparing(current, current.Keys))
      ensures Continues(old(run), run)
    {
      var toRemove := set k | k in previous && k !in current;
      assert toRemove == previous.Keys - current.Keys;
      while toRemove != {}
        invariant At(Removing(current, toRemove))
        invariant Continues(old(run), run)
      {
        var k :| k in toRemove;
        previous := previous - {k};
        instances := instances - {k};
        toRemove := toRemove - {k};
        Record(Drop(k));
      }
      Record(AllDropped);
    }

    /** Loads one application again, or for the first time. */
    method LoadApp(k: Key, current: Listing, ghost todo: set<Key>)
      requires At(Comparing(current, todo)) && k in todo && k in current && !(k in previous && previous[k] == current[k])
      modifies this
      ensures At(Comparing(current, todo - {k}))
      ensures Continues(old(run), run)
    {
      previous := previous[k := current[k]];
      Record(Load(k));
      instances := instances[k := Instance(serial, current[k])];
      serial := serial + 1;
      Record(Insert);
    }

    /** Goes through the listing in any order. */
    method LoadChanged(current: Listing)
      requires At(Comparing(current, current.Keys))
      modifies this
      ensures At(Comparing(current, {}))
      ensures Continues(old(run), run)
    {
      var todo := current.Keys;
      while todo != {}
        invariant At(Comparing(current, todo)) && todo <= current.Keys
        invariant Continues(old(run), run)
      {
        var k :| k in todo;
        if k in previous && previous[k] == current[k] {
          Record(Keep(k));
        } else {
          LoadApp(k, current, todo);
        }
        todo := todo - {k};
      }
    }

    /** One pass: what it does is a run of single steps, and what it achieves is the whole listing. */
    method SyncPass(current: Listing)
      requires At(Between)
      modifies this
      ensures At(Between) && Pass(old(View()), current, View())
      ensures Listings(run.actions) == old(Listings(run.actions)) + [current]
    {
      ghost var before := run;
      Record(List(current));
      ghost var begun := run;
      RemoveMissing(current);
      LoadChanged(current);
      ghost var done := run;
      Record(PassDone);
      PassOf(before, begun, done, current);
    }

    /** `sync_apps` over any sequence of directory listings. */
    method SyncApps(listings: seq<Listing>)
      requires At(Between)
      modifies this
      ensures At(Between) && Listings(run.actions) == old(Listings(run.actions)) + listings
    {
      for n := 0 to |listings|
        invariant At(Between) && Listings(run.actions) == old(Listings(run.actions)) + listings[..n]
      {
        SyncPass(listings[n]);
        assert listings[..n + 1] == listings[..n] + [listings[n]];
      }
      assert listings[..|listings|] == listings;
    }
  }
}
