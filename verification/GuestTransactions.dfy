/**
 The host side of a guest's SQLite transactions: a flag, a table of transaction handles and
 one database connection. Statements are arbitrary functions of the database; a statement
 that fails leaves the database as it was and traps the guest.
 */
module GuestTransactions {

  datatype Option<T> = None | Some(value: T)

  datatype Effect<Db, Rows> = Done(db: Db, rows: Rows) | Failed

  type Stmt<!Db, !Rows> = Db -> Effect<Db, Rows>

  type Handle = nat

  /** The connection: what is committed, and what the open transaction sees. */
  datatype Conn<Db> = Conn(committed: Db, open: Option<Db>) {
    function Sees(): Db {
      if open.Some? then open.value else committed
    }

    function Write(db: Db): Conn<Db> {
      if open.Some? then Conn(committed, Some(db)) else Conn(db, None)
    }
  }

  /** `table` maps each handle to its running flag. */
  datatype Host<Db> = Host(conn: Conn<Db>, inTx: bool, table: map<Handle, bool>)

  /** `index` is the free index that the resource table picks for a new handle. */
  datatype Call<!Db, !Rows> =
    | Begin(index: Handle)
    | TxRun(h: Handle, stmt: Stmt<Db, Rows>)
    | Commit(h: Handle)
    | Rollback(h: Handle)
    | Drop(h: Handle)
    | PlainRun(stmt: Stmt<Db, Rows>)

  datatype Reply<Rows> = Ok | NewHandle(h: Handle) | Answer(rows: Rows) | Bad | Trap

  predicate Allowed<Db, Rows>(s: Host<Db>, call: Call<Db, Rows>) {
    call.Begin? ==> call.index !in s.table
  }

  function RunStmt<Db, Rows>(s: Host<Db>, stmt: Stmt<Db, Rows>): (r: (Host<Db>, Reply<Rows>)) {
    match stmt(s.conn.Sees())
    case Failed => (s, Trap)
    case Done(db, rows) => (s.(conn := s.conn.Write(db)), Answer(rows))
  }

  function Step<Db, Rows>(s: Host<Db>, call: Call<Db, Rows>): (r: (Host<Db>, Reply<Rows>)) {
    match call
    case Begin(h) =>
      if s.inTx then (s, Bad)
      else (Host(Conn(s.conn.committed, Some(s.conn.committed)), true, s.table[h := true]), NewHandle(h))
    case TxRun(h, stmt) =>
      if h !in s.table then (s, Trap)
      else if !s.table[h] then (s, Bad)
      else RunStmt(s, stmt)
    case Commit(h) =>
      if h !in s.table then (s, Trap)
      else if !s.table[h] then (s, Bad)
      else (Host(Conn(s.conn.Sees(), None), false, s.table[h := false]), Ok)
    case Rollback(h) =>
      if h !in s.table then (s, Trap)
      else if !s.table[h] then (s, Bad)
      else (Host(Conn(s.conn.committed, None), false, s.table[h := false]), Ok)
    case Drop(h) =>
      if h !in s.table then (s, Trap)
      else if s.table[h] then (Host(Conn(s.conn.committed, None), false, s.table - {h}), Ok)
      else (s.(table := s.table - {h}), Ok)
    case PlainRun(stmt) =>
      if s.inTx then (s, Bad) else RunStmt(s, stmt)
  }

  // ---------------------------------------------------------------- the serial reference

  /**
   What an observer of calls and replies can write down: the units in the order in which they
   took effect, and for each open handle the statements answered so far.
   */
  datatype History<!Db, !Rows> = History(units: seq<seq<Stmt<Db, Rows>>>, pending: map<Handle, seq<Stmt<Db, Rows>>>)

  function Record<Db, Rows>(hist: History<Db, Rows>, call: Call<Db, Rows>, reply: Reply<Rows>): History<Db, Rows> {
    match call
    case Begin(_) =>
      if reply.NewHandle? then hist.(pending := hist.pending[reply.h := []]) else hist
    case TxRun(h, stmt) =>
      if reply.Answer? && h in hist.pending then hist.(pending := hist.pending[h := hist.pending[h] + [stmt]]) else hist
    case Commit(h) =>
      if reply.Ok? && h in hist.pending then History(hist.units + [hist.pending[h]], hist.pending - {h}) else hist
    case Rollback(h) => if reply.Ok? then hist.(pending := hist.pending - {h}) else hist
    case Drop(h) => if reply.Ok? then hist.(pending := hist.pending - {h}) else hist
    case PlainRun(stmt) => if reply.Answer? then hist.(units := hist.units + [[stmt]]) else hist
  }

  function ApplyOne<Db, Rows>(db: Db, stmt: Stmt<Db, Rows>): Db {
    match stmt(db)
    case Done(db', _) => db'
    case Failed => db
  }

  function ApplyAll<Db, Rows>(db: Db, stmts: seq<Stmt<Db, Rows>>): Db {
    if stmts == [] then db else ApplyOne(ApplyAll(db, stmts[..|stmts| - 1]), stmts[|stmts| - 1])
  }

  /** The database after the units, one whole unit after another. */
  function Serial<Db, Rows>(db: Db, units: seq<seq<Stmt<Db, Rows>>>): Db {
    if units == [] then db else ApplyAll(Serial(db, units[..|units| - 1]), units[|units| - 1])
  }

  function RunningHandles(table: map<Handle, bool>): set<Handle> {
    set h | h in table && table[h]
  }

  ghost predicate Inv<Db, Rows>(db0: Db, s: Host<Db>, hist: History<Db, Rows>) {
    && s.conn.committed == Serial(db0, hist.units)
    && hist.pending.Keys == RunningHandles(s.table)
    && (s.inTx <==> s.conn.open.Some?)
    && (!s.inTx ==> RunningHandles(s.table) == {})
    && (s.inTx ==> exists h :: RunningHandles(s.table) == {h} && s.conn.open == Some(ApplyAll(s.conn.committed, hist.pending[h])))
  }

  lemma InitInv<Db, Rows>(db0: Db)
    ensures Inv(db0, Host(Conn(db0, None), false, map[]), History<Db, Rows>.History([], map[]))
  {
    assert RunningHandles(map[]) == {};
  }

  lemma SerialSnoc<Db, Rows>(db: Db, units: seq<seq<Stmt<Db, Rows>>>, u: seq<Stmt<Db, Rows>>)
    ensures Serial(db, units + [u]) == ApplyAll(Serial(db, units), u)
  {
    assert (units + [u])[..|units|] == units;
  }

  lemma ApplyAllSnoc<Db, Rows>(db: Db, stmts: seq<Stmt<Db, Rows>>, t: Stmt<Db, Rows>)
    ensures ApplyAll(db, stmts + [t]) == ApplyOne(ApplyAll(db, stmts), t)
  {
    assert (stmts + [t])[..|stmts|] == stmts;
  }

  lemma ApplyAllOne<Db, Rows>(db: Db, t: Stmt<Db, Rows>)
    ensures ApplyAll(db, [t]) == ApplyOne(db, t)
  {
    assert [] + [t] == [t];
    ApplyAllSnoc(db, [], t);
  }

  lemma PlainKeepsInv<Db, Rows>(db0: Db, s: Host<Db>, hist: History<Db, Rows>, stmt: Stmt<Db, Rows>)
    requires Inv(db0, s, hist)
    ensures var (s', reply) := Step(s, PlainRun(stmt));
            Inv(db0, s', Record(hist, PlainRun(stmt), reply))
  {
    SerialSnoc(db0, hist.units, [stmt]);
    ApplyAllOne(Serial(db0, hist.units), stmt);
  }

  lemma TxRunKeepsInv<Db, Rows>(db0: Db, s: Host<Db>, hist: History<Db, Rows>, h: Handle, stmt: Stmt<Db, Rows>)
    requires Inv(db0, s, hist)
    ensures var (s', reply) := Step(s, TxRun(h, stmt));
            Inv(db0, s', Record(hist, TxRun(h, stmt), reply))
  {
    var (s', reply) := Step(s, TxRun(h, stmt));
    if h in s.table && s.table[h] {
      assert h in RunningHandles(s.table);
      if reply.Answer? {
        ApplyAllSnoc(s.conn.committed, hist.pending[h], stmt);
        var hist' := Record(hist, TxRun(h, stmt), reply);
        assert hist'.pending.Keys == hist.pending.Keys;
        assert RunningHandles(s'.table) == {h};
      }
    }
  }

  lemma BeginKeepsInv<Db, Rows>(db0: Db, s: Host<Db>, hist: History<Db, Rows>, h: Handle)
    requires Inv(db0, s, hist) && h !in s.table
    ensures var (s', reply) := Step<Db, Rows>(s, Begin(h));
            Inv(db0, s', Record(hist, Begin(h), reply))
  {
    var (s', reply) := Step<Db, Rows>(s, Begin(h));
    if !s.inTx {
      assert RunningHandles(s'.table) == {h};
    }
  }

  lemma EndKeepsInv<Db, Rows>(db0: Db, s: Host<Db>, hist: History<Db, Rows>, call: Call<Db, Rows>)
    requires Inv(db0, s, hist) && (call.Commit? || call.Rollback? || call.Drop?)
    ensures var (s', reply) := Step(s, call);
            Inv(db0, s', Record(hist, call, reply))
  {
    var (s', reply) := Step(s, call);
    var h := call.h;
    if h in s.table && s.table[h] {
      assert h in RunningHandles(s.table);
      assert RunningHandles(s.table) == {h};
      forall g | g in s'.table && s'.table[g]
        ensures g in RunningHandles(s.table) && g != h
      {
        assert g in s.table && s.table[g];
      }
      assert RunningHandles(s'.table) == {};
      SerialSnoc(db0, hist.units, hist.pending[h]);
    } else {
      assert RunningHandles(s'.table) == RunningHandles(s.table);
      assert call.Drop? || s' == s;
    }
  }

  lemma StepKeepsInv<Db, Rows>(db0: Db, s: Host<Db>, hist: History<Db, Rows>, call: Call<Db, Rows>)
    requires Inv(db0, s, hist) && Allowed(s, call)
    ensures var (s', reply) := Step(s, call);
            Inv(db0, s', Record(hist, call, reply))
  {
    match call
    case Begin(h) => BeginKeepsInv(db0, s, hist, h);
    case TxRun(h, stmt) => TxRunKeepsInv(db0, s, hist, h, stmt);
    case PlainRun(stmt) => PlainKeepsInv(db0, s, hist, stmt);
    case Commit(_) => EndKeepsInv(db0, s, hist, call);
    case Rollback(_) => EndKeepsInv(db0, s, hist, call);
    case Drop(_) => EndKeepsInv(db0, s, hist, call);
  }

  // ---------------------------------------------------------------- the host object

  /** The host with its flag, table and connection; the history of its calls is ghost state. */
  class SqliteHost<Db, Rows> {
    var committed: Db
    var open: Option<Db>
    var inTx: bool
    var table: map<Handle, bool>
    ghost const db0: Db
    ghost var hist: History<Db, Rows>

    ghost function View(): Host<Db>
      reads this
    {
      Host(Conn(committed, open), inTx, table)
    }

    /** The committed database is the serial one, and the flag agrees with the table. */
    ghost predicate Valid()
      reads this
    {
      Inv(db0, View(), hist)
    }

    constructor (db: Db)
      ensures Valid() && db0 == db && View() == Host(Conn(db, None), false, map[]) && hist == History([], map[])
    {
      committed, open, inTx, table := db, None, false, map[];
      db0, hist := db, History([], map[]);
      new;
      InitInv<Db, Rows>(db);
    }

    method BeginTx(index: Handle) returns (reply: Reply<Rows>)
      requires Valid() && index !in table
      modifies this
      ensures Valid() && (View(), reply) == Step(old(View()), Begin(index))
      ensures hist == Record(old(hist), Begin(index), reply)
    {
      StepKeepsInv(db0, View(), hist, Begin(index));
      if inTx {
        return Bad;
      }
      open := Some(committed);
      inTx := true;
      table := table[index := true];
      reply := NewHandle(index);
      hist := Record(hist, Begin(index), reply);
    }

    method RunOnConnection(stmt: Stmt<Db, Rows>) returns (reply: Reply<Rows>)
      modifies this`committed, this`open
      ensures (View(), reply) == RunStmt(old(View()), stmt)
    {
      match stmt(if open.Some? then open.value else committed) {
        case Failed => reply := Trap;
        case Done(db, rows) =>
          if open.Some? {
            open := Some(db);
          } else {
            committed := db;
          }
          reply := Answer(rows);
      }
    }

    method RunInTx(h: Handle, stmt: Stmt<Db, Rows>) returns (reply: Reply<Rows>)
      requires Valid()
      modifies this
      ensures Valid() && (View(), reply) == Step(old(View()), TxRun(h, stmt))
      ensures hist == Record(old(hist), TxRun(h, stmt), reply)
    {
      StepKeepsInv(db0, View(), hist, TxRun(h, stmt));
      if h !in table {
        return Trap;
      }
      if !table[h] {
        return Bad;
      }
      reply := RunOnConnection(stmt);
      hist := Record(hist, TxRun(h, stmt), reply);
    }

    method RunPlain(stmt: Stmt<Db, Rows>) returns (reply: Reply<Rows>)
      requires Valid()
      modifies this
      ensures Valid() && (View(), reply) == Step(old(View()), PlainRun(stmt))
      ensures hist == Record(old(hist), PlainRun(stmt), reply)
    {
      StepKeepsInv(db0, View(), hist, PlainRun(stmt));
      if inTx {
        return Bad;
      }
      reply := RunOnConnection(stmt);
      hist := Record(hist, PlainRun(stmt), reply);
    }

    /** Commit and rollback differ only in what becomes of the open transaction. */
    method EndTx(h: Handle, commit: bool) returns (reply: Reply<Rows>)
      requires Valid()
      modifies this
      ensures var call := if commit then Commit(h) else Rollback(h);
              Valid() && (View(), reply) == Step(old(View()), call) && hist == Record(old(hist), call, reply)
    {
      ghost var call: Call<Db, Rows> := if commit then Commit(h) else Rollback(h);
      StepKeepsInv(db0, View(), hist, call);
      if h !in table {
        return Trap;
      }
      if !table[h] {
        return Bad;
      }
      table := table[h := false];
      inTx := false;
      if commit && open.Some? {
        committed := open.value;
      }
      open := None;
      reply := Ok;
      hist := Record(hist, call, reply);
    }

    method DropTx(h: Handle) returns (reply: Reply<Rows>)
      requires Valid()
      modifies this
      ensures Valid() && (View(), reply) == Step(old(View()), Call<Db, Rows>.Drop(h))
      ensures hist == Record(old(hist), Call<Db, Rows>.Drop(h), reply)
    {
      ghost var call := Call<Db, Rows>.Drop(h);
      StepKeepsInv(db0, View(), hist, call);
      if h !in table {
        return Trap;
      }
      var running := table[h];
      table := table - {h};
      if running {
        inTx := false;
        open := None;
      }
      reply := Ok;
      hist := Record(hist, call, reply);
    }
  }

  // ---------------------------------------------------------------- every run

  /** The calls in the order in which the host serves them, their replies, and the states in between. */
  datatype Run<!Db, !Rows> = Run(db0: Db, states: seq<Host<Db>>, calls: seq<Call<Db, Rows>>, replies: seq<Reply<Rows>>) {
    ghost predicate Valid() {
      && |states| == |calls| + 1 && |replies| == |calls|
      && states[0] == Host(Conn(db0, None), false, map[])
      && forall k :: 0 <= k < |calls| ==> StepAt(k)
    }

    ghost predicate StepAt(k: nat)
      requires k < |calls| && |states| == |calls| + 1 && |replies| == |calls|
    {
      Allowed(states[k], calls[k]) && (states[k + 1], replies[k]) == Step(states[k], calls[k])
    }

    /** What the observer of the first k calls and replies has written down. */
    function Seen(k: nat): History<Db, Rows>
      requires k <= |calls| && |replies| == |calls|
    {
      if k == 0 then History([], map[]) else Record(Seen(k - 1), calls[k - 1], replies[k - 1])
    }

    /** Call k is a begin that got handle h. */
    predicate Grants(h: Handle, k: nat)
      requires k < |calls| && |replies| == |calls|
    {
      calls[k].Begin? && replies[k] == NewHandle(h)
    }

    /** Call k drops handle h. */
    predicate Drops(h: Handle, k: nat)
      requires k < |calls| && |replies| == |calls|
    {
      calls[k].Drop? && calls[k].h == h && replies[k] == Ok
    }

    /** Call k commits, rolls back or drops handle h. */
    predicate Ends(h: Handle, k: nat)
      requires k < |calls| && |replies| == |calls|
    {
      (calls[k].Commit? || calls[k].Rollback? || calls[k].Drop?) && calls[k].h == h && replies[k] == Ok
    }

    /** Before call i: handle h was granted and has not been dropped since. */
    ghost predicate Known(h: Handle, i: nat)
      requires i <= |calls| && |replies| == |calls|
    {
      exists k :: 0 <= k < i && Grants(h, k) && forall n :: k < n < i ==> !Drops(h, n)
    }

    /** Before call i: handle h was granted and has not ended since. */
    ghost predicate Open(h: Handle, i: nat)
      requires i <= |calls| && |replies| == |calls|
    {
      exists k :: 0 <= k < i && Grants(h, k) && forall n :: k < n < i ==> !Ends(h, n)
    }
  }

  lemma {:induction false} RunKeepsInv<Db, Rows>(run: Run<Db, Rows>, i: nat)
    requires run.Valid() && i < |run.states|
    ensures Inv(run.db0, run.states[i], run.Seen(i))
  {
    if i == 0 {
      InitInv<Db, Rows>(run.db0);
    } else {
      RunKeepsInv(run, i - 1);
      assert run.StepAt(i - 1);
      StepKeepsInv(run.db0, run.states[i - 1], run.Seen(i - 1), run.calls[i - 1]);
    }
  }

  /**
   Guest transactions are serial: in every interleaving of calls the flag is up exactly when
   one handle is running, and the committed database is the result of running, one after
   another, the plain statements and the whole statement lists of the handles that committed.
   */
  lemma TransactionsAreSerial<Db, Rows>(run: Run<Db, Rows>, i: nat)
    requires run.Valid() && i < |run.states|
    ensures run.states[i].conn.committed == Serial(run.db0, run.Seen(i).units)
    ensures run.states[i].inTx <==> |RunningHandles(run.states[i].table)| == 1
    ensures !run.states[i].inTx <==> |RunningHandles(run.states[i].table)| == 0
  {
    RunKeepsInv(run, i);
    var s, hist := run.states[i], run.Seen(i);
    if s.inTx {
      var h :| RunningHandles(s.table) == {h} && s.conn.open == Some(ApplyAll(s.conn.committed, hist.pending[h]));
      assert |{h}| == 1;
    }
  }

  // ---------------------------------------------------------------- which calls succeed

  /** One step of the table, seen from calls and replies. */
  lemma KnownStep<Db, Rows>(run: Run<Db, Rows>, h: Handle, i: nat)
    requires run.Valid() && 0 < i <= |run.calls|
    ensures run.Known(h, i) <==> run.Grants(h, i - 1) || (run.Known(h, i - 1) && !run.Drops(h, i - 1))
    ensures run.Open(h, i) <==> run.Grants(h, i - 1) || (run.Open(h, i - 1) && !run.Ends(h, i - 1))
  {
    if run.Known(h, i) {
      var k :| 0 <= k < i && run.Grants(h, k) && forall n :: k < n < i ==> !run.Drops(h, n);
      assert k < i - 1 ==> !run.Drops(h, i - 1);
    }
    if run.Open(h, i) {
      var k :| 0 <= k < i && run.Grants(h, k) && forall n :: k < n < i ==> !run.Ends(h, n);
      assert k < i - 1 ==> !run.Ends(h, i - 1);
    }
  }

  lemma TableStep<Db, Rows>(s: Host<Db>, call: Call<Db, Rows>, h: Handle)
    requires Allowed(s, call)
    ensures var (s', reply) := Step(s, call);
            var grants := call.Begin? && reply == NewHandle(h);
            var ends := (call.Commit? || call.Rollback? || call.Drop?) && call.h == h && reply == Ok;
            && (h in s'.table <==> grants || (h in s.table && !(call.Drop? && ends)))
            && (h in s'.table && s'.table[h] <==> grants || (h in s.table && s.table[h] && !ends))
  {
  }

  /** The table holds exactly the handles that were granted and not dropped, running if not ended. */
  lemma {:induction false} TableIsWhatWasGranted<Db, Rows>(run: Run<Db, Rows>, h: Handle, i: nat)
    requires run.Valid() && i < |run.states|
    ensures h in run.states[i].table <==> run.Known(h, i)
    ensures h in run.states[i].table && run.states[i].table[h] <==> run.Open(h, i)
  {
    if i > 0 {
      TableIsWhatWasGranted(run, h, i - 1);
      assert run.StepAt(i - 1);
      TableStep(run.states[i - 1], run.calls[i - 1], h);
      KnownStep(run, h, i);
    }
  }

  /** The flag is up exactly when some handle is open. */
  lemma FlagIsOpenHandle<Db, Rows>(run: Run<Db, Rows>, i: nat)
    requires run.Valid() && i < |run.states|
    ensures run.states[i].inTx <==> exists h :: run.Open(h, i)
  {
    RunKeepsInv(run, i);
    var s := run.states[i];
    if s.inTx {
      var h :| RunningHandles(s.table) == {h} && s.conn.open == Some(ApplyAll(s.conn.committed, run.Seen(i).pending[h]));
      assert h in RunningHandles(s.table);
      TableIsWhatWasGranted(run, h, i);
    }
    if h :| run.Open(h, i) {
      TableIsWhatWasGranted(run, h, i);
      assert h in RunningHandles(s.table);
    }
  }

  /**
   A begin gets a handle if and only if every handle granted before has been committed, rolled
   back or dropped since, and otherwise it is refused.
   */
  lemma BeginIsExact<Db, Rows>(run: Run<Db, Rows>, i: nat)
    requires run.Valid() && i < |run.calls| && run.calls[i].Begin?
    ensures run.replies[i] == if exists h :: run.Open(h, i) then Bad else NewHandle(run.calls[i].index)
    ensures run.Grants(run.calls[i].index, i) ==> !run.Known(run.calls[i].index, i)
  {
    assert run.StepAt(i);
    FlagIsOpenHandle(run, i);
    TableIsWhatWasGranted(run, run.calls[i].index, i);
  }

  /**
   Commit and rollback succeed exactly on an open handle, are refused exactly on a handle that
   has ended, and trap on one that was never granted or is dropped; a drop succeeds exactly on a
   handle that was granted and not dropped.
   */
  lemma EndsAreExact<Db, Rows>(run: Run<Db, Rows>, i: nat)
    requires run.Valid() && i < |run.calls|
    ensures var call := run.calls[i];
            && (call.Commit? || call.Rollback? ==>
                  run.replies[i] == if !run.Known(call.h, i) then Trap else if run.Open(call.h, i) then Ok else Bad)
            && (call.Drop? ==> run.replies[i] == if run.Known(call.h, i) then Ok else Trap)
  {
    assert run.StepAt(i);
    var call := run.calls[i];
    if call.Commit? || call.Rollback? || call.Drop? {
      TableIsWhatWasGranted(run, call.h, i);
    }
  }

  /** The reply of a statement that runs on this database. */
  function Answered<Db, Rows>(stmt: Stmt<Db, Rows>, db: Db): Reply<Rows> {
    match stmt(db)
    case Done(_, rows) => Answer(rows)
    case Failed => Trap
  }

  /**
   A statement on a handle is refused exactly if the handle has ended and traps if it is not
   known; on an open handle it runs on the committed units followed by the handle's own earlier
   statements and nothing else. A plain statement is refused exactly if some handle is open and
   otherwise runs on the committed units alone.
   */
  lemma AnswersAreSerial<Db, Rows>(run: Run<Db, Rows>, i: nat)
    requires run.Valid() && i < |run.calls|
    ensures var call, before := run.calls[i], Serial(run.db0, run.Seen(i).units);
            && (call.TxRun? && !run.Known(call.h, i) ==> run.replies[i] == Trap)
            && (call.TxRun? && run.Known(call.h, i) && !run.Open(call.h, i) ==> run.replies[i] == Bad)
            && (call.TxRun? && run.Open(call.h, i) ==>
                  call.h in run.Seen(i).pending
                  && run.replies[i] == Answered(call.stmt, ApplyAll(before, run.Seen(i).pending[call.h])))
            && (call.PlainRun? ==>
                  run.replies[i] == if exists h :: run.Open(h, i) then Bad else Answered(call.stmt, before))
  {
    RunKeepsInv(run, i);
    assert run.StepAt(i);
    var s, call := run.states[i], run.calls[i];
    FlagIsOpenHandle(run, i);
    if call.TxRun? {
      TableIsWhatWasGranted(run, call.h, i);
      if run.Open(call.h, i) {
        assert call.h in RunningHandles(s.table);
      }
    }
  }
}
