/**
 The table of tunnel connections. Each client handler registers its connection under its
 domain, closing and replacing the one before it, waits until its connection is closed, and
 then removes its entry if the entry is still its own.
 */
module TunnelTable {

  type Domain = string
  type ConnId = nat

  // ---------------------------------------------------------------- the critical sections

  /** The connection that registering under this domain closes, if any. */
  function Displaced(conns: map<Domain, ConnId>, domain: Domain): set<ConnId> {
    if domain in conns then {conns[domain]} else {}
  }

  /** The table after a handler has gone: its own entry is removed, anyone else's stays. */
  function Without(conns: map<Domain, ConnId>, domain: Domain, conn: ConnId): map<Domain, ConnId> {
    if domain in conns && conns[domain] == conn then conns - {domain} else conns
  }

  // ---------------------------------------------------------------- the handlers

  datatype Pc = Waiting | Finished

  /** A handler is known by its connection, which is its alone. */
  datatype Handler = Handler(domain: Domain, pc: Pc)

  datatype State = State(conns: map<Domain, ConnId>, closed: set<ConnId>, handlers: map<ConnId, Handler>)

  datatype Action =
    | Register(conn: ConnId, domain: Domain)
    | CloseByPeer(conn: ConnId)
    | Finish(conn: ConnId)

  predicate Enabled(s: State, a: Action) {
    match a
    case Register(c, _) => c !in s.handlers
    case CloseByPeer(_) => true
    case Finish(c) => c in s.handlers && s.handlers[c].pc.Waiting? && c in s.closed
  }

  function Next(s: State, a: Action): (s': State)
    requires Enabled(s, a)
  {
    match a
    case Register(c, d) =>
      State(s.conns[d := c],
            s.closed + Displaced(s.conns, d),
            s.handlers[c := Handler(d, Waiting)])
    case CloseByPeer(c) => s.(closed := s.closed + {c})
    case Finish(c) =>
      var d := s.handlers[c].domain;
      State(Without(s.conns, d, c),
            s.closed,
            s.handlers[c := s.handlers[c].(pc := Finished)])
  }

  function Init(): State {
    State(map[], {}, map[])
  }

  ghost predicate Inv(s: State) {
    // each entry has a handler of that domain still waiting on it
    && (forall d :: d in s.conns ==>
          s.conns[d] in s.handlers && s.handlers[s.conns[d]] == Handler(d, Waiting))
    // a registered connection that is not in the table is closed
    && (forall c :: c in s.handlers && !InTable(s, c) ==> c in s.closed)
    // a handler finishes only after its connection closed
    && (forall c :: c in s.handlers && s.handlers[c].pc.Finished? ==> c in s.closed)
  }

  predicate InTable(s: State, c: ConnId)
    requires c in s.handlers
  {
    s.handlers[c].domain in s.conns && s.conns[s.handlers[c].domain] == c
  }

  lemma NextKeepsInv(s: State, a: Action)
    requires Inv(s) && Enabled(s, a)
    ensures Inv(Next(s, a))
  {
    var s' := Next(s, a);
    forall c | c in s'.handlers && !InTable(s', c)
      ensures c in s'.closed
    {
      if c in s.handlers && InTable(s, c) {
        assert s.conns[s.handlers[c].domain] == c;
      }
    }
  }

  // ---------------------------------------------------------------- the shared map

  /**
   The shared map, with the closed flags of the connections and, as ghost state, the handlers.
   Each method is one critical section of a handler, or an event on a connection.
   */
  class ConnectionsMap {
    var conns: map<Domain, ConnId>
    var closed: set<ConnId>
    ghost var handlers: map<ConnId, Handler>

    ghost function View(): State
      reads this
    {
      State(conns, closed, handlers)
    }

    constructor ()
      ensures View() == Init() && Inv(View())
    {
      conns, closed, handlers := map[], {}, map[];
    }

    /** A handler stores its connection, closing the one before it. */
    method Enter(domain: Domain, conn: ConnId)
      requires Inv(View()) && Enabled(View(), Register(conn, domain))
      modifies this
      ensures Inv(View()) && View() == Next(old(View()), Register(conn, domain))
    {
      NextKeepsInv(View(), Register(conn, domain));
      if domain in conns {
        closed := closed + {conns[domain]};
      }
      conns := conns[domain := conn];
      handlers := handlers[conn := Handler(domain, Waiting)];
    }

    method PeerCloses(conn: ConnId)
      requires Inv(View())
      modifies this
      ensures Inv(View()) && View() == Next(old(View()), CloseByPeer(conn))
    {
      NextKeepsInv(View(), CloseByPeer(conn));
      closed := closed + {conn};
    }

    /** A handler whose connection has closed removes its entry if the entry is still its own. */
    method Leave(domain: Domain, conn: ConnId)
      requires Inv(View()) && Enabled(View(), Finish(conn)) && handlers[conn].domain == domain
      modifies this
      ensures Inv(View()) && View() == Next(old(View()), Finish(conn))
    {
      NextKeepsInv(View(), Finish(conn));
      if domain in conns {
        if conns[domain] == conn {
          conns := conns - {domain};
        }
      }
      handlers := handlers[conn := Handler(domain, Finished)];
    }
  }

  // ---------------------------------------------------------------- every run

  ghost predicate IsRun(states: seq<State>, actions: seq<Action>) {
    && |states| == |actions| + 1
    && states[0] == Init()
    && forall k :: 0 <= k < |actions| ==> StepAt(states, actions, k)
  }

  ghost predicate StepAt(states: seq<State>, actions: seq<Action>, k: nat)
    requires k < |actions| && |states| == |actions| + 1
  {
    Enabled(states[k], actions[k]) && states[k + 1] == Next(states[k], actions[k])
  }

  lemma {:induction false} RunKeepsInv(states: seq<State>, actions: seq<Action>, i: nat)
    requires IsRun(states, actions) && i < |states|
    ensures Inv(states[i])
  {
    if i > 0 {
      RunKeepsInv(states, actions, i - 1);
      assert StepAt(states, actions, i - 1);
      NextKeepsInv(states[i - 1], actions[i - 1]);
    }
  }

  /**
   In every interleaving of handlers, each entry of the table is a connection whose handler is
   still there to remove it, and every registered connection without an entry is closed.
   */
  lemma TableMatchesHandlers(states: seq<State>, actions: seq<Action>, i: nat)
    requires IsRun(states, actions) && i < |states|
    ensures var s := states[i];
            && (forall d :: d in s.conns ==>
                  s.conns[d] in s.handlers && s.handlers[s.conns[d]] == Handler(d, Waiting))
            && (forall c :: c in s.handlers && s.handlers[c].domain !in s.conns ==> c in s.closed)
            && (forall c, d :: c in s.handlers && d in s.conns && s.handlers[c].domain == d && s.conns[d] != c
                  ==> c in s.closed)
  {
    RunKeepsInv(states, actions, i);
    var s := states[i];
    forall c | c in s.handlers && (s.handlers[c].domain !in s.conns || s.conns[s.handlers[c].domain] != c)
      ensures c in s.closed
    {
      assert !InTable(s, c);
    }
  }

  /** Action k registers c for d, and by state j nobody has registered for d since and c has not finished. */
  ghost predicate Standing(states: seq<State>, actions: seq<Action>, d: Domain, c: ConnId, k: nat, j: nat)
    requires IsRun(states, actions) && j < |states|
  {
    && k < j && actions[k] == Register(c, d)
    && forall n :: k < n < j ==> !(actions[n].Register? && actions[n].domain == d) && actions[n] != Finish(c)
  }

  /** As long as it stands, a registration has the entry. */
  lemma {:induction false} StandingHasEntry(states: seq<State>, actions: seq<Action>, d: Domain, c: ConnId, k: nat, j: nat)
    requires IsRun(states, actions) && j < |states| && Standing(states, actions, d, c, k, j)
    ensures d in states[j].conns && states[j].conns[d] == c
    decreases j
  {
    assert StepAt(states, actions, j - 1);
    if k < j - 1 {
      assert Standing(states, actions, d, c, k, j - 1);
      StandingHasEntry(states, actions, d, c, k, j - 1);
    }
  }

  lemma {:induction false} EntryHasStanding(states: seq<State>, actions: seq<Action>, d: Domain, j: nat) returns (k: nat)
    requires IsRun(states, actions) && j < |states| && d in states[j].conns
    ensures Standing(states, actions, d, states[j].conns[d], k, j)
    decreases j
  {
    assert StepAt(states, actions, j - 1);
    var a := actions[j - 1];
    if a.Register? && a.domain == d {
      k := j - 1;
    } else {
      RunKeepsInv(states, actions, j - 1);
      k := EntryHasStanding(states, actions, d, j - 1);
    }
  }

  /**
   The newest connection wins: in every run the entry of a domain is c if and only if c is the
   connection registered last for the domain and its handler has not finished since.
   */
  lemma EntryIsLastRegistration(states: seq<State>, actions: seq<Action>, d: Domain, c: ConnId, j: nat)
    requires IsRun(states, actions) && j < |states|
    ensures d in states[j].conns && states[j].conns[d] == c <==> exists k :: Standing(states, actions, d, c, k, j)
  {
    if d in states[j].conns && states[j].conns[d] == c {
      var k := EntryHasStanding(states, actions, d, j);
    }
    if k :| Standing(states, actions, d, c, k, j) {
      StandingHasEntry(states, actions, d, c, k, j);
    }
  }

  /** Action k registers another connection for the domain whose entry c has, or c's peer closes it. */
  ghost predicate Closes(states: seq<State>, actions: seq<Action>, c: ConnId, k: nat)
    requires IsRun(states, actions) && k < |actions|
  {
    || actions[k] == CloseByPeer(c)
    || (actions[k].Register? && exists n :: Standing(states, actions, actions[k].domain, c, n, k))
  }

  /** A connection is closed if and only if its peer closed it or a later registration replaced it. */
  lemma {:induction false} ClosedIffReplacedOrLeft(states: seq<State>, actions: seq<Action>, c: ConnId, j: nat)
    requires IsRun(states, actions) && j < |states|
    ensures c in states[j].closed <==> exists k :: 0 <= k < j && Closes(states, actions, c, k)
    decreases j
  {
    if j > 0 {
      assert StepAt(states, actions, j - 1);
      ClosedIffReplacedOrLeft(states, actions, c, j - 1);
      var a := actions[j - 1];
      if a.Register? {
        EntryIsLastRegistration(states, actions, a.domain, c, j - 1);
      }
      assert c in states[j].closed <==> c in states[j - 1].closed || Closes(states, actions, c, j - 1);
    }
  }

  /** A finishing handler removes its own entry and never a replacement. */
  lemma FinishNeverRemovesReplacement(states: seq<State>, actions: seq<Action>, i: nat, d: Domain)
    requires IsRun(states, actions) && i < |actions| && actions[i].Finish?
    requires d in states[i].conns && states[i].conns[d] != actions[i].conn
    ensures d in states[i + 1].conns && states[i + 1].conns[d] == states[i].conns[d]
    ensures states[i].conns[d] in states[i + 1].handlers && states[i + 1].handlers[states[i].conns[d]].pc.Waiting?
  {
    RunKeepsInv(states, actions, i);
    RunKeepsInv(states, actions, i + 1);
    assert StepAt(states, actions, i);
  }

  /** When every handler has finished the table is empty: no entry is left behind. */
  lemma NothingIsLeftBehind(states: seq<State>, actions: seq<Action>, i: nat)
    requires IsRun(states, actions) && i < |states|
    requires forall c :: c in states[i].handlers ==> states[i].handlers[c].pc.Finished?
    ensures states[i].conns == map[]
  {
    RunKeepsInv(states, actions, i);
    var s := states[i];
    assert forall d :: d in s.conns ==> s.conns[d] in s.handlers && s.handlers[s.conns[d]].pc.Waiting?;
  }

  /** Of all connections ever registered for a domain at most one is open. */
  lemma OneOpenConnectionPerDomain(states: seq<State>, actions: seq<Action>, i: nat, a: ConnId, b: ConnId)
    requires IsRun(states, actions) && i < |states|
    requires a in states[i].handlers && b in states[i].handlers
    requires states[i].handlers[a].domain == states[i].handlers[b].domain
    requires a !in states[i].closed && b !in states[i].closed
    ensures a == b
  {
    RunKeepsInv(states, actions, i);
    assert InTable(states[i], a) && InTable(states[i], b);
  }
}
