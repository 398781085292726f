/**
 What a revocation does not do: it leaves the connections of other sessions alone, refuses no request but those
 of the session, and does not wait for ever.  A connection changes by its own closing only.
 */
module Revocations {
  import opened Outcomes
  import Db = AccessStore
  import opened Gateway

  /** How the state of a connection may change in one step that names it, or not at all. */
  predicate ClosesAs(kind: Kind, act: Act, conn: nat, before: State, after: State) {
    if act == BeginClose(conn) then after == (if before == Open then Closing else before)
    else if act == Unregister(conn) then
      after == (if before == Closing || (before == Open && kind == Ssh) then Gone else before)
    else after == before
  }

  /** The step is one transaction of the database. */
  predicate OfStore(act: Act) {
    act.Store? || act.Resolve? || act.RevokeRow? || act.RevokeRows?
  }

  lemma StoreStepLeavesGate(kind: Kind, w: World, s: Step, idle: nat)
    requires OfStore(s.act)
    ensures var w1 := Next(kind, w, s, idle);
      w1.conns == w.conns && w1.gate == w.gate &&
      forall session | session in w1.calls ::
        w1.calls[session].Told? || (session in w.calls && w1.calls[session] == w.calls[session])
  {
    hide Db.Next, Db.Grants;
  }

  lemma GateStepClosesItself(kind: Kind, w: World, s: Step, idle: nat, conn: nat)
    requires conn in w.conns && conn <= w.gate.nextId && !OfStore(s.act)
    ensures var w1 := Next(kind, w, s, idle);
      conn in w1.conns && conn <= w1.gate.nextId &&
      w1.conns[conn] == w.conns[conn].(state := w1.conns[conn].state) &&
      ClosesAs(kind, s.act, conn, w.conns[conn].state, w1.conns[conn].state)
  {
    hide Db.Next, Db.Grants, Pruned, Revoking, Resolving;
  }

  /** A connection stays, with its session and its times; only its own close moves it on, one state at a time. */
  lemma ConnectionsCloseOnlyThemselves(kind: Kind, w: World, s: Step, idle: nat, conn: nat)
    requires conn in w.conns && conn <= w.gate.nextId
    ensures var w1 := Next(kind, w, s, idle);
      conn in w1.conns && conn <= w1.gate.nextId &&
      w1.conns[conn] == w.conns[conn].(state := w1.conns[conn].state) &&
      ClosesAs(kind, s.act, conn, w.conns[conn].state, w1.conns[conn].state)
  {
    hide Next;
    if OfStore(s.act) {
      StoreStepLeavesGate(kind, w, s, idle);
    } else {
      GateStepClosesItself(kind, w, s, idle, conn);
    }
  }

  /** Nobody closes connection `conn` in these steps. */
  predicate LeavesAlone(steps: seq<Step>, conn: nat) {
    forall i | 0 <= i < |steps| :: steps[i].act != BeginClose(conn) && steps[i].act != Unregister(conn)
  }

  /** However many sessions are revoked meanwhile, a connection that nobody closes stays registered as it is. */
  lemma {:induction false} ConnectionStays(kind: Kind, w: World, steps: seq<Step>, idle: nat, conn: nat)
    requires Good(kind, w) && conn in w.conns && w.conns[conn].state != Gone && LeavesAlone(steps, conn)
    ensures var w1 := Run(kind, w, steps, idle);
      conn in w1.conns && w1.conns[conn] == w.conns[conn] && conn in Of(w1.gate.active, w.conns[conn].session)
    decreases |steps|
  {
    hide Next, Good;
    IsListed(kind, w, conn);
    if steps != [] {
      ConnectionsCloseOnlyThemselves(kind, w, steps[0], idle, conn);
      StepKeepsGood(kind, w, steps[0], idle);
      assert LeavesAlone(steps[1..], conn) by {
        assert forall i | 0 <= i < |steps[1..]| :: steps[1..][i] == steps[i + 1];
      }
      ConnectionStays(kind, Next(kind, w, steps[0], idle), steps[1..], idle, conn);
    }
  }

  lemma IsListed(kind: Kind, w: World, conn: nat)
    requires Good(kind, w) && conn in w.conns
    ensures conn <= w.gate.nextId && (w.conns[conn].state != Gone ==> conn in Of(w.gate.active, w.conns[conn].session))
  {
    assert Numbered(w, conn) && Listed(w, w.conns[conn].session, conn);
  }

  /** No handler has set a tombstone for the session, or it was more than ten minutes ago. */
  predicate NotTombstoned(w: World, session: nat, now: int) {
    session in w.calls ==>
      match w.calls[session]
      case Told => true
      case Ending(_, at) => at + 600 * Db.SECOND < now
      case Returned(at) => at + 600 * Db.SECOND < now
  }

  /**
   In every run a request that has resolved its grant gets a connection of its own, open and registered, if and
   only if its session is not under a tombstone; nothing else changes in the registry or for other connections.
   */
  lemma RequestIsAdmittedExactlyWhen(kind: Kind, w0: World, steps: seq<Step>, idle: nat, tick: nat, request: nat)
    requires Begins(w0) && Db.Good(w0.store) && request in Run(kind, w0, steps, idle).requests
    ensures var w := Run(kind, w0, steps, idle); var now := w.store.clock + tick;
      var w1 := Next(kind, w, Step(tick, Register(request)), idle);
      var r := w.requests[request]; var id := w.gate.nextId + 1;
      if NotTombstoned(w, r.session, now) then
        id !in w.conns && w1.conns == w.conns[id := Conn(r.session, Open, r.resolvedAt, now)] &&
        w1.gate.nextId == id && w1.gate.active == w.gate.active[r.session := Of(w.gate.active, r.session) + {id}]
      else
        w1.conns == w.conns && w1.gate.active == w.gate.active && w1.gate.nextId == w.gate.nextId
  {
    hide Run, Over;
    BeginningIsGood(kind, w0);
    RunKeepsGood(kind, w0, steps, idle);
    var w := Run(kind, w0, steps, idle);
    assert CallGood(w, w.requests[request].session) && Numbered(w, w.gate.nextId + 1);
  }

  lemma BeginningIsGood(kind: Kind, w: World)
    requires Begins(w) && Db.Good(w.store)
    ensures Good(kind, w)
  {
  }

  /***** The handler returns *****/

  /** What the handler still waits for are connections of its session. */
  predicate WaitsForOwn(w: World, session: nat) {
    session in w.calls && w.calls[session].Ending? ==>
      forall c | c in w.calls[session].rest :: c in w.conns && w.conns[c].session == session && c <= w.gate.nextId
  }

  lemma GateStepWaitsForOwn(kind: Kind, w: World, s: Step, idle: nat, session: nat)
    requires WaitsForOwn(w, session) && !OfStore(s.act)
    requires forall c :: Listed(w, session, c) && Numbered(w, c)
    ensures var w1 := Next(kind, w, s, idle);
      session in w1.calls && w1.calls[session].Ending? ==>
        forall c | c in w1.calls[session].rest :: c in w.conns && w.conns[c].session == session && c <= w.gate.nextId
  {
    hide Db.Next, Db.Grants, Pruned, Revoking, Resolving, Registered, Unregistered;
    assert forall c | c in Of(w.gate.active, session) :: Listed(w, session, c) && Numbered(w, c);
  }

  lemma StepWaitsForOwn(kind: Kind, w: World, s: Step, idle: nat, session: nat)
    requires WaitsForOwn(w, session)
    requires forall c :: Listed(w, session, c) && Numbered(w, c)
    ensures WaitsForOwn(Next(kind, w, s, idle), session)
  {
    hide Next, ClosesAs, Listed;
    if OfStore(s.act) {
      StoreStepLeavesGate(kind, w, s, idle);
    } else {
      GateStepWaitsForOwn(kind, w, s, idle, session);
      forall c | c in w.conns && c <= w.gate.nextId
        ensures var w1 := Next(kind, w, s, idle);
          c in w1.conns && w1.conns[c].session == w.conns[c].session && c <= w1.gate.nextId
      {
        ConnectionsCloseOnlyThemselves(kind, w, s, idle, c);
      }
    }
  }

  lemma {:induction false} RunWaitsForOwn(kind: Kind, w: World, steps: seq<Step>, idle: nat, session: nat)
    requires Good(kind, w) && WaitsForOwn(w, session)
    ensures WaitsForOwn(Run(kind, w, steps, idle), session)
    decreases |steps|
  {
    hide Next, WaitsForOwn;
    if steps != [] {
      StepWaitsForOwn(kind, w, steps[0], idle, session);
      hide Good;
      StepKeepsGood(kind, w, steps[0], idle);
      RunWaitsForOwn(kind, Next(kind, w, steps[0], idle), steps[1..], idle, session);
    }
  }

  /** Connections of other sessions are as they were. */
  ghost predicate OthersUntouched(w: World, w1: World, session: nat) {
    forall c | c in w.conns && w.conns[c].session != session :: c in w1.conns && w1.conns[c] == w.conns[c]
  }

  function CloseAndCollect(session: nat, conn: nat): seq<Step> {
    [Step(0, BeginClose(conn)), Step(0, Unregister(conn)), Step(0, Collect(session, conn))]
  }

  /** Closing a connection lets the handler go on without it. */
  lemma ClosingIsAwaited(kind: Kind, w: World, idle: nat, session: nat, conn: nat)
    requires session in w.calls && w.calls[session].Ending? && conn in w.conns && w.conns[conn].session == session
    requires conn in w.calls[session].rest
    ensures var w1 := Run(kind, w, CloseAndCollect(session, conn), idle);
      w1.calls == w.calls[session := Ending(w.calls[session].rest - {conn}, w.calls[session].at)] &&
      w1.conns == w.conns[conn := w.conns[conn].(state := Gone)] && w1.gate.nextId == w.gate.nextId
  {
    hide Db.Next;
    var steps := CloseAndCollect(session, conn);
    var wa := Next(kind, w, steps[0], idle);
    var wb := Next(kind, wa, steps[1], idle);
    assert wb.conns == w.conns[conn := w.conns[conn].(state := Gone)] && wb.calls == w.calls;
    var wc := Next(kind, wb, steps[2], idle);
    RunOfTwo(kind, w, steps[0], steps[1], idle);
    RunConcat(kind, w, [steps[0], steps[1]], [steps[2]], idle);
    assert steps == [steps[0], steps[1]] + [steps[2]];
    RunOne(kind, wb, steps[2], idle);
  }

  /**
   A handler that has set its tombstone returns once the connections it found are closed, whatever else there is:
   the schedule given closes these and touches no other session's.
   */
  lemma {:induction false} HandlerReturns(kind: Kind, w: World, idle: nat, session: nat) returns (steps: seq<Step>)
    requires session in w.calls && w.calls[session].Ending? && WaitsForOwn(w, session)
    ensures var w1 := Run(kind, w, steps, idle);
      session in w1.calls && w1.calls[session] == Returned(w.calls[session].at) && OthersUntouched(w, w1, session)
    ensures forall s | s in steps :: s.tick == 0 && !s.act.Register? && !s.act.Store?
    decreases |w.calls[session].rest|
  {
    var rest := w.calls[session].rest;
    if rest == {} {
      steps := [Step(0, Return(session))];
      assert steps[1..] == [];
      assert Run(kind, w, steps, idle) == Run(kind, Next(kind, w, steps[0], idle), [], idle);
    } else {
      var conn :| conn in rest;
      var first := CloseAndCollect(session, conn);
      ClosingIsAwaited(kind, w, idle, session, conn);
      hide Run, Next;
      var w1 := Run(kind, w, first, idle);
      var more := HandlerReturns(kind, w1, idle, session);
      RunConcat(kind, w, first, more, idle);
      steps := first + more;
    }
  }

  /** In every run, a handler that has been told of a revocation can set its tombstone and return. */
  lemma RevocationCanFinish(kind: Kind, w0: World, before: seq<Step>, idle: nat, session: nat)
    returns (steps: seq<Step>)
    requires Begins(w0) && Db.Good(w0.store)
    requires var w := Run(kind, w0, before, idle); session in w.calls && !w.calls[session].Returned?
    ensures var w := Run(kind, w0, before, idle); var w1 := Run(kind, w, steps, idle);
      session in w1.calls && w1.calls[session].Returned? && OthersUntouched(w, w1, session)
    ensures forall s | s in steps :: s.tick == 0 && !s.act.Register? && !s.act.Store?
  {
    hide Run, Next, Good;
    BeginningIsGood(kind, w0);
    RunKeepsGood(kind, w0, before, idle);
    RunWaitsForOwn(kind, w0, before, idle, session);
    var w := Run(kind, w0, before, idle);
    if w.calls[session].Told? {
      var first := Step(0, Tombstone(session, 0));
      var w1 := Next(kind, w, first, idle);
      TombstoneEnds(kind, w, idle, session);
      StepKeepsGood(kind, w, first, idle);
      GoodListed(kind, w, session);
      StepWaitsForOwn(kind, w, first, idle, session);
      var more := HandlerReturns(kind, w1, idle, session);
      steps := [first] + more;
      RunConcat(kind, w, [first], more, idle);
      RunOne(kind, w, first, idle);
    } else {
      steps := HandlerReturns(kind, w, idle, session);
    }
  }

  lemma RunOne(kind: Kind, w: World, s: Step, idle: nat)
    ensures Run(kind, w, [s], idle) == Next(kind, w, s, idle)
  {
    hide Next;
    assert [s][1..] == [];
    assert Run(kind, w, [s], idle) == Run(kind, Next(kind, w, s, idle), [], idle);
  }

  lemma GoodListed(kind: Kind, w: World, session: nat)
    requires Good(kind, w)
    ensures forall c :: Listed(w, session, c) && Numbered(w, c)
  {
  }

  /** The tombstone carries the handler's clock, and the handler goes on with what is registered then. */
  lemma TombstoneEnds(kind: Kind, w: World, idle: nat, session: nat)
    requires session in w.calls && w.calls[session].Told?
    ensures var w1 := Next(kind, w, Step(0, Tombstone(session, 0)), idle);
      session in w1.calls && w1.calls[session] == Ending(Of(w.gate.active, session), w.store.clock) &&
      w1.conns == w.conns && w1.gate.active == w.gate.active &&
      session in w1.gate.revoked && w1.gate.revoked[session] == w.store.clock
  {
  }
}
