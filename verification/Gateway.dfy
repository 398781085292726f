/**
 Revoking a running access session: the revoking handler of `api/api.go`, and the registry of live
 connections and tombstones that the Web gateway and the SSH gateway keep so that a request which
 resolved its grant just before the revocation cannot open a connection after it.

 One step is one database transaction, one section under the registry's lock, or one close of a
 connection; steps of any number of requests, handlers and closers interleave freely.
 */
module Gateway {
  import opened Outcomes
  import Db = AccessStore

  const TOMBSTONE_LIFE: int := 600 * Db.SECOND

  /** Web connections leave the registry when closed; SSH ones are cancelled and leave it later. */
  datatype Kind = Web | Ssh

  /***** The registry *****/

  /** Connections by session, times of revocation by session, and the last connection number. */
  datatype Registry = Registry(active: map<nat, set<nat>>, revoked: map<nat, int>, nextId: nat)

  function Of(active: map<nat, set<nat>>, session: nat): set<nat> {
    if session in active then active[session] else {}
  }

  function Pruned(revoked: map<nat, int>, now: int): map<nat, int> {
    map s | s in revoked && !(revoked[s] < now - TOMBSTONE_LIFE) :: revoked[s]
  }

  /** The section of `Revoke` under the lock: the clock is read twice in it. */
  function Tombstoned(g: Registry, session: nat, pruneAt: int, now: int): Registry {
    g.(revoked := Pruned(g.revoked, pruneAt)[session := now])
  }

  predicate Admits(g: Registry, session: nat, now: int) {
    session !in Pruned(g.revoked, now)
  }

  function Registered(g: Registry, session: nat, now: int): Registry {
    var g1 := g.(revoked := Pruned(g.revoked, now));
    if session in g1.revoked then g1
    else g1.(nextId := g.nextId + 1, active := g.active[session := Of(g.active, session) + {g.nextId + 1}])
  }

  function Unregistered(g: Registry, session: nat, id: nat): Registry {
    var left := Of(g.active, session) - {id};
    g.(active := if left == {} then g.active - {session} else g.active[session := left])
  }

  /***** The whole system *****/

  datatype State = Open | Closing | Gone

  datatype Conn = Conn(session: nat, state: State, resolvedAt: int, registeredAt: int)

  /** A request whose grant was resolved and that may dial now. */
  datatype Request = Request(session: nat, resolvedAt: int)

  /** A revoking handler: the row is revoked; the tombstone is set and `rest` is to be closed; done. */
  datatype Call = Told | Ending(rest: set<nat>, at: int) | Returned(at: int)

  datatype World = World(store: Db.World, gate: Registry, conns: map<nat, Conn>,
                         requests: map<nat, Request>, calls: map<nat, Call>)

  datatype Act =
    | Store(op: Db.Op)
    | Resolve(request: nat, id: nat, tokenHash: nat, grantHash: nat)
    | RevokeRow(id: nat)
    | RevokeRows(project: nat, endpoints: set<nat>)
    | Tombstone(id: nat, lag: nat)
    | Register(request: nat)
    | BeginClose(conn: nat)
    | Unregister(conn: nat)
    | Collect(id: nat, conn: nat)
    | Return(id: nat)

  datatype Step = Step(tick: nat, act: Act)

  function Now(w: World, s: Step): int {
    w.store.clock + s.tick
  }

  function Ticked(w: World, now: int): World {
    w.(store := w.store.(clock := now))
  }

  function StoreNext(w: World, tick: nat, op: Db.Op, idle: nat): World {
    w.(store := Db.Next(w.store, Db.Step(tick, op), idle))
  }

  function Resolving(w: World, s: Step, idle: nat): World
    requires s.act.Resolve?
  {
    var op := Db.Op.Resolve(s.act.id, s.act.tokenHash, s.act.grantHash);
    var w1 := StoreNext(w, s.tick, op, idle);
    if Db.Grants(w.store.db, op, s.act.id, Now(w, s), idle) && s.act.request !in w.requests
    then w1.(requests := w.requests[s.act.request := Request(s.act.id, Now(w, s))]) else w1
  }

  /** The rows are revoked and, for those that were active, the handler goes on to the gateways. */
  function Revoking(w: World, tick: nat, op: Db.Op, ids: set<nat>, idle: nat): World {
    StoreNext(w, tick, op, idle).(calls := w.calls + map id | id in ids :: Told)
  }

  function ActiveRow(db: Db.Db, id: nat): set<nat> {
    if id in db.sessions && db.sessions[id].status == Db.Active then {id} else {}
  }

  function Tombstoning(w: World, id: nat, now: int, lag: nat): World {
    if id in w.calls && w.calls[id].Told?
    then Ticked(w, now + lag).(gate := Tombstoned(w.gate, id, now, now + lag),
                               calls := w.calls[id := Ending(Of(w.gate.active, id), now + lag)])
    else Ticked(w, now)
  }

  function Registering(w: World, request: nat, now: int): World {
    if request !in w.requests then Ticked(w, now)
    else
      var r := w.requests[request];
      var w1 := Ticked(w, now).(gate := Registered(w.gate, r.session, now));
      if Admits(w.gate, r.session, now)
      then w1.(conns := w.conns[w.gate.nextId + 1 := Conn(r.session, Open, r.resolvedAt, now)]) else w1
  }

  /** Anyone may start closing a connection: its reader, its writer, the transport or the handler. */
  function BeginningClose(w: World, conn: nat, now: int): World {
    if conn in w.conns && w.conns[conn].state == Open
    then Ticked(w, now).(conns := w.conns[conn := w.conns[conn].(state := Closing)]) else Ticked(w, now)
  }

  /** A Web connection leaves the registry at the end of its close, an SSH one when its handler ends. */
  predicate MayLeave(kind: Kind, state: State) {
    state == Closing || (kind == Ssh && state == Open)
  }

  function Unregistering(w: World, kind: Kind, conn: nat, now: int): World {
    if conn in w.conns && MayLeave(kind, w.conns[conn].state)
    then Ticked(w, now).(gate := Unregistered(w.gate, w.conns[conn].session, conn),
                         conns := w.conns[conn := w.conns[conn].(state := Gone)])
    else Ticked(w, now)
  }

  /** Can the connection still reach the handler's caller as live?  A close waits for whoever closes. */
  predicate Lives(kind: Kind, state: State) {
    state == Open || (kind == Web && state == Closing)
  }

  function Collecting(w: World, kind: Kind, id: nat, conn: nat, now: int): World {
    if id in w.calls && w.calls[id].Ending? && conn in w.conns && !Lives(kind, w.conns[conn].state)
    then Ticked(w, now).(calls := w.calls[id := Ending(w.calls[id].rest - {conn}, w.calls[id].at)])
    else Ticked(w, now)
  }

  function Returning(w: World, id: nat, now: int): World {
    if id in w.calls && w.calls[id].Ending? && w.calls[id].rest == {}
    then Ticked(w, now).(calls := w.calls[id := Returned(w.calls[id].at)])
    else Ticked(w, now)
  }

  function Next(kind: Kind, w: World, s: Step, idle: nat): World {
    var now := Now(w, s);
    match s.act
    case Store(op) => StoreNext(w, s.tick, op, idle)
    case Resolve(_, _, _, _) => Resolving(w, s, idle)
    case RevokeRow(id) => Revoking(w, s.tick, Db.Op.Revoke(id), ActiveRow(w.store.db, id), idle)
    case RevokeRows(project, endpoints) =>
      Revoking(w, s.tick, Db.Op.RevokeResource(project, endpoints), Db.ActiveIn(w.store.db, endpoints, project), idle)
    case Tombstone(id, lag) => Tombstoning(w, id, now, lag)
    case Register(request) => Registering(w, request, now)
    case BeginClose(conn) => BeginningClose(w, conn, now)
    case Unregister(conn) => Unregistering(w, kind, conn, now)
    case Collect(id, conn) => Collecting(w, kind, id, conn, now)
    case Return(id) => Returning(w, id, now)
  }

  function Run(kind: Kind, w: World, steps: seq<Step>, idle: nat): World
    decreases |steps|
  {
    if steps == [] then w else Run(kind, Next(kind, w, steps[0], idle), steps[1..], idle)
  }

  /** Any state of the database, before the gateway has seen a request. */
  predicate Begins(w: World) {
    w.gate == Registry(map[], map[], 0) && w.conns == map[] && w.requests == map[] && w.calls == map[]
  }

  /***** Ended sessions stay ended *****/

  predicate Over(db: Db.Db, id: nat) {
    id in db.logs && (id in db.sessions ==> db.sessions[id].status != Db.Active)
  }

  lemma StepKeepsOver(db: Db.Db, op: Db.Op, now: int, idle: nat, id: nat)
    requires Over(db, id)
    ensures Over(Db.Effect(db, op, now, idle), id)
  {
  }

  lemma RevokeEnds(w: World, op: Db.Op, now: int, idle: nat, id: nat)
    requires Db.Good(w.store) && id in w.store.db.sessions && w.store.db.sessions[id].status == Db.Active
    requires match op
             case Revoke(i) => i == id
             case RevokeResource(project, endpoints) => id in Db.ActiveIn(w.store.db, endpoints, project)
             case _ => false
    ensures Over(Db.Effect(w.store.db, op, now, idle), id)
  {
    assert Db.RowGood(w.store.db, id);
  }

  /***** What always holds *****/

  function Moment(call: Call): int
    requires !call.Told?
  {
    call.at
  }

  /** The registry lists exactly the connections that have not left it. */
  predicate Listed(w: World, session: nat, conn: nat) {
    conn in Of(w.gate.active, session) <==>
      conn in w.conns && w.conns[conn].session == session && w.conns[conn].state != Gone
  }

  predicate Numbered(w: World, conn: nat) {
    conn in w.conns ==> conn <= w.gate.nextId
  }

  /** Nothing is listed under a session without connections. */
  predicate NoEmpties(w: World, session: nat) {
    session in w.gate.active ==> w.gate.active[session] != {}
  }

  /** A tombstone is only set by the one handler that revoked the row, and lasts ten minutes. */
  predicate CallGood(w: World, session: nat) {
    (session in w.gate.revoked ==> session in w.calls && !w.calls[session].Told?) &&
    (session in w.calls ==>
       Over(w.store.db, session) &&
       (!w.calls[session].Told? ==>
          var at := Moment(w.calls[session]);
          at <= w.store.clock &&
          if session in w.gate.revoked then w.gate.revoked[session] == at
          else at + TOMBSTONE_LIFE < w.store.clock))
  }

  /** A request whose session is being revoked was resolved before that. */
  predicate RequestGood(w: World, request: nat) {
    request in w.requests ==>
      var r := w.requests[request];
      r.resolvedAt <= w.store.clock &&
      (r.session in w.calls && !w.calls[r.session].Told? ==> r.resolvedAt <= Moment(w.calls[r.session]))
  }

  /** It was resolved before the revocation and registered more than ten minutes after it. */
  predicate SlippedThrough(c: Conn, at: int) {
    c.resolvedAt <= at && at + TOMBSTONE_LIFE < c.registeredAt
  }

  /** A connection that lives on is about to be closed by the handler, unless it slipped through. */
  predicate Caught(kind: Kind, w: World, conn: nat) {
    conn in w.conns && Lives(kind, w.conns[conn].state) && w.conns[conn].session in w.calls ==>
      var call := w.calls[w.conns[conn].session];
      match call
      case Told => true
      case Ending(rest, at) => conn in rest || SlippedThrough(w.conns[conn], at)
      case Returned(at) => SlippedThrough(w.conns[conn], at)
  }

  ghost predicate Good(kind: Kind, w: World) {
    Db.Good(w.store) &&
    (forall s, c :: Listed(w, s, c)) && (forall c :: Numbered(w, c)) && (forall s :: NoEmpties(w, s)) &&
    (forall s :: CallGood(w, s)) && (forall r :: RequestGood(w, r)) && forall c :: Caught(kind, w, c)
  }

  /** Time passing, with or without a change of the database, keeps it. */
  lemma StoreMoves(kind: Kind, w: World, store1: Db.World)
    requires Good(kind, w) && Db.Good(store1) && w.store.clock <= store1.clock
    requires forall id :: Over(w.store.db, id) ==> Over(store1.db, id)
    ensures Good(kind, w.(store := store1))
  {
    var w1 := w.(store := store1);
    forall s, c ensures Listed(w1, s, c) {
      assert Listed(w, s, c);
    }
    forall c ensures Numbered(w1, c) && Caught(kind, w1, c) {
      assert Numbered(w, c) && Caught(kind, w, c);
    }
    forall s ensures NoEmpties(w1, s) && CallGood(w1, s) {
      assert NoEmpties(w, s) && CallGood(w, s);
    }
    forall r ensures RequestGood(w1, r) {
      assert RequestGood(w, r);
    }
  }

  lemma TickKeepsGood(kind: Kind, w: World, now: int)
    requires Good(kind, w) && w.store.clock <= now
    ensures Good(kind, Ticked(w, now))
  {
    StoreMoves(kind, w, w.store.(clock := now));
  }

  lemma StoreStepKeepsGood(kind: Kind, w: World, tick: nat, op: Db.Op, idle: nat)
    requires Good(kind, w)
    ensures Good(kind, StoreNext(w, tick, op, idle))
  {
    hide Db.Effect;
    Db.StepKeepsGood(w.store, Db.Step(tick, op), idle);
    forall id | Over(w.store.db, id) ensures Over(Db.Effect(w.store.db, op, w.store.clock + tick, idle), id) {
      StepKeepsOver(w.store.db, op, w.store.clock + tick, idle, id);
    }
    StoreMoves(kind, w, Db.Next(w.store, Db.Step(tick, op), idle));
  }

  lemma ResolveKeepsGood(kind: Kind, w: World, s: Step, idle: nat)
    requires Good(kind, w) && s.act.Resolve?
    ensures Good(kind, Resolving(w, s, idle))
  {
    hide Db.Effect, Db.Good, Over;
    var op := Db.Op.Resolve(s.act.id, s.act.tokenHash, s.act.grantHash);
    var w0 := StoreNext(w, s.tick, op, idle);
    var w1 := Resolving(w, s, idle);
    StoreStepKeepsGood(kind, w, s.tick, op, idle);
    forall c ensures Numbered(w1, c) && Caught(kind, w1, c) {
      assert Numbered(w0, c) && Caught(kind, w0, c);
    }
    forall x, c ensures Listed(w1, x, c) {
      assert Listed(w0, x, c);
    }
    forall x ensures NoEmpties(w1, x) && CallGood(w1, x) {
      assert NoEmpties(w0, x) && CallGood(w0, x);
    }
    forall r ensures RequestGood(w1, r) {
      assert RequestGood(w0, r) && CallGood(w, s.act.id);
      OverIsNotResolved(w.store.db, op, s.act.id, Now(w, s), idle);
    }
  }

  lemma OverIsNotResolved(db: Db.Db, op: Db.Op, id: nat, now: int, idle: nat)
    ensures Over(db, id) ==> !Db.Grants(db, op, id, now, idle)
  {
  }

  lemma RevokeKeepsGood(kind: Kind, w: World, tick: nat, op: Db.Op, ids: set<nat>, idle: nat)
    requires Good(kind, w)
    requires forall id | id in ids :: !Over(w.store.db, id) &&
                                  Over(Db.Effect(w.store.db, op, w.store.clock + tick, idle), id)
    ensures Good(kind, Revoking(w, tick, op, ids, idle))
  {
    hide Db.Effect, Db.Good, Over;
    var w0 := StoreNext(w, tick, op, idle);
    var w1 := Revoking(w, tick, op, ids, idle);
    StoreStepKeepsGood(kind, w, tick, op, idle);
    forall id | id in ids ensures id !in w.calls {
      assert CallGood(w, id);
    }
    forall c ensures Numbered(w1, c) && Caught(kind, w1, c) {
      assert Numbered(w0, c) && Caught(kind, w0, c);
    }
    forall x, c ensures Listed(w1, x, c) {
      assert Listed(w0, x, c);
    }
    forall x ensures NoEmpties(w1, x) && CallGood(w1, x) {
      assert NoEmpties(w0, x) && CallGood(w0, x);
    }
    forall r ensures RequestGood(w1, r) {
      assert RequestGood(w0, r);
    }
  }

  lemma TombstoneKeepsGood(kind: Kind, w: World, id: nat, now: int, lag: nat)
    requires Good(kind, w) && w.store.clock <= now
    ensures Good(kind, Tombstoning(w, id, now, lag))
  {
    hide Db.Good, Over;
    TickKeepsGood(kind, w, now);
    if id in w.calls && w.calls[id].Told? {
      var w0 := Ticked(w, now + lag);
      TickKeepsGood(kind, w, now + lag);
      var w1 := Tombstoning(w, id, now, lag);
      forall c ensures Numbered(w1, c) && Caught(kind, w1, c) {
        assert Numbered(w0, c) && Caught(kind, w0, c) && Listed(w0, id, c);
      }
      forall x, c ensures Listed(w1, x, c) {
        assert Listed(w0, x, c);
      }
      forall x ensures NoEmpties(w1, x) && CallGood(w1, x) {
        assert NoEmpties(w0, x) && CallGood(w0, x) && CallGood(w, x);
      }
      forall r ensures RequestGood(w1, r) {
        assert RequestGood(w, r);
      }
    }
  }

  lemma RegisterKeepsGood(kind: Kind, w: World, request: nat, now: int)
    requires Good(kind, w) && w.store.clock <= now
    ensures Good(kind, Registering(w, request, now))
  {
    hide Db.Good, Over;
    TickKeepsGood(kind, w, now);
    if request in w.requests {
      var w1 := Registering(w, request, now);
      var session := w.requests[request].session;
      assert Numbered(w, w.gate.nextId + 1);
      assert RequestGood(w, request) && CallGood(w, session);
      forall c ensures Numbered(w1, c) && Caught(kind, w1, c) {
        assert Numbered(w, c) && Caught(kind, w, c);
      }
      forall x, c ensures Listed(w1, x, c) {
        assert Listed(w, x, c);
      }
      forall x ensures NoEmpties(w1, x) && CallGood(w1, x) {
        assert NoEmpties(w, x) && CallGood(w, x);
      }
      forall r ensures RequestGood(w1, r) {
        assert RequestGood(w, r);
      }
    }
  }

  lemma CloseKeepsGood(kind: Kind, w: World, conn: nat, now: int)
    requires Good(kind, w) && w.store.clock <= now
    ensures Good(kind, BeginningClose(w, conn, now)) && Good(kind, Unregistering(w, kind, conn, now))
  {
    hide Db.Good, Over;
    TickKeepsGood(kind, w, now);
    var w0 := Ticked(w, now);
    var w1, w2 := BeginningClose(w, conn, now), Unregistering(w, kind, conn, now);
    forall c ensures Numbered(w1, c) && Caught(kind, w1, c) && Numbered(w2, c) && Caught(kind, w2, c) {
      assert Numbered(w0, c) && Caught(kind, w0, c);
    }
    forall x, c ensures Listed(w1, x, c) && Listed(w2, x, c) {
      assert Listed(w0, x, c);
    }
    forall x ensures NoEmpties(w1, x) && CallGood(w1, x) && NoEmpties(w2, x) && CallGood(w2, x) {
      assert NoEmpties(w0, x) && CallGood(w0, x);
    }
    forall r ensures RequestGood(w1, r) && RequestGood(w2, r) {
      assert RequestGood(w0, r);
    }
  }

  lemma HandlerKeepsGood(kind: Kind, w: World, id: nat, conn: nat, now: int)
    requires Good(kind, w) && w.store.clock <= now
    ensures Good(kind, Collecting(w, kind, id, conn, now)) && Good(kind, Returning(w, id, now))
  {
    hide Db.Good, Over;
    TickKeepsGood(kind, w, now);
    var w0 := Ticked(w, now);
    var w1, w2 := Collecting(w, kind, id, conn, now), Returning(w, id, now);
    forall c ensures Numbered(w1, c) && Caught(kind, w1, c) && Numbered(w2, c) && Caught(kind, w2, c) {
      assert Numbered(w0, c) && Caught(kind, w0, c);
    }
    forall x, c ensures Listed(w1, x, c) && Listed(w2, x, c) {
      assert Listed(w0, x, c);
    }
    forall x ensures NoEmpties(w1, x) && CallGood(w1, x) && NoEmpties(w2, x) && CallGood(w2, x) {
      assert NoEmpties(w0, x) && CallGood(w0, x);
    }
    forall r ensures RequestGood(w1, r) && RequestGood(w2, r) {
      assert RequestGood(w0, r);
    }
  }

  lemma StepKeepsGood(kind: Kind, w: World, s: Step, idle: nat)
    requires Good(kind, w)
    ensures Good(kind, Next(kind, w, s, idle))
  {
    hide Db.Effect, Good, Over, Resolving, Tombstoning, Registering, Unregistering, Collecting, Returning;
    var now := Now(w, s);
    match s.act
    case Store(op) => StoreStepKeepsGood(kind, w, s.tick, op, idle);
    case Resolve(_, _, _, _) => ResolveKeepsGood(kind, w, s, idle);
    case RevokeRow(id) => RevokeRowKeepsGood(kind, w, s.tick, Db.Op.Revoke(id), ActiveRow(w.store.db, id), idle);
    case RevokeRows(project, endpoints) =>
      RevokeRowKeepsGood(kind, w, s.tick, Db.Op.RevokeResource(project, endpoints),
                         Db.ActiveIn(w.store.db, endpoints, project), idle);
    case Tombstone(id, lag) => TombstoneKeepsGood(kind, w, id, now, lag);
    case Register(request) => RegisterKeepsGood(kind, w, request, now);
    case BeginClose(conn) => CloseKeepsGood(kind, w, conn, now);
    case Unregister(conn) => CloseKeepsGood(kind, w, conn, now);
    case Collect(id, conn) => HandlerKeepsGood(kind, w, id, conn, now);
    case Return(id) => HandlerKeepsGood(kind, w, id, 0, now);
  }

  lemma RevokeRowKeepsGood(kind: Kind, w: World, tick: nat, op: Db.Op, ids: set<nat>, idle: nat)
    requires Good(kind, w)
    requires match op
             case Revoke(id) => ids == ActiveRow(w.store.db, id)
             case RevokeResource(project, endpoints) => ids == Db.ActiveIn(w.store.db, endpoints, project)
             case _ => false
    ensures Good(kind, Revoking(w, tick, op, ids, idle))
  {
    hide Db.Effect, Revoking;
    forall id | id in ids
      ensures !Over(w.store.db, id) && Over(Db.Effect(w.store.db, op, w.store.clock + tick, idle), id)
    {
      RevokeEnds(w, op, w.store.clock + tick, idle, id);
    }
    RevokeKeepsGood(kind, w, tick, op, ids, idle);
  }

  lemma {:induction false} RunKeepsGood(kind: Kind, w: World, steps: seq<Step>, idle: nat)
    requires Good(kind, w)
    ensures Good(kind, Run(kind, w, steps, idle))
    decreases |steps|
  {
    hide Next, Good;
    if steps != [] {
      StepKeepsGood(kind, w, steps[0], idle);
      RunKeepsGood(kind, Next(kind, w, steps[0], idle), steps[1..], idle);
    }
  }

  /***** Revocation closes the race *****/

  /**
   In every interleaving: once the handler that revoked `session` has returned, a Web connection of
   it is still registered - or an SSH one registered and not cancelled - only if its grant was
   resolved before the revocation and it was registered more than ten minutes after it.
   */
  lemma OnlySlowDialsSurvive(kind: Kind, w0: World, steps: seq<Step>, idle: nat, session: nat, conn: nat)
    requires Begins(w0) && Db.Good(w0.store)
    requires var w := Run(kind, w0, steps, idle);
      session in w.calls && w.calls[session].Returned? && conn in Of(w.gate.active, session)
    ensures var w := Run(kind, w0, steps, idle);
      conn in w.conns && w.conns[conn].session == session &&
      (Lives(kind, w.conns[conn].state) ==> SlippedThrough(w.conns[conn], w.calls[session].at))
  {
    hide Next, Run;
    RunKeepsGood(kind, w0, steps, idle);
    var w := Run(kind, w0, steps, idle);
    assert Listed(w, session, conn) && Caught(kind, w, conn);
  }

  /** Every connection so far was registered within ten minutes of its grant being resolved. */
  ghost predicate DialsArePrompt(w: World) {
    forall c | c in w.conns :: w.conns[c].registeredAt - w.conns[c].resolvedAt <= TOMBSTONE_LIFE
  }

  /** With prompt dials, no Web connection is left and none can come; every SSH one is cancelled. */
  lemma RevocationIsComplete(kind: Kind, w0: World, steps: seq<Step>, idle: nat, session: nat)
    requires Begins(w0) && Db.Good(w0.store)
    requires var w := Run(kind, w0, steps, idle);
      session in w.calls && w.calls[session].Returned? && DialsArePrompt(w)
    ensures var w := Run(kind, w0, steps, idle);
      (kind == Web ==> session !in w.gate.active) &&
      forall conn | conn in Of(w.gate.active, session) :: conn in w.conns && w.conns[conn].state == Closing
  {
    hide Next, Run;
    RunKeepsGood(kind, w0, steps, idle);
    var w := Run(kind, w0, steps, idle);
    assert NoEmpties(w, session);
    forall conn | conn in Of(w.gate.active, session)
      ensures kind == Ssh && conn in w.conns && w.conns[conn].state == Closing
    {
      OnlySlowDialsSurvive(kind, w0, steps, idle, session, conn);
      assert Listed(w, session, conn);
    }
    assert kind == Web ==> Of(w.gate.active, session) == {};
  }

  /** Exactly when a late request is let in: more than ten minutes after the tombstone was set. */
  lemma LateRequestIsAdmittedExactlyWhen(kind: Kind, w0: World, steps: seq<Step>, idle: nat, tick: nat, request: nat)
    requires Begins(w0) && Db.Good(w0.store)
    requires var w := Run(kind, w0, steps, idle);
      request in w.requests && w.requests[request].session in w.calls && !w.calls[w.requests[request].session].Told?
    ensures var w := Run(kind, w0, steps, idle);
      var s := Step(tick, Register(request));
      var w1 := Next(kind, w, s, idle);
      var at := w.calls[w.requests[request].session].at;
      (w.gate.nextId + 1 in w1.conns <==> at + TOMBSTONE_LIFE < Now(w, s)) &&
      (w.gate.nextId + 1 !in w1.conns ==> w1.conns == w.conns && w1.gate.active == w.gate.active)
  {
    hide Run, Over;
    RunKeepsGood(kind, w0, steps, idle);
    var w := Run(kind, w0, steps, idle);
    assert CallGood(w, w.requests[request].session) && Numbered(w, w.gate.nextId + 1);
  }

  lemma StepKeepsCalls(kind: Kind, w: World, s: Step, idle: nat, session: nat)
    requires session in w.calls
    ensures session in Next(kind, w, s, idle).calls
  {
  }

  lemma {:induction false} CallsStay(kind: Kind, w: World, steps: seq<Step>, idle: nat, session: nat)
    requires session in w.calls
    ensures session in Run(kind, w, steps, idle).calls
    decreases |steps|
  {
    hide Next;
    if steps != [] {
      StepKeepsCalls(kind, w, steps[0], idle, session);
      CallsStay(kind, Next(kind, w, steps[0], idle), steps[1..], idle, session);
    }
  }

  /** Once the row is revoked no request is granted that session again, however the run goes on. */
  lemma NoGrantAfterRevocation(kind: Kind, w: World, steps: seq<Step>, last: Step, idle: nat)
    requires Good(kind, w) && last.act.Resolve? && last.act.id in w.calls
    ensures var w1 := Run(kind, w, steps, idle); Next(kind, w1, last, idle).requests == w1.requests
  {
    hide Good, Over, Run;
    RunKeepsGood(kind, w, steps, idle);
    CallsStay(kind, w, steps, idle, last.act.id);
    var w1 := Run(kind, w, steps, idle);
    GoodCall(kind, w1, last.act.id);
    OverIsNotResolved(w1.store.db, Db.Op.Resolve(last.act.id, last.act.tokenHash, last.act.grantHash), last.act.id,
                      Now(w1, last), idle);
  }

  lemma GoodCall(kind: Kind, w: World, session: nat)
    requires Good(kind, w)
    ensures CallGood(w, session)
  {
  }

  /***** The ten minutes are needed *****/

  /** Resolve, revoke completely, and register later than the tombstone lasts. */
  function SlowDial(id: nat, tokenHash: nat, grantHash: nat, tick: nat): seq<Step> {
    [Step(0, Resolve(0, id, tokenHash, grantHash)), Step(0, RevokeRow(id)), Step(0, Tombstone(id, 0)),
     Step(0, Return(id)), Step(tick, Register(0))]
  }

  lemma {:induction false} RunConcat(kind: Kind, w: World, a: seq<Step>, b: seq<Step>, idle: nat)
    ensures Run(kind, w, a + b, idle) == Run(kind, Run(kind, w, a, idle), b, idle)
    decreases |a|
  {
    hide Next;
    if a == [] {
      assert a + b == b;
    } else {
      assert (a + b)[1..] == a[1..] + b;
      RunConcat(kind, Next(kind, w, a[0], idle), a[1..], b, idle);
    }
  }

  /**
   Whatever session can be used: a dial that takes longer than ten minutes ends registered and open
   after the handler that revoked the session has returned, and nothing will close it on that account.
   */
  lemma SlowDialSlipsThrough(kind: Kind, w0: World, id: nat, tokenHash: nat, grantHash: nat, tick: nat, idle: nat)
    requires Begins(w0) && Db.Good(w0.store) && tick > TOMBSTONE_LIFE
    requires Db.Resolvable(w0.store.db, id, tokenHash, grantHash, w0.store.clock, w0.store.clock - idle)
    ensures var w := Run(kind, w0, SlowDial(id, tokenHash, grantHash, tick), idle);
      id in w.calls && w.calls[id].Returned? && 1 in Of(w.gate.active, id) && 1 in w.conns && w.conns[1].state == Open
  {
    var steps := SlowDial(id, tokenHash, grantHash, tick);
    var w1 := Next(kind, w0, steps[0], idle);
    assert 0 in w1.requests && w1.requests[0].session == id && w1.store.db.sessions[id].status == Db.Active;
    var w2 := Next(kind, w1, steps[1], idle);
    assert w2.calls == map[id := Told] && w2.requests == w1.requests && w2.gate == w0.gate;
    SlowDialEnds(kind, w2, id, tick, idle);
    assert steps == [steps[0], steps[1]] + steps[2..];
    RunConcat(kind, w0, [steps[0], steps[1]], steps[2..], idle);
    RunOfTwo(kind, w0, steps[0], steps[1], idle);
  }

  lemma RunOfTwo(kind: Kind, w: World, a: Step, b: Step, idle: nat)
    ensures Run(kind, w, [a, b], idle) == Next(kind, Next(kind, w, a, idle), b, idle)
  {
    hide Next;
    assert [a, b][1..] == [b] && [b][1..] == [];
    assert Run(kind, Next(kind, w, a, idle), [b], idle) == Run(kind, Next(kind, Next(kind, w, a, idle), b, idle), [],
                                                               idle);
  }

  lemma SlowDialEnds(kind: Kind, w: World, id: nat, tick: nat, idle: nat)
    requires w.calls == map[id := Told] && w.gate == Registry(map[], map[], 0) && tick > TOMBSTONE_LIFE
    requires 0 in w.requests && w.requests[0].session == id
    ensures var w1 := Run(kind, w, [Step(0, Tombstone(id, 0)), Step(0, Return(id)), Step(tick, Register(0))], idle);
      id in w1.calls && w1.calls[id].Returned? && 1 in Of(w1.gate.active, id) && 1 in w1.conns &&
        w1.conns[1].state == Open
  {
    var s0, s1, s2 := Step(0, Tombstone(id, 0)), Step(0, Return(id)), Step(tick, Register(0));
    var wa := Next(kind, w, s0, idle);
    var wb := Next(kind, wa, s1, idle);
    assert wb.gate.revoked == map[id := w.store.clock] && wb.store.clock == w.store.clock;
    var wc := Next(kind, wb, s2, idle);
    assert [s0, s1, s2] == [s0, s1] + [s2];
    RunConcat(kind, w, [s0, s1], [s2], idle);
    RunOfTwo(kind, w, s0, s1, idle);
    assert Run(kind, wb, [s2], idle) == Run(kind, wc, [], idle);
  }

  /***** The registry as the gateways keep it *****/

  class WebGateway {
    var active: map<nat, set<nat>>
    var revoked: map<nat, int>
    var nextId: nat
    /** Connections whose close has begun; a close runs once. */
    var closed: set<nat>

    constructor ()
      ensures Valid() && View() == Registry(map[], map[], 0) && closed == {}
    {
      active, revoked, nextId, closed := map[], map[], 0, {};
    }

    ghost function View(): Registry
      reads this
    {
      Registry(active, revoked, nextId)
    }

    /** Nothing is listed under a session without connections. */
    ghost predicate Valid()
      reads this
    {
      forall s | s in active :: active[s] != {}
    }

    method PruneRevokedLocked(now: int)
      modifies this`revoked
      ensures revoked == Pruned(old(revoked), now)
    {
      var cutoff := now - TOMBSTONE_LIFE;
      var keys := revoked.Keys;
      while keys != {}
        invariant keys <= old(revoked).Keys
        invariant revoked == map s | s in old(revoked) && (s in keys || !(old(revoked)[s] < cutoff)) :: old(revoked)[s]
        decreases keys
      {
        var session :| session in keys;
        keys := keys - {session};
        if revoked[session] < cutoff {
          revoked := revoked - {session};
        }
      }
    }

    method UnregisterWebActivityConn(session: nat, id: nat)
      requires Valid()
      modifies this`active
      ensures Valid() && View() == Unregistered(old(View()), session, id)
    {
      if session in active {
        active := active[session := active[session] - {id}];
      }
      if session !in active || active[session] == {} {
        active := active - {session};
      }
    }

    /** Refused connections are closed at once; the others get the next number. */
    method TrackWebActivityConn(session: nat, now: int) returns (r: Result<nat, Db.Error>)
      requires Valid()
      modifies this`active, this`revoked, this`nextId
      ensures Valid() && View() == Registered(old(View()), session, now)
      ensures r == if Admits(old(View()), session, now) then Ok(old(nextId) + 1) else Err(Db.NotFound)
      ensures r.Ok? <==> (session in old(revoked) ==> old(revoked)[session] + 600 * Db.SECOND < now)
      ensures if r.Ok? then active == old(active)[session := Of(old(active), session) + {old(nextId) + 1}]
              else active == old(active) && nextId == old(nextId)
    {
      PruneRevokedLocked(now);
      if session in revoked {
        return Err(Db.NotFound);
      }
      nextId := nextId + 1;
      if session !in active {
        active := active[session := {}];
      }
      active := active[session := active[session] + {nextId}];
      return Ok(nextId);
    }

    method Close(session: nat, id: nat)
      requires Valid()
      modifies this`active, this`closed
      ensures Valid() && closed == old(closed) + {id}
      ensures View() == if id in old(closed) then old(View()) else Unregistered(old(View()), session, id)
    {
      if id !in closed {
        closed := closed + {id};
        UnregisterWebActivityConn(session, id);
      }
    }

    /** Undisturbed, it leaves a fresh tombstone and closes and unregisters all of the session. */
    method Revoke(session: nat, pruneAt: int, now: int) returns (any: bool)
      requires Valid() && closed !! Of(active, session)
      modifies this
      ensures Valid()
      ensures revoked == Pruned(old(revoked), pruneAt)[session := now]
      ensures active == old(active) - {session} && nextId == old(nextId)
      ensures closed == old(closed) + Of(old(active), session)
      ensures any <==> Of(old(active), session) != {}
    {
      PruneRevokedLocked(pruneAt);
      revoked := revoked[session := now];
      var connections := if session in active then active[session] else {};
      any := connections != {};
      var rest := connections;
      while rest != {}
        invariant Valid() && rest <= connections && any == (connections != {})
        invariant closed == old(closed) + (connections - rest)
        invariant rest == connections ==> active == old(active)
        invariant rest != connections ==>
                    active == if rest == {} then old(active) - {session} else old(active)[session := rest]
        invariant revoked == Pruned(old(revoked), pruneAt)[session := now] && nextId == old(nextId)
        decreases rest
      {
        var id :| id in rest;
        assert Of(active, session) == rest;
        rest := rest - {id};
        Close(session, id);
      }
    }
  }
}
