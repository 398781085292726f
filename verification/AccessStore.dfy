/**
 Remote-access sessions in the control plane's database: the guarded row updates of
 `store/access_sessions.go`, the two triggers of `store/migrations.go` that copy every change into
 the access log, and the row deletions that foreign keys cascade.  Times are nanoseconds; every
 call reads the clock once.
 */
module AccessStore {
  import opened ListFacts
  import opened Outcomes

  const SECOND: int := 1_000_000_000
  const ACCESS_ACTIVITY_TOUCH_INTERVAL: int := 30 * SECOND

  datatype Status = Active | Revoked | Expired

  datatype Session = Session(login: nat, user: nat, project: nat, endpoint: nat, tokenHash: nat, grantHash: nat,
                             exchangedAt: Option<int>, status: Status, expiresAt: int, startedAt: int,
                             lastSeenAt: int, endedAt: Option<int>)

  datatype Login = Login(user: nat, active: bool, expiresAt: int, lastSeenAt: int)

  datatype Log = Log(status: Status, accessedAt: Option<int>, expiresAt: int, startedAt: int, lastSeenAt: int,
                     endedAt: Option<int>)

  /** `users` maps to whether the user is enabled, `endpoints` to the project of its device. */
  datatype Db = Db(users: map<nat, bool>, logins: map<nat, Login>, endpoints: map<nat, nat>,
                   sessions: map<nat, Session>, logs: map<nat, Log>)

  datatype Error = NotFound | InUse | Constraint

  /***** The triggers *****/

  function LogOf(s: Session): Log {
    Log(s.status, s.exchangedAt, s.expiresAt, s.startedAt, s.lastSeenAt, s.endedAt)
  }

  /** trg_access_sessions_log_update: the first access time is kept, the rest is copied. */
  function Logged(log: Log, s: Session): Log {
    log.(status := s.status,
         accessedAt := if s.exchangedAt.None? || log.accessedAt.Some? then log.accessedAt else s.exchangedAt,
         expiresAt := s.expiresAt, lastSeenAt := s.lastSeenAt, endedAt := s.endedAt)
  }

  /** One row updated, with its trigger. */
  function WithSession(db: Db, id: nat, s: Session): Db {
    db.(sessions := db.sessions[id := s],
        logs := if id in db.logs then db.logs[id := Logged(db.logs[id], s)] else db.logs)
  }

  /***** The guards *****/

  predicate SessionLive(s: Session, now: int, cutoff: int) {
    s.status == Active && now < s.expiresAt && cutoff < s.lastSeenAt
  }

  predicate LoginLive(db: Db, s: Session, now: int, cutoff: int) {
    s.login in db.logins &&
    var a := db.logins[s.login];
    a.user == s.user && a.active && now < a.expiresAt && cutoff < a.lastSeenAt &&
    a.user in db.users && db.users[a.user]
  }

  predicate Live(db: Db, s: Session, now: int, cutoff: int) {
    SessionLive(s, now, cutoff) && LoginLive(db, s, now, cutoff)
  }

  predicate HasGrant(db: Db, id: nat, tokenHash: nat, grantHash: nat) {
    id in db.sessions && db.sessions[id].tokenHash == tokenHash && db.sessions[id].grantHash == grantHash
  }

  predicate Exchangeable(db: Db, id: nat, tokenHash: nat, grantHash: nat, now: int, cutoff: int) {
    HasGrant(db, id, tokenHash, grantHash) && db.sessions[id].exchangedAt.None? &&
      Live(db, db.sessions[id], now, cutoff)
  }

  predicate Resolvable(db: Db, id: nat, tokenHash: nat, grantHash: nat, now: int, cutoff: int) {
    HasGrant(db, id, tokenHash, grantHash) && db.sessions[id].exchangedAt.Some? &&
      Live(db, db.sessions[id], now, cutoff) &&
    db.sessions[id].endpoint in db.endpoints && db.endpoints[db.sessions[id].endpoint] == db.sessions[id].project
  }

  predicate Touchable(db: Db, id: nat, now: int, cutoff: int) {
    id in db.sessions && Live(db, db.sessions[id], now, cutoff)
  }

  /***** The operations, as functions of the database *****/

  function Created(db: Db, id: nat, s: Session): (Db, Result<nat, Error>) {
    if id in db.sessions || id in db.logs || s.login !in db.logins || s.user !in db.users ||
       s.endpoint !in db.endpoints then
      (db, Err(Constraint))
    else if exists other | other in db.sessions :: db.sessions[other].tokenHash == s.tokenHash then (db, Err(InUse))
    else (db.(sessions := db.sessions[id := s], logs := db.logs[id := LogOf(s)]), Ok(id))
  }

  /** A new session: its end is the end of the login that asks for it. */
  function NewSession(db: Db, login: nat, endpoint: nat, tokenHash: nat, grantHash: nat, now: int): Session
    requires login in db.logins && endpoint in db.endpoints
  {
    Session(login, db.logins[login].user, db.endpoints[endpoint], endpoint, tokenHash, grantHash, None, Active,
            db.logins[login].expiresAt, now, now, None)
  }

  function Exchanged(db: Db, id: nat, now: int): Db
    requires id in db.sessions
  {
    WithSession(db, id, db.sessions[id].(exchangedAt := Some(now)))
  }

  function LoginSeen(db: Db, login: nat, now: int): Db {
    if login in db.logins && db.logins[login].active
    then db.(logins := db.logins[login := db.logins[login].(lastSeenAt := now)]) else db
  }

  /** Activity is written at most every 30 seconds. */
  function ResolvedAt(db: Db, id: nat, now: int): Db
    requires id in db.sessions
  {
    var s := db.sessions[id];
    if now - s.lastSeenAt >= ACCESS_ACTIVITY_TOUCH_INTERVAL
    then LoginSeen(WithSession(db, id, s.(lastSeenAt := now)), s.login, now) else db
  }

  function Touched(db: Db, id: nat, now: int): Db
    requires id in db.sessions
  {
    LoginSeen(WithSession(db, id, db.sessions[id].(lastSeenAt := now)), db.sessions[id].login, now)
  }

  /** Every row of `ids` ended with `status`. */
  function Ended(db: Db, ids: set<nat>, status: Status, now: int): Db {
    db.(sessions := map id | id in db.sessions ::
          if id in ids then db.sessions[id].(status := status, endedAt := Some(now)) else db.sessions[id],
        logs := map id | id in db.logs ::
          if id in ids && id in db.sessions
          then Logged(db.logs[id], db.sessions[id].(status := status, endedAt := Some(now))) else db.logs[id])
  }

  function ActiveIn(db: Db, endpoints: set<nat>, project: nat): set<nat> {
    set id | id in db.sessions && db.sessions[id].status == Active && db.sessions[id].project == project &&
             db.sessions[id].endpoint in endpoints
  }

  function Expirable(db: Db, now: int, cutoff: int): set<nat> {
    set id | id in db.sessions && db.sessions[id].status == Active && !Live(db, db.sessions[id], now, cutoff)
  }

  /** Sessions deleted by a cascade: no trigger fires, so their log rows stay as they are. */
  function WithoutSessions(db: Db, ids: set<nat>): Db {
    db.(sessions := db.sessions - ids)
  }

  function WithoutLogins(db: Db, ids: set<nat>): Db {
    WithoutSessions(db, set id | id in db.sessions && db.sessions[id].login in ids).(logins := db.logins - ids)
  }

  /***** Runs *****/

  datatype Op =
    | Create(id: nat, login: nat, endpoint: nat, tokenHash: nat, grantHash: nat)
    | Exchange(id: nat, tokenHash: nat, grantHash: nat)
    | Resolve(id: nat, tokenHash: nat, grantHash: nat)
    | Touch(id: nat)
    | Revoke(id: nat)
    | RevokeResource(project: nat, endpoints: set<nat>)
    | Expire
    | AddUser(user: nat)
    | SetUser(user: nat, enabled: bool)
    | DeleteUser(user: nat)
    | AddLogin(login: nat, user: nat, expiresAt: int)
    | TouchLogin(login: nat)
    | RevokeLogin(login: nat)
    | DeleteLogin(login: nat)
    | AddEndpoint(endpoint: nat, project: nat)
    | DeleteEndpoint(endpoint: nat)

  /** An operation, and how far the clock has moved since the one before. */
  datatype Step = Step(tick: nat, op: Op)

  /** `exchanged` lists the sessions of the successful exchanges so far, in order. */
  datatype World = World(db: Db, clock: int, exchanged: seq<nat>)

  /** The operation is an exchange, resolve or touch that is granted. */
  predicate Grants(db: Db, op: Op, id: nat, now: int, idle: nat) {
    match op
    case Exchange(i, t, g) => i == id && Exchangeable(db, i, t, g, now, now - idle)
    case Resolve(i, t, g) => i == id && Resolvable(db, i, t, g, now, now - idle)
    case Touch(i) => i == id && Touchable(db, i, now, now - idle)
    case _ => false
  }

  /** The session whose grant this operation exchanges, if it does. */
  function Granted(db: Db, op: Op, now: int, idle: nat): Option<nat> {
    if op.Exchange? && Exchangeable(db, op.id, op.tokenHash, op.grantHash, now, now - idle) then Some(op.id) else None
  }

  function Effect(db: Db, op: Op, now: int, idle: nat): Db {
    match op
    case Create(id, login, endpoint, t, g) =>
      if login in db.logins && endpoint in db.endpoints
      then Created(db, id, NewSession(db, login, endpoint, t, g, now)).0 else db
    case Exchange(id, t, g) => if Exchangeable(db, id, t, g, now, now - idle) then Exchanged(db, id, now) else db
    case Resolve(id, t, g) => if Resolvable(db, id, t, g, now, now - idle) then ResolvedAt(db, id, now) else db
    case Touch(id) => if Touchable(db, id, now, now - idle) then Touched(db, id, now) else db
    case Revoke(id) =>
      if id in db.sessions && db.sessions[id].status == Active then Ended(db, {id}, Revoked, now) else db
    case RevokeResource(project, endpoints) => Ended(db, ActiveIn(db, endpoints, project), Revoked, now)
    case Expire => Ended(db, Expirable(db, now, now - idle), Expired, now)
    case AddUser(user) => if user in db.users then db else db.(users := db.users[user := true])
    case SetUser(user, enabled) => if user in db.users then db.(users := db.users[user := enabled]) else db
    case DeleteUser(user) =>
      var logins := set l | l in db.logins && db.logins[l].user == user;
      WithoutLogins(db, logins).(users := db.users - {user})
    case AddLogin(login, user, expiresAt) =>
      if login in db.logins || user !in db.users then db
      else db.(logins := db.logins[login := Login(user, true, expiresAt, now)])
    case TouchLogin(login) => LoginSeen(db, login, now)
    case RevokeLogin(login) =>
      if login in db.logins then db.(logins := db.logins[login := db.logins[login].(active := false)]) else db
    case DeleteLogin(login) => WithoutLogins(db, {login})
    case AddEndpoint(endpoint, project) =>
      if endpoint in db.endpoints then db else db.(endpoints := db.endpoints[endpoint := project])
    case DeleteEndpoint(endpoint) =>
      var ids := set id | id in db.sessions && db.sessions[id].endpoint == endpoint;
      WithoutSessions(db, ids).(endpoints := db.endpoints - {endpoint})
  }

  function Advanced(w: World, db1: Db, granted: Option<nat>, now: int): World {
    World(db1, now, if granted.Some? then w.exchanged + [granted.value] else w.exchanged)
  }

  function Next(w: World, s: Step, idle: nat): World {
    Advanced(w, Effect(w.db, s.op, w.clock + s.tick, idle), Granted(w.db, s.op, w.clock + s.tick, idle),
             w.clock + s.tick)
  }

  function Run(w: World, steps: seq<Step>, idle: nat): World
    decreases |steps|
  {
    if steps == [] then w else Run(Next(w, steps[0], idle), steps[1..], idle)
  }

  function Start(clock: int): World {
    World(Db(map[], map[], map[], map[], map[]), clock, [])
  }

  /***** What always holds *****/

  /**
   A session row agrees with its log row, refers to a login and an endpoint that exist, and is not
   set to end later than the login that created it.
   */
  predicate RowGood(db: Db, id: nat) {
    id in db.sessions ==>
      var s := db.sessions[id];
      id in db.logs && db.logs[id] == LogOf(s) &&
      s.endpoint in db.endpoints && s.login in db.logins &&
      s.user == db.logins[s.login].user && s.expiresAt <= db.logins[s.login].expiresAt
  }

  predicate TokenUnique(db: Db, i: nat, j: nat) {
    i in db.sessions && j in db.sessions && db.sessions[i].tokenHash == db.sessions[j].tokenHash ==> i == j
  }

  ghost predicate RowsGood(db: Db) {
    (forall id :: RowGood(db, id)) && (forall i, j :: TokenUnique(db, i, j))
  }

  /** A session's grant was exchanged if its row says so, never twice, and not after it is gone. */
  predicate ExchangeListed(db: Db, exchanged: seq<nat>, id: nat) {
    (id in db.sessions ==> (id in exchanged <==> db.sessions[id].exchangedAt.Some?)) &&
    (id in exchanged ==> id in db.logs)
  }

  ghost predicate Good(w: World) {
    RowsGood(w.db) && NoRepeats(w.exchanged) && forall id :: ExchangeListed(w.db, w.exchanged, id)
  }

  /** What identifies a session, and when it must end, never change. */
  predicate SameSession(a: Session, b: Session) {
    b.login == a.login && b.user == a.user && b.project == a.project && b.endpoint == a.endpoint &&
    b.tokenHash == a.tokenHash && b.grantHash == a.grantHash && b.expiresAt == a.expiresAt && b.startedAt == a.startedAt
  }

  /** How one session and its log row may change in a step; `granted` had its grant exchanged. */
  predicate Evolves(db: Db, db1: Db, granted: Option<nat>, id: nat) {
    (id in db.logs ==>
       id in db1.logs && db1.logs[id].startedAt == db.logs[id].startedAt &&
       (db.logs[id].accessedAt.Some? ==> db1.logs[id].accessedAt == db.logs[id].accessedAt)) &&
    (id in db1.sessions ==>
       if id in db.sessions then
         SameSession(db.sessions[id], db1.sessions[id]) &&
         (granted == Some(id) ==> db.sessions[id].exchangedAt.None? && db1.sessions[id].exchangedAt.Some?) &&
         (granted != Some(id) ==> db1.sessions[id].exchangedAt == db.sessions[id].exchangedAt)
       else id !in db.logs && db1.sessions[id].exchangedAt.None?)
  }

  ghost predicate Lawful(db: Db, db1: Db, granted: Option<nat>) {
    (granted.Some? ==> granted.value in db.sessions && granted.value in db1.sessions) &&
    (forall id :: RowGood(db1, id) && Evolves(db, db1, granted, id)) &&
    (forall i, j :: TokenUnique(db1, i, j))
  }

  /** Session rows are updated in place or dropped; what they refer to is still there. */
  lemma RowwiseIsLawful(db: Db, db1: Db, granted: Option<nat>)
    requires RowsGood(db)
    requires granted.Some? ==> granted.value in db.sessions && granted.value in db1.sessions
    requires forall id :: Evolves(db, db1, granted, id) && RowGood(db1, id)
    requires db1.sessions.Keys <= db.sessions.Keys
    ensures Lawful(db, db1, granted)
  {
    forall i, j ensures TokenUnique(db1, i, j) {
      assert TokenUnique(db, i, j) && Evolves(db, db1, granted, i) && Evolves(db, db1, granted, j);
    }
  }

  lemma UpdateIsLawful(db: Db, id: nat, s: Session, granted: Option<nat>)
    requires RowsGood(db) && id in db.sessions && SameSession(db.sessions[id], s)
    requires if granted == Some(id) then db.sessions[id].exchangedAt.None? && s.exchangedAt.Some?
             else granted.None? && s.exchangedAt == db.sessions[id].exchangedAt
    ensures Lawful(db, WithSession(db, id, s), granted)
  {
    var db1 := WithSession(db, id, s);
    forall i ensures Evolves(db, db1, granted, i) && RowGood(db1, i) {
      assert RowGood(db, i);
    }
    RowwiseIsLawful(db, db1, granted);
  }

  lemma SeenIsLawful(db: Db, db1: Db, login: nat, now: int)
    requires RowsGood(db) && Lawful(db, db1, None) && db1.sessions.Keys <= db.sessions.Keys
    ensures Lawful(db, LoginSeen(db1, login, now), None)
  {
    var db2 := LoginSeen(db1, login, now);
    forall i ensures Evolves(db, db2, None, i) && RowGood(db2, i) {
      assert RowGood(db1, i) && Evolves(db, db1, None, i);
    }
    RowwiseIsLawful(db, db2, None);
  }

  lemma EndIsLawful(db: Db, ids: set<nat>, status: Status, now: int)
    requires RowsGood(db)
    ensures Lawful(db, Ended(db, ids, status, now), None)
  {
    var db1 := Ended(db, ids, status, now);
    forall i ensures Evolves(db, db1, None, i) && RowGood(db1, i) {
      assert RowGood(db, i);
    }
    RowwiseIsLawful(db, db1, None);
  }

  /** If the row is kept, it is unchanged and what it refers to is still there. */
  predicate KeptOrDropped(db: Db, db1: Db, id: nat) {
    id in db1.sessions ==>
      id in db.sessions && db1.sessions[id] == db.sessions[id] &&
      var s := db.sessions[id];
      (s.endpoint in db.endpoints ==> s.endpoint in db1.endpoints) &&
      (s.login in db.logins ==> s.login in db1.logins && db1.logins[s.login].user == db.logins[s.login].user &&
                                db1.logins[s.login].expiresAt == db.logins[s.login].expiresAt)
  }

  lemma DropIsLawful(db: Db, db1: Db)
    requires RowsGood(db) && db1.logs == db.logs
    requires forall id :: KeptOrDropped(db, db1, id)
    ensures Lawful(db, db1, None)
  {
    forall i ensures Evolves(db, db1, None, i) && RowGood(db1, i) {
      assert RowGood(db, i) && KeptOrDropped(db, db1, i);
    }
    forall i | i in db1.sessions ensures i in db.sessions {
      assert KeptOrDropped(db, db1, i);
    }
    RowwiseIsLawful(db, db1, None);
  }

  lemma CreateIsLawful(db: Db, id: nat, login: nat, endpoint: nat, t: nat, g: nat, now: int)
    requires RowsGood(db) && login in db.logins && endpoint in db.endpoints
    ensures Lawful(db, Created(db, id, NewSession(db, login, endpoint, t, g, now)).0, None)
  {
    var db1 := Created(db, id, NewSession(db, login, endpoint, t, g, now)).0;
    forall i ensures Evolves(db, db1, None, i) && RowGood(db1, i) {
      assert RowGood(db, i);
    }
    forall i, j ensures TokenUnique(db1, i, j) {
      assert TokenUnique(db, i, j);
    }
  }

  lemma GrantEffectIsLawful(db: Db, op: Op, now: int, idle: nat)
    requires RowsGood(db) && (op.Exchange? || op.Resolve? || op.Touch?)
    ensures Lawful(db, Effect(db, op, now, idle), Granted(db, op, now, idle))
  {
    DropIsLawful(db, db);
    match op
    case Exchange(id, t, g) =>
      if Exchangeable(db, id, t, g, now, now - idle) {
        UpdateIsLawful(db, id, db.sessions[id].(exchangedAt := Some(now)), Some(id));
      }
    case Resolve(id, t, g) =>
      if Resolvable(db, id, t, g, now, now - idle) {
        UpdateIsLawful(db, id, db.sessions[id].(lastSeenAt := now), None);
        SeenIsLawful(db, WithSession(db, id, db.sessions[id].(lastSeenAt := now)), db.sessions[id].login, now);
      }
    case Touch(id) =>
      if Touchable(db, id, now, now - idle) {
        UpdateIsLawful(db, id, db.sessions[id].(lastSeenAt := now), None);
        SeenIsLawful(db, WithSession(db, id, db.sessions[id].(lastSeenAt := now)), db.sessions[id].login, now);
      }
  }

  lemma EndEffectIsLawful(db: Db, op: Op, now: int, idle: nat)
    requires RowsGood(db) && (op.Revoke? || op.RevokeResource? || op.Expire?)
    ensures Lawful(db, Effect(db, op, now, idle), None)
  {
    DropIsLawful(db, db);
    match op
    case Revoke(id) => EndIsLawful(db, {id}, Revoked, now);
    case RevokeResource(project, endpoints) => EndIsLawful(db, ActiveIn(db, endpoints, project), Revoked, now);
    case Expire => EndIsLawful(db, Expirable(db, now, now - idle), Expired, now);
  }

  lemma OtherEffectIsLawful(db: Db, op: Op, now: int, idle: nat)
    requires RowsGood(db)
    requires !(op.Create? || op.Exchange? || op.Resolve? || op.Touch? || op.Revoke? || op.RevokeResource? || op.Expire?)
    ensures Lawful(db, Effect(db, op, now, idle), None)
  {
    forall id ensures KeptOrDropped(db, Effect(db, op, now, idle), id) {
    }
    DropIsLawful(db, Effect(db, op, now, idle));
  }

  lemma EffectIsLawful(db: Db, op: Op, now: int, idle: nat)
    requires RowsGood(db)
    ensures Lawful(db, Effect(db, op, now, idle), Granted(db, op, now, idle))
  {
    if op.Create? {
      if op.login in db.logins && op.endpoint in db.endpoints {
        CreateIsLawful(db, op.id, op.login, op.endpoint, op.tokenHash, op.grantHash, now);
      } else {
        DropIsLawful(db, db);
      }
    } else if op.Exchange? || op.Resolve? || op.Touch? {
      GrantEffectIsLawful(db, op, now, idle);
    } else if op.Revoke? || op.RevokeResource? || op.Expire? {
      EndEffectIsLawful(db, op, now, idle);
    } else {
      OtherEffectIsLawful(db, op, now, idle);
    }
  }

  lemma LawfulKeepsGood(w: World, db1: Db, granted: Option<nat>, now: int)
    requires Good(w) && Lawful(w.db, db1, granted)
    ensures Good(Advanced(w, db1, granted, now))
  {
    var exchanged := Advanced(w, db1, granted, now).exchanged;
    forall id ensures ExchangeListed(db1, exchanged, id) {
      assert Evolves(w.db, db1, granted, id) && ExchangeListed(w.db, w.exchanged, id) && RowGood(db1, id);
    }
    if granted.Some? {
      assert Evolves(w.db, db1, granted, granted.value) && ExchangeListed(w.db, w.exchanged, granted.value);
    }
  }

  lemma StepKeepsGood(w: World, s: Step, idle: nat)
    requires Good(w)
    ensures Good(Next(w, s, idle))
  {
    EffectIsLawful(w.db, s.op, w.clock + s.tick, idle);
    LawfulKeepsGood(w, Effect(w.db, s.op, w.clock + s.tick, idle), Granted(w.db, s.op, w.clock + s.tick, idle),
                    w.clock + s.tick);
  }

  lemma {:induction false} RunKeepsGood(w: World, steps: seq<Step>, idle: nat)
    requires Good(w)
    ensures Good(Run(w, steps, idle))
    decreases |steps|
  {
    if steps != [] {
      StepKeepsGood(w, steps[0], idle);
      RunKeepsGood(Next(w, steps[0], idle), steps[1..], idle);
    }
  }

  lemma StartIsGood(clock: int)
    ensures Good(Start(clock))
  {
  }

  /***** Dead sessions stay dead *****/

  /** Gone, ended, past its end, idle for too long, or left without a login that can still act. */
  predicate Dead(db: Db, id: nat, clock: int, idle: nat) {
    id in db.logs &&
    (id in db.sessions ==>
       var s := db.sessions[id];
       !SessionLive(s, clock, clock - idle) ||
       (s.login in db.logins && (!db.logins[s.login].active || db.logins[s.login].expiresAt <= clock)))
  }

  lemma DeadIsNotGranted(db: Db, op: Op, id: nat, clock: int, now: int, idle: nat)
    requires Dead(db, id, clock, idle) && clock <= now
    ensures !Grants(db, op, id, now, idle)
  {
  }

  /** Of a dead session, a step may only drop the row, end it again, or see to others. */
  predicate NoLivelier(db: Db, db1: Db, id: nat) {
    id in db1.sessions ==>
      id in db.sessions &&
      var s := db.sessions[id]; var s1 := db1.sessions[id];
      s1.login == s.login && s1.expiresAt == s.expiresAt && s1.lastSeenAt == s.lastSeenAt &&
      (s1.status == Active ==> s.status == Active) &&
      (s.login in db.logins && s.login in db1.logins ==>
         db1.logins[s.login].expiresAt == db.logins[s.login].expiresAt &&
         (db1.logins[s.login].active ==> db.logins[s.login].active))
  }

  lemma GrantEffectOnDead(db: Db, op: Op, id: nat, clock: int, now: int, idle: nat)
    requires Dead(db, id, clock, idle) && clock <= now && (op.Exchange? || op.Resolve? || op.Touch?)
    ensures NoLivelier(db, Effect(db, op, now, idle), id)
  {
  }

  lemma OtherEffectOnDead(db: Db, op: Op, id: nat, clock: int, now: int, idle: nat)
    requires Dead(db, id, clock, idle) && clock <= now && !(op.Exchange? || op.Resolve? || op.Touch?)
    ensures NoLivelier(db, Effect(db, op, now, idle), id)
  {
  }

  lemma NoLivelierIsDead(db: Db, db1: Db, id: nat, clock: int, now: int, idle: nat)
    requires RowGood(db, id) && RowGood(db1, id) && Dead(db, id, clock, idle) && clock <= now
    requires NoLivelier(db, db1, id) && id in db1.logs
    ensures Dead(db1, id, now, idle)
  {
  }

  lemma StepKeepsDead(w: World, s: Step, id: nat, idle: nat)
    requires Good(w) && Dead(w.db, id, w.clock, idle)
    ensures Dead(Next(w, s, idle).db, id, Next(w, s, idle).clock, idle)
  {
    hide Effect, Lawful;
    var now := w.clock + s.tick;
    EffectIsLawful(w.db, s.op, now, idle);
    if s.op.Exchange? || s.op.Resolve? || s.op.Touch? {
      GrantEffectOnDead(w.db, s.op, id, w.clock, now, idle);
    } else {
      OtherEffectOnDead(w.db, s.op, id, w.clock, now, idle);
    }
    ConcludeDead(w, s, id, idle, Effect(w.db, s.op, now, idle));
  }

  lemma ConcludeDead(w: World, s: Step, id: nat, idle: nat, db1: Db)
    requires Good(w) && Dead(w.db, id, w.clock, idle) && NoLivelier(w.db, db1, id)
    requires Lawful(w.db, db1, Granted(w.db, s.op, w.clock + s.tick, idle))
    ensures Dead(db1, id, w.clock + s.tick, idle)
  {
    assert RowGood(w.db, id) && RowGood(db1, id) && Evolves(w.db, db1, Granted(w.db, s.op, w.clock + s.tick, idle), id);
    NoLivelierIsDead(w.db, db1, id, w.clock, w.clock + s.tick, idle);
  }

  lemma {:induction false} RunKeepsDead(w: World, steps: seq<Step>, id: nat, idle: nat)
    requires Good(w) && Dead(w.db, id, w.clock, idle)
    ensures Dead(Run(w, steps, idle).db, id, Run(w, steps, idle).clock, idle)
    decreases |steps|
  {
    if steps != [] {
      StepKeepsGood(w, steps[0], idle);
      StepKeepsDead(w, steps[0], id, idle);
      RunKeepsDead(Next(w, steps[0], idle), steps[1..], id, idle);
    }
  }

  /** No exchange, resolve or touch of a dead session is ever granted again. */
  lemma DeadStaysDead(w: World, steps: seq<Step>, last: Step, id: nat, idle: nat)
    requires Good(w) && Dead(w.db, id, w.clock, idle)
    ensures var w1 := Run(w, steps, idle); !Grants(w1.db, last.op, id, w1.clock + last.tick, idle)
  {
    RunKeepsDead(w, steps, id, idle);
    var w1 := Run(w, steps, idle);
    DeadIsNotGranted(w1.db, last.op, id, w1.clock, w1.clock + last.tick, idle);
  }

  /** After any run, a granted resolve was preceded by exactly one exchange of that session. */
  lemma ResolveFollowsOneExchange(clock: int, steps: seq<Step>, last: Step, id: nat, idle: nat)
    requires last.op.Resolve?
    requires var w := Run(Start(clock), steps, idle); Grants(w.db, last.op, id, w.clock + last.tick, idle)
    ensures var w := Run(Start(clock), steps, idle); multiset(w.exchanged)[id] == 1
  {
    StartIsGood(clock);
    RunKeepsGood(Start(clock), steps, idle);
    var w := Run(Start(clock), steps, idle);
    assert ExchangeListed(w.db, w.exchanged, id);
    OccursOnce(w.exchanged, id);
  }

  lemma {:induction false} OccursOnce(ids: seq<nat>, id: nat)
    requires NoRepeats(ids)
    ensures multiset(ids)[id] == if id in ids then 1 else 0
    decreases |ids|
  {
    if ids != [] {
      var rest := ids[1..];
      assert ids == [ids[0]] + rest;
      assert forall i | 0 <= i < |rest| :: rest[i] == ids[i + 1];
      OccursOnce(rest, id);
    }
  }

  /** Whenever a session is granted anything, its end and its login's end are both still ahead. */
  lemma NoSessionOutlivesItsLogin(clock: int, steps: seq<Step>, last: Step, id: nat, idle: nat)
    requires var w := Run(Start(clock), steps, idle); Grants(w.db, last.op, id, w.clock + last.tick, idle)
    ensures var w := Run(Start(clock), steps, idle);
      w.clock + last.tick < w.db.sessions[id].expiresAt <= w.db.logins[w.db.sessions[id].login].expiresAt
  {
    StartIsGood(clock);
    RunKeepsGood(Start(clock), steps, idle);
    assert RowGood(Run(Start(clock), steps, idle).db, id);
  }

  /***** The access log *****/

  /** After any run the log row of a session that exists says what the session row says. */
  lemma LogMirrorsSessions(clock: int, steps: seq<Step>, id: nat, idle: nat)
    requires id in Run(Start(clock), steps, idle).db.sessions
    ensures var db := Run(Start(clock), steps, idle).db; id in db.logs && db.logs[id] == LogOf(db.sessions[id])
  {
    StartIsGood(clock);
    RunKeepsGood(Start(clock), steps, idle);
    assert RowGood(Run(Start(clock), steps, idle).db, id);
  }

  predicate LogKept(db: Db, db1: Db, id: nat) {
    id in db.logs ==>
      id in db1.logs &&
      db1.logs[id].startedAt == db.logs[id].startedAt &&
      (db.logs[id].accessedAt.Some? ==> db1.logs[id].accessedAt == db.logs[id].accessedAt) &&
      (id !in db.sessions ==> id !in db1.sessions && db1.logs[id] == db.logs[id])
  }

  lemma EffectKeepsLog(db: Db, op: Op, now: int, idle: nat, id: nat)
    ensures LogKept(db, Effect(db, op, now, idle), id)
  {
  }

  /** A log row outlives its session; without one it no longer changes; its first access time stays. */
  lemma {:induction false} LogRowsStay(w: World, steps: seq<Step>, id: nat, idle: nat)
    ensures LogKept(w.db, Run(w, steps, idle).db, id)
    decreases |steps|
  {
    hide Effect;
    if steps != [] {
      EffectKeepsLog(w.db, steps[0].op, w.clock + steps[0].tick, idle, id);
      var w1 := Next(w, steps[0], idle);
      LogRowsStay(w1, steps[1..], id, idle);
      LogKeptIsTransitive(w.db, w1.db, Run(w1, steps[1..], idle).db, id);
    }
  }

  lemma LogKeptIsTransitive(a: Db, b: Db, c: Db, id: nat)
    requires LogKept(a, b, id) && LogKept(b, c, id)
    ensures LogKept(a, c, id)
  {
  }
}
