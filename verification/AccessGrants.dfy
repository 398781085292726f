/**
 What a granted access says about the past, and what keeps one granted.  The statements speak of the
 operations of a run: a grant is only good for the session it was made for, after every operation that
 ends the session it is worth nothing, and before that it works for as long as the session is used.
 */
module AccessGrants {
  import opened Outcomes
  import opened AccessStore

  /** The operation ends session `s` for good, whatever state it is in. */
  predicate Ends(op: Op, id: nat, s: Session) {
    match op
    case Revoke(i) => i == id
    case RevokeResource(project, endpoints) => project == s.project && s.endpoint in endpoints
    case RevokeLogin(login) => login == s.login
    case DeleteLogin(login) => login == s.login
    case DeleteUser(user) => user == s.user
    case DeleteEndpoint(endpoint) => endpoint == s.endpoint
    case _ => false
  }

  lemma EndedIsDead(w: World, step: Step, id: nat, idle: nat)
    requires Good(w) && id in w.db.sessions && Ends(step.op, id, w.db.sessions[id])
    ensures var w1 := Next(w, step, idle); Dead(w1.db, id, w1.clock, idle)
  {
    assert RowGood(w.db, id);
  }

  /** How a session may change in one step. */
  lemma StepEvolves(w: World, step: Step, id: nat, idle: nat)
    requires Good(w)
    ensures Evolves(w.db, Next(w, step, idle).db, Granted(w.db, step.op, w.clock + step.tick, idle), id)
  {
    hide Effect, Granted, Evolves, RowsGood;
    GoodRows(w);
    EffectIsLawful(w.db, step.op, w.clock + step.tick, idle);
  }

  lemma GoodRows(w: World)
    requires Good(w)
    ensures RowsGood(w.db) && forall id :: RowGood(w.db, id)
  {
  }

  lemma GoneIsDead(w: World, step: Step, id: nat, idle: nat)
    requires Good(w) && id in w.db.sessions && id !in Next(w, step, idle).db.sessions
    ensures var w1 := Next(w, step, idle); Dead(w1.db, id, w1.clock, idle)
  {
    hide Effect, Granted;
    StepEvolves(w, step, id, idle);
    assert RowGood(w.db, id);
  }

  lemma OtherAddsNone(db: Db, op: Op, now: int, idle: nat)
    requires !op.Create?
    ensures Effect(db, op, now, idle).sessions.Keys <= db.sessions.Keys
  {
    hide Live, Logged, LogOf;
    match op
    case Exchange(_, _, _) =>
    case Resolve(_, _, _) =>
    case Touch(_) =>
    case Revoke(_) =>
    case _ =>
  }

  lemma OnlyCreateAdds(w: World, step: Step, id: nat, idle: nat)
    requires id !in w.db.sessions && id in Next(w, step, idle).db.sessions
    ensures step.op.Create? && step.op.id == id
    ensures var s := Next(w, step, idle).db.sessions[id];
      s.login == step.op.login && s.endpoint == step.op.endpoint && s.tokenHash == step.op.tokenHash &&
      s.grantHash == step.op.grantHash
  {
    hide Effect, Granted;
    if !step.op.Create? {
      OtherAddsNone(w.db, step.op, w.clock + step.tick, idle);
    } else {
      CreateAddsOne(w.db, step.op, w.clock + step.tick, idle, id);
    }
  }

  lemma CreateAddsOne(db: Db, op: Op, now: int, idle: nat, id: nat)
    requires op.Create? && id !in db.sessions && id in Effect(db, op, now, idle).sessions
    ensures op.id == id
    ensures var s := Effect(db, op, now, idle).sessions[id];
      s.login == op.login && s.endpoint == op.endpoint && s.tokenHash == op.tokenHash && s.grantHash == op.grantHash
  {
  }

  /** A session that could be granted something has been through no operation that ends it. */
  lemma {:induction false} LiveWasNotEnded(w: World, steps: seq<Step>, id: nat, idle: nat)
    requires Good(w) && id in w.db.sessions
    requires var w1 := Run(w, steps, idle); id in w1.db.sessions && !Dead(w1.db, id, w1.clock, idle)
    ensures SameSession(w.db.sessions[id], Run(w, steps, idle).db.sessions[id])
    ensures forall j | 0 <= j < |steps| :: !Ends(steps[j].op, id, Run(w, steps, idle).db.sessions[id])
    decreases |steps|
  {
    hide Next, Ends, Dead, RowsGood, Good, SameSession, RowGood;
    SameIsSame(w.db.sessions[id]);
    if steps != [] {
      var w1 := Next(w, steps[0], idle);
      StepKeepsGood(w, steps[0], idle);
      if id !in w1.db.sessions {
        GoneIsDead(w, steps[0], id, idle);
      } else if Ends(steps[0].op, id, w.db.sessions[id]) {
        EndedIsDead(w, steps[0], id, idle);
      }
      if Dead(w1.db, id, w1.clock, idle) {
        RunKeepsDead(w1, steps[1..], id, idle);
        assert false;
      }
      StepKeepsSame(w, steps[0], id, idle);
      LiveWasNotEnded(w1, steps[1..], id, idle);
      var s := Run(w, steps, idle).db.sessions[id];
      SameForward(w.db.sessions[id], w1.db.sessions[id], s, steps[0].op, id);
      forall j | 0 <= j < |steps| ensures !Ends(steps[j].op, id, s) {
        if j > 0 {
          assert steps[j] == steps[1..][j - 1];
        }
      }
    }
  }

  lemma SameIsSame(s: Session)
    ensures SameSession(s, s)
  {
  }

  lemma StepKeepsSame(w: World, step: Step, id: nat, idle: nat)
    requires Good(w) && id in w.db.sessions && id in Next(w, step, idle).db.sessions
    ensures SameSession(w.db.sessions[id], Next(w, step, idle).db.sessions[id])
  {
    hide Effect, Granted;
    StepEvolves(w, step, id, idle);
  }

  lemma SameForward(a: Session, b: Session, c: Session, op: Op, id: nat)
    requires SameSession(a, b) && SameSession(b, c)
    ensures SameSession(a, c) && (Ends(op, id, c) <==> Ends(op, id, a))
  {
  }

  /** The operation at `c` made the session, for this token and grant, and nothing has ended it since. */
  predicate CreatedAt(steps: seq<Step>, c: nat, id: nat, s: Session) {
    c < |steps| && steps[c].op == Create(id, s.login, s.endpoint, s.tokenHash, s.grantHash) &&
    forall j | c < j < |steps| :: !Ends(steps[j].op, id, s)
  }

  lemma {:induction false} LiveWasCreated(w: World, steps: seq<Step>, id: nat, idle: nat) returns (c: nat)
    requires Good(w) && id !in w.db.sessions
    requires var w1 := Run(w, steps, idle); id in w1.db.sessions && !Dead(w1.db, id, w1.clock, idle)
    ensures CreatedAt(steps, c, id, Run(w, steps, idle).db.sessions[id])
    decreases |steps|
  {
    hide Next, Ends, Dead, RowsGood, Good, RowGood;
    var w1 := Next(w, steps[0], idle);
    var s := Run(w, steps, idle).db.sessions[id];
    StepKeepsGood(w, steps[0], idle);
    if id in w1.db.sessions {
      OnlyCreateAdds(w, steps[0], id, idle);
      LiveWasNotEnded(w1, steps[1..], id, idle);
      c := 0;
    } else {
      var c1 := LiveWasCreated(w1, steps[1..], id, idle);
      c := c1 + 1;
    }
    forall j | c < j < |steps| ensures !Ends(steps[j].op, id, s) {
      assert steps[j] == steps[1..][j - 1];
    }
  }

  /**
   The host token and the grant that an exchange or resolve presents were created together, for this very
   session, and no operation since then has ended it.
   */
  lemma GrantWasCreated(clock: int, steps: seq<Step>, last: Step, id: nat, idle: nat)
    requires var w := Run(Start(clock), steps, idle); Grants(w.db, last.op, id, w.clock + last.tick, idle)
    ensures var s := Run(Start(clock), steps, idle).db.sessions[id];
      (last.op.Exchange? || last.op.Resolve? ==>
         exists c, login, endpoint | 0 <= c < |steps| ::
           steps[c].op == Create(id, login, endpoint, last.op.tokenHash, last.op.grantHash)) &&
      exists c: nat :: CreatedAt(steps, c, id, s)
  {
    hide Run, Dead;
    var w := Run(Start(clock), steps, idle);
    StartIsGood(clock);
    if Dead(w.db, id, w.clock, idle) {
      DeadIsNotGranted(w.db, last.op, id, w.clock, w.clock + last.tick, idle);
    }
    var c := LiveWasCreated(Start(clock), steps, id, idle);
    var s := w.db.sessions[id];
    assert steps[c].op == Create(id, s.login, s.endpoint, s.tokenHash, s.grantHash);
  }

  /***** Users *****/

  predicate Enables(op: Op, user: nat) {
    op == AddUser(user) || op == SetUser(user, true)
  }

  predicate Disables(op: Op, user: nat) {
    op == SetUser(user, false) || op == DeleteUser(user)
  }

  /** The user was enabled at `k` and not disabled since. */
  predicate EnabledAt(steps: seq<Step>, k: nat, user: nat) {
    k < |steps| && Enables(steps[k].op, user) && forall j | k < j < |steps| :: !Disables(steps[j].op, user)
  }

  lemma StepEnables(w: World, step: Step, user: nat, idle: nat)
    ensures var users := Next(w, step, idle).db.users;
      user in users && users[user] ==>
        Enables(step.op, user) || (user in w.db.users && w.db.users[user] && !Disables(step.op, user))
  {
  }

  lemma {:induction false} EnabledWasEnabled(w: World, steps: seq<Step>, user: nat, idle: nat)
    requires var users := Run(w, steps, idle).db.users; user in users && users[user]
    ensures (exists k: nat :: EnabledAt(steps, k, user)) ||
            (user in w.db.users && w.db.users[user] && forall j | 0 <= j < |steps| :: !Disables(steps[j].op, user))
    decreases |steps|
  {
    hide Next;
    if steps != [] {
      var rest := steps[1..];
      EnabledWasEnabled(Next(w, steps[0], idle), rest, user, idle);
      StepEnables(w, steps[0], user, idle);
      assert forall j | 1 <= j < |steps| :: steps[j] == rest[j - 1];
      if k: nat :| EnabledAt(rest, k, user) {
        assert EnabledAt(steps, k + 1, user);
      } else if Enables(steps[0].op, user) {
        assert EnabledAt(steps, 0, user);
      }
    }
  }

  /** Whoever is granted anything was added or enabled, and has not been disabled or deleted since. */
  lemma DisabledUserIsGrantedNothing(clock: int, steps: seq<Step>, last: Step, id: nat, idle: nat)
    requires var w := Run(Start(clock), steps, idle); Grants(w.db, last.op, id, w.clock + last.tick, idle)
    ensures var user := Run(Start(clock), steps, idle).db.sessions[id].user;
      exists k: nat :: EnabledAt(steps, k, user)
  {
    hide Run;
    var w := Run(Start(clock), steps, idle);
    StartIsGood(clock);
    RunKeepsGood(Start(clock), steps, idle);
    assert RowGood(w.db, id);
    EnabledWasEnabled(Start(clock), steps, w.db.sessions[id].user, idle);
  }

  /***** What keeps a session usable *****/

  predicate Harmless(op: Op, id: nat, s: Session) {
    !Ends(op, id, s) && op != SetUser(s.user, false)
  }

  /** The session and its login are active and were last used after `bound`. */
  predicate Usable(db: Db, id: nat, s: Session, bound: int) {
    id in db.sessions && SameSession(s, db.sessions[id]) && db.sessions[id].status == Active &&
    bound < db.sessions[id].lastSeenAt &&
    s.login in db.logins && db.logins[s.login].user == s.user && db.logins[s.login].active &&
    s.expiresAt <= db.logins[s.login].expiresAt && bound < db.logins[s.login].lastSeenAt &&
    s.user in db.users && db.users[s.user] &&
    s.endpoint in db.endpoints && db.endpoints[s.endpoint] == s.project
  }

  lemma GrantKeepsUsable(db: Db, op: Op, id: nat, s: Session, bound: int, now: int, idle: nat)
    requires Usable(db, id, s, bound) && bound < now && (op.Exchange? || op.Resolve? || op.Touch? || op.Create?)
    ensures Usable(Effect(db, op, now, idle), id, s, bound)
  {
  }

  lemma OtherKeepsUsable(db: Db, op: Op, id: nat, s: Session, bound: int, now: int, idle: nat)
    requires Usable(db, id, s, bound) && Harmless(op, id, s)
    requires bound < now < s.expiresAt && now - idle <= bound
    requires !(op.Exchange? || op.Resolve? || op.Touch? || op.Create?)
    ensures Usable(Effect(db, op, now, idle), id, s, bound)
  {
  }

  /** The grant of the session is spent by its own exchange alone. */
  lemma StepSpends(w: World, step: Step, id: nat, idle: nat)
    requires Good(w) && id in w.db.sessions && id in Next(w, step, idle).db.sessions
    ensures var s := w.db.sessions[id]; var s1 := Next(w, step, idle).db.sessions[id];
      (s.exchangedAt.Some? ==> s1.exchangedAt.Some?) &&
      (step.op != Exchange(id, s.tokenHash, s.grantHash) ==> s1.exchangedAt == s.exchangedAt)
  {
    hide Effect, Exchangeable;
    StepEvolves(w, step, id, idle);
    if Granted(w.db, step.op, w.clock + step.tick, idle) == Some(id) {
      ExchangeHasGrant(w.db, id, step.op.tokenHash, step.op.grantHash, w.clock + step.tick, w.clock + step.tick - idle);
    }
  }

  lemma ExchangeHasGrant(db: Db, id: nat, t: nat, g: nat, now: int, cutoff: int)
    requires Exchangeable(db, id, t, g, now, cutoff)
    ensures db.sessions[id].tokenHash == t && db.sessions[id].grantHash == g
  {
  }

  lemma {:induction false} RunKeepsUsable(w: World, steps: seq<Step>, id: nat, s: Session, bound: int, idle: nat)
    requires Good(w) && Usable(w.db, id, s, bound) && bound < w.clock
    requires forall j | 0 <= j < |steps| :: Harmless(steps[j].op, id, s)
    requires var end := Run(w, steps, idle).clock; end < s.expiresAt && end - idle <= bound
    ensures Usable(Run(w, steps, idle).db, id, s, bound) && w.clock <= Run(w, steps, idle).clock
    ensures var e := w.db.sessions[id].exchangedAt; var e1 := Run(w, steps, idle).db.sessions[id].exchangedAt;
      (e.Some? ==> e1.Some?) &&
      ((forall j | 0 <= j < |steps| :: steps[j].op != Exchange(id, s.tokenHash, s.grantHash)) ==> e1 == e)
    decreases |steps|
  {
    hide Effect, Usable, Good, Harmless;
    if steps != [] {
      var w1 := Next(w, steps[0], idle);
      var op := steps[0].op;
      ClockMovesOn(w1, steps[1..], idle);
      StepKeepsGood(w, steps[0], idle);
      if op.Exchange? || op.Resolve? || op.Touch? || op.Create? {
        GrantKeepsUsable(w.db, op, id, s, bound, w1.clock, idle);
      } else {
        OtherKeepsUsable(w.db, op, id, s, bound, w1.clock, idle);
      }
      UsableIsThere(w.db, id, s, bound);
      UsableIsThere(w1.db, id, s, bound);
      StepSpends(w, steps[0], id, idle);
      RunKeepsUsable(w1, steps[1..], id, s, bound, idle);
    }
  }

  lemma UsableIsThere(db: Db, id: nat, s: Session, bound: int)
    requires Usable(db, id, s, bound)
    ensures id in db.sessions && db.sessions[id].tokenHash == s.tokenHash && db.sessions[id].grantHash == s.grantHash
  {
  }

  lemma {:induction false} ClockMovesOn(w: World, steps: seq<Step>, idle: nat)
    ensures w.clock <= Run(w, steps, idle).clock
    decreases |steps|
  {
    hide Effect, Granted;
    if steps != [] {
      ClockMovesOn(Next(w, steps[0], idle), steps[1..], idle);
    }
  }

  /**
   A session that could be used, and was used no longer ago than the idle limit, can still be used before its
   end: its grant is exchanged if it has not been, and after that it is resolved and touched.
   */
  lemma UsableStaysGranted(w: World, steps: seq<Step>, last: Step, id: nat, idle: nat)
    requires Good(w) && id in w.db.sessions
    requires var end := Run(w, steps, idle).clock + last.tick;
      end < w.db.sessions[id].expiresAt && end - idle < w.clock && Usable(w.db, id, w.db.sessions[id], end - idle)
    requires forall j | 0 <= j < |steps| :: Harmless(steps[j].op, id, w.db.sessions[id])
    ensures var s := w.db.sessions[id]; var w1 := Run(w, steps, idle); var end := w1.clock + last.tick;
      (last.op == Touch(id) ==> Grants(w1.db, last.op, id, end, idle)) &&
      (last.op == Resolve(id, s.tokenHash, s.grantHash) && s.exchangedAt.Some? ==>
         Grants(w1.db, last.op, id, end, idle)) &&
      (last.op == Exchange(id, s.tokenHash, s.grantHash) && s.exchangedAt.None? &&
       (forall j | 0 <= j < |steps| :: steps[j].op != last.op) ==>
         Grants(w1.db, last.op, id, end, idle))
  {
    hide Run, Harmless, Good;
    RunKeepsUsable(w, steps, id, w.db.sessions[id], Run(w, steps, idle).clock + last.tick - idle, idle);
  }

  /** A session that a login just asked for can be used, and its grant has not been exchanged. */
  lemma NewSessionIsUsable(w: World, tick: nat, id: nat, login: nat, endpoint: nat, t: nat, g: nat, bound: int,
                           idle: nat)
    requires id !in w.db.sessions && id !in w.db.logs && endpoint in w.db.endpoints
    requires forall other | other in w.db.sessions :: w.db.sessions[other].tokenHash != t
    requires login in w.db.logins && w.db.logins[login].active && bound < w.db.logins[login].lastSeenAt
    requires w.db.logins[login].user in w.db.users && w.db.users[w.db.logins[login].user] && bound < w.clock + tick
    ensures var db := Next(w, Step(tick, Create(id, login, endpoint, t, g)), idle).db;
      id in db.sessions && Usable(db, id, db.sessions[id], bound) && db.sessions[id].exchangedAt.None? &&
      db.sessions[id].tokenHash == t && db.sessions[id].grantHash == g &&
      db.sessions[id].expiresAt == w.db.logins[login].expiresAt
  {
  }

  /** Use is recorded: a touch at once, a resolve when the last record is 30 seconds old; an exchange once. */
  lemma UseIsRecorded(w: World, step: Step, id: nat, idle: nat)
    requires Good(w) && Grants(w.db, step.op, id, w.clock + step.tick, idle)
    ensures var w1 := Next(w, step, idle); var now := w1.clock;
      id in w1.db.sessions && id in w1.db.logs && w.db.sessions[id].login in w1.db.logins &&
      var s := w.db.sessions[id]; var s1 := w1.db.sessions[id];
      SameSession(s, s1) && s1.status == Active &&
      (step.op.Exchange? ==> s1.exchangedAt == Some(now) && w1.db.logs[id].accessedAt == Some(now)) &&
      (step.op.Touch? || (step.op.Resolve? && now - s.lastSeenAt >= 30 * SECOND) ==>
         s1.lastSeenAt == now && w1.db.logs[id].lastSeenAt == now && w1.db.logins[s.login].lastSeenAt == now) &&
      (step.op.Resolve? && now - s.lastSeenAt < 30 * SECOND ==> w1.db == w.db)
  {
    assert RowGood(w.db, id);
  }
}
