/**
 The access-session tables as the store changes them: row by row, statement by statement, inside
 transactions that put everything back on an error.  Each method's effect is the function of
 `AccessStore` that the run lemmas are about.
 */
module AccessRows {
  import opened ListFacts
  import opened Outcomes
  import opened AccessStore

  /** Ending one more row is the same as ending it together with the others. */
  lemma EndedOneMore(db: Db, ids: set<nat>, id: nat, status: Status, now: int)
    requires id in db.sessions && id !in ids
    ensures WithSession(Ended(db, ids, status, now), id, db.sessions[id].(status := status, endedAt := Some(now))) ==
            Ended(db, ids + {id}, status, now)
  {
    var a := WithSession(Ended(db, ids, status, now), id, db.sessions[id].(status := status, endedAt := Some(now)));
    var b := Ended(db, ids + {id}, status, now);
    assert a.sessions == b.sessions;
    assert a.logs == b.logs;
  }

  lemma EndedNone(db: Db, status: Status, now: int)
    ensures Ended(db, {}, status, now) == db
  {
    assert Ended(db, {}, status, now).sessions == db.sessions;
    assert Ended(db, {}, status, now).logs == db.logs;
  }

  /** What exchanging the grant of session `id` at `now` and resolving it at `later` comes to. */
  ghost predicate ExchangedAndResolved(db: Db, id: nat, now: int, later: int, r: Result<(nat, Session), Error>, db1: Db)
    requires id in db.sessions && db.sessions[id].login in db.logins
  {
    var s := db.sessions[id];
    if later < s.expiresAt && later < db.logins[s.login].expiresAt && s.endpoint in db.endpoints &&
       db.endpoints[s.endpoint] == s.project
    then r == Ok((id, s.(exchangedAt := Some(now), lastSeenAt := later))) &&
         db1 == ResolvedAt(Exchanged(db, id, now), id, later)
    else r == Err(NotFound) && db1 == Exchanged(db, id, now)
  }

  lemma OnlyOneMatches(db: Db, id: nat, tokenHash: nat, grantHash: nat, now: int, cutoff: int)
    requires (forall i, j :: TokenUnique(db, i, j)) && Exchangeable(db, id, tokenHash, grantHash, now, cutoff)
    ensures forall other :: Exchangeable(db, other, tokenHash, grantHash, now, cutoff) ==> other == id
  {
    forall other | Exchangeable(db, other, tokenHash, grantHash, now, cutoff) ensures other == id {
      assert TokenUnique(db, other, id);
    }
  }

  lemma MarkKeepsTokens(db: Db, id: nat, now: int)
    requires (forall i, j :: TokenUnique(db, i, j)) && id in db.sessions
    ensures forall i, j :: TokenUnique(Exchanged(db, id, now), i, j)
  {
    forall i, j ensures TokenUnique(Exchanged(db, id, now), i, j) {
      assert TokenUnique(db, i, j);
    }
  }

  /** After its grant is marked, a session is resolved exactly when neither end has come
     and its endpoint is in place. */
  lemma ResolvesWhatWasExchanged(db: Db, id: nat, tokenHash: nat, grantHash: nat, now: int, later: int, cutoff: int)
    requires (forall i, j :: TokenUnique(db, i, j)) && Exchangeable(db, id, tokenHash, grantHash, now, cutoff)
    requires now <= later
    ensures id in db.sessions && db.sessions[id].login in db.logins
    ensures Exchanged(db, id, now).sessions == db.sessions[id := db.sessions[id].(exchangedAt := Some(now))]
    ensures forall other :: Resolvable(Exchanged(db, id, now), other, tokenHash, grantHash, later, cutoff) ==>
              other == id
    ensures var s := db.sessions[id];
      Resolvable(Exchanged(db, id, now), id, tokenHash, grantHash, later, cutoff) <==>
      later < s.expiresAt && later < db.logins[s.login].expiresAt && s.endpoint in db.endpoints &&
      db.endpoints[s.endpoint] == s.project
  {
    forall other | Resolvable(Exchanged(db, id, now), other, tokenHash, grantHash, later, cutoff) ensures other == id {
      assert TokenUnique(db, other, id);
    }
  }

  /** The sessions an administrator is shown as active: those that can act and whose endpoint exists. */
  function Listed(db: Db, now: int, cutoff: int): set<nat> {
    set id | id in db.sessions && Touchable(db, id, now, cutoff) && db.sessions[id].endpoint in db.endpoints
  }

  /** Latest activity first. */
  predicate NewestFirst(sessions: map<nat, Session>, ids: seq<nat>) {
    (forall i | 0 <= i < |ids| :: ids[i] in sessions) &&
    forall i, j | 0 <= i < j < |ids| :: sessions[ids[j]].lastSeenAt <= sessions[ids[i]].lastSeenAt
  }

  ghost predicate Newest(sessions: map<nat, Session>, rows: set<nat>, id: nat)
    requires rows <= sessions.Keys
  {
    id in rows && forall other | other in rows :: sessions[other].lastSeenAt <= sessions[id].lastSeenAt
  }

  lemma {:induction false} SomeRowIsNewest(sessions: map<nat, Session>, rows: set<nat>) returns (id: nat)
    requires rows <= sessions.Keys && rows != {}
    ensures Newest(sessions, rows, id)
    decreases rows
  {
    id :| id in rows;
    if rows != {id} {
      var best := SomeRowIsNewest(sessions, rows - {id});
      id := if sessions[id].lastSeenAt <= sessions[best].lastSeenAt then best else id;
    }
  }

  class Store {
    var users: map<nat, bool>
    var logins: map<nat, Login>
    var endpoints: map<nat, nat>
    var sessions: map<nat, Session>
    var logs: map<nat, Log>

    constructor ()
      ensures View() == Start(0).db
    {
      users, logins, endpoints, sessions, logs := map[], map[], map[], map[], map[];
    }

    ghost function View(): Db
      reads this
    {
      Db(users, logins, endpoints, sessions, logs)
    }

    /** The UNIQUE constraint on the token column. */
    ghost predicate TokensAreUnique()
      reads this
    {
      forall i, j :: TokenUnique(View(), i, j)
    }

    method UpdateSession(id: nat, s: Session)
      requires id in sessions
      modifies this`sessions, this`logs
      ensures View() == WithSession(old(View()), id, s)
    {
      sessions := sessions[id := s];
      if id in logs {
        logs := logs[id := Logged(logs[id], s)];
      }
    }

    method TouchLogin(login: nat, now: int) returns (count: nat)
      modifies this`logins
      ensures View() == LoginSeen(old(View()), login, now)
      ensures count == if login in old(logins) && old(logins)[login].active then 1 else 0
    {
      count := 0;
      if login in logins && logins[login].active {
        logins := logins[login := logins[login].(lastSeenAt := now)];
        count := 1;
      }
    }

    method CreateAccessSession(id: nat, s: Session) returns (r: Result<nat, Error>)
      modifies this`sessions, this`logs
      ensures (View(), r) == Created(old(View()), id, s)
    {
      if id in sessions || id in logs || s.login !in logins || s.user !in users || s.endpoint !in endpoints {
        return Err(Constraint);
      }
      if exists other | other in sessions :: sessions[other].tokenHash == s.tokenHash {
        return Err(InUse);
      }
      sessions := sessions[id := s];
      logs := logs[id := LogOf(s)];
      return Ok(id);
    }

    /** The guarded UPDATE that marks a grant: `id` is the row it hits, if it hits one. */
    method MarkGrant(tokenHash: nat, grantHash: nat, now: int, idleCutoff: int) returns (count: nat, ghost id: nat)
      requires TokensAreUnique()
      modifies this`sessions, this`logs
      ensures count == 0 ==> View() == old(View()) &&
                             forall id :: !Exchangeable(old(View()), id, tokenHash, grantHash, now, idleCutoff)
      ensures count != 0 ==> count == 1 && Exchangeable(old(View()), id, tokenHash, grantHash, now, idleCutoff) &&
                             View() == Exchanged(old(View()), id, now)
    {
      if row :| row in sessions && Exchangeable(Db(users, logins, endpoints, sessions, logs), row, tokenHash, grantHash,
                                                now, idleCutoff) {
        UpdateSession(row, sessions[row].(exchangedAt := Some(now)));
        return 1, row;
      }
      return 0, 0;
    }

    /**
     The grant is marked at `now` and resolved at `later`, both with one cutoff.  A grant whose session or
     login ends in between, or whose endpoint is no longer in its project, is spent although the caller is
     told there is none.
     */
    method ExchangeAccessGrant(tokenHash: nat, grantHash: nat, now: int, later: int,
                               idleCutoff: int) returns (r: Result<(nat, Session), Error>)
      requires TokensAreUnique() && now <= later
      modifies this
      ensures (forall id :: !Exchangeable(old(View()), id, tokenHash, grantHash, now, idleCutoff)) ==>
                r == Err(NotFound) && View() == old(View())
      ensures forall id :: Exchangeable(old(View()), id, tokenHash, grantHash, now, idleCutoff) ==>
                ExchangedAndResolved(old(View()), id, now, later, r, View())
    {
      hide Exchanged, ResolvedAt, Resolvable, Live;
      ghost var db := View();
      var count, id := MarkGrant(tokenHash, grantHash, now, idleCutoff);
      if count != 1 {
        return Err(NotFound);
      }
      OnlyOneMatches(db, id, tokenHash, grantHash, now, idleCutoff);
      MarkKeepsTokens(db, id, now);
      ResolvesWhatWasExchanged(db, id, tokenHash, grantHash, now, later, idleCutoff);
      r := ResolveAccessGrant(tokenHash, grantHash, later, idleCutoff);
    }

    method ResolveAccessGrant(tokenHash: nat, grantHash: nat, now: int,
                              idleCutoff: int) returns (r: Result<(nat, Session), Error>)
      requires TokensAreUnique()
      modifies this
      ensures r.Ok? ==> Resolvable(old(View()), r.value.0, tokenHash, grantHash, now, idleCutoff) &&
                        View() == ResolvedAt(old(View()), r.value.0, now) &&
                        r.value.1 == old(View()).sessions[r.value.0].(lastSeenAt := now)
      ensures r.Err? ==> r.error == NotFound && View() == old(View()) &&
                         forall id :: !Resolvable(old(View()), id, tokenHash, grantHash, now, idleCutoff)
    {
      if id :| id in sessions && Resolvable(Db(users, logins, endpoints, sessions, logs), id, tokenHash, grantHash,
                                            now, idleCutoff) {
        var session := sessions[id];
        if now - session.lastSeenAt >= ACCESS_ACTIVITY_TOUCH_INTERVAL {
          UpdateSession(id, session.(lastSeenAt := now));
          var _ := TouchLogin(session.login, now);
        }
        return Ok((id, session.(lastSeenAt := now)));
      }
      return Err(NotFound);
    }

    /**
     Both rows are touched or neither is.  The second statement cannot miss its row, so it never rolls
     the first one back: the guard of the first has asked for the same active login.
     */
    method TouchAccessSession(id: nat, now: int, idleCutoff: int) returns (ok: bool)
      modifies this
      ensures ok == Touchable(old(View()), id, now, idleCutoff)
      ensures View() == if ok then Touched(old(View()), id, now) else old(View())
    {
      if !Touchable(Db(users, logins, endpoints, sessions, logs), id, now, idleCutoff) {
        return false;
      }
      UpdateSession(id, sessions[id].(lastSeenAt := now));
      var authCount := TouchLogin(sessions[id].login, now);
      assert authCount == 1;
      return true;
    }

    method RevokeAccessSession(id: nat, now: int) returns (r: Result<(), Error>)
      modifies this`sessions, this`logs
      ensures r.Ok? <==> id in old(sessions) && old(sessions)[id].status == Active
      ensures View() == if r.Ok? then Ended(old(View()), {id}, Revoked, now) else old(View())
    {
      if id !in sessions || sessions[id].status != Active {
        return Err(NotFound);
      }
      EndedNone(View(), Revoked, now);
      EndedOneMore(View(), {}, id, Revoked, now);
      assert {} + {id} == {id};
      UpdateSession(id, sessions[id].(status := Revoked, endedAt := Some(now)));
      return Ok(());
    }

    /** Active sessions of a project, or of one device's endpoints in it, whatever else they are. */
    method RevokeResourceSessions(project: nat, which: set<nat>, now: int) returns (ids: set<nat>)
      modifies this`sessions, this`logs
      ensures ids == ActiveIn(old(View()), which, project)
      ensures View() == Ended(old(View()), ids, Revoked, now)
    {
      ids := {};
      var rows := sessions.Keys;
      EndedNone(View(), Revoked, now);
      while rows != {}
        invariant rows <= old(sessions).Keys && ids !! rows
        invariant ids == set id | id in ActiveIn(old(View()), which, project) && id !in rows
        invariant View() == Ended(old(View()), ids, Revoked, now)
        decreases rows
      {
        var id :| id in rows;
        rows := rows - {id};
        var s := sessions[id];
        if s.status == Active && s.project == project && s.endpoint in which {
          EndedOneMore(old(View()), ids, id, Revoked, now);
          UpdateSession(id, s.(status := Revoked, endedAt := Some(now)));
          ids := ids + {id};
        }
      }
    }

    method ExpireAccessSessions(now: int, idleCutoff: int) returns (ids: set<nat>)
      modifies this`sessions, this`logs
      ensures ids == Expirable(old(View()), now, idleCutoff)
      ensures View() == Ended(old(View()), ids, Expired, now)
    {
      hide Live, Ended;
      var db := Db(users, logins, endpoints, sessions, logs);
      ids := {};
      var rows := sessions.Keys;
      EndedNone(View(), Expired, now);
      while rows != {}
        invariant rows <= old(sessions).Keys && ids !! rows
        invariant ids == set id | id in Expirable(old(View()), now, idleCutoff) && id !in rows
        invariant forall id | id in rows :: id in sessions && sessions[id] == old(sessions)[id]
        invariant View() == Ended(old(View()), ids, Expired, now)
        decreases rows
      {
        var id :| id in rows;
        rows := rows - {id};
        var s := sessions[id];
        if s.status == Active && !Live(db, s, now, idleCutoff) {
          EndedOneMore(old(View()), ids, id, Expired, now);
          UpdateSession(id, s.(status := Expired, endedAt := Some(now)));
          ids := ids + {id};
        }
      }
    }

    /** What the administrator sees as active: each session that could act now once, latest activity first. */
    method ListActiveAccessSessions(now: int, idleCutoff: int) returns (result: seq<nat>)
      ensures NoRepeats(result) && NewestFirst(sessions, result)
      ensures forall id :: id in result <==> id in Listed(View(), now, idleCutoff)
    {
      hide Live;
      var rows := Listed(Db(users, logins, endpoints, sessions, logs), now, idleCutoff);
      result := [];
      while rows != {}
        invariant rows <= Listed(View(), now, idleCutoff)
        invariant forall id :: id in result <==> id in Listed(View(), now, idleCutoff) && id !in rows
        invariant NoRepeats(result) && NewestFirst(sessions, result)
        invariant forall id, other | id in result && other in rows ::
                    sessions[other].lastSeenAt <= sessions[id].lastSeenAt
        decreases rows
      {
        ghost var newest := SomeRowIsNewest(sessions, rows);
        var id :| id in rows && forall other | other in rows :: sessions[other].lastSeenAt <= sessions[id].lastSeenAt;
        rows := rows - {id};
        result := result + [id];
      }
    }
  }

  /** A sweep leaves nothing active that could not act at that moment, and ends nothing that could. */
  lemma SweepIsExact(db: Db, now: int, cutoff: int, id: nat)
    requires id in db.sessions
    ensures var s1 := Ended(db, Expirable(db, now, cutoff), Expired, now).sessions[id];
      s1.status == Active <==> Live(db, db.sessions[id], now, cutoff)
  {
  }

  /**
   In every reachable database the listing is what a sweep at that moment would leave active, and what it
   shows is exactly what may still act.
   */
  lemma ListedIsWhatASweepLeaves(clock: int, steps: seq<Step>, now: int, idle: nat, id: nat)
    ensures var db := Run(Start(clock), steps, idle).db;
      var swept := Ended(db, Expirable(db, now, now - idle), Expired, now);
      (id in Listed(db, now, now - idle) <==> id in swept.sessions && swept.sessions[id].status == Active) &&
      (id in Listed(db, now, now - idle) <==> Grants(db, Touch(id), id, now, idle))
  {
    StartIsGood(clock);
    RunKeepsGood(Start(clock), steps, idle);
    assert RowGood(Run(Start(clock), steps, idle).db, id);
  }
}
