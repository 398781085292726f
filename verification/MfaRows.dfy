/**
 The second-factor tables as the store changes them: statement by statement, inside a transaction
 whose rollback puts every table back.  Each method's effect is the function of `MfaStore` that the
 lemmas about runs of handler calls are about.
 */
module MfaRows {
  import opened ListFacts
  import opened Outcomes
  import opened MfaStore

  const TOTP_PERIOD: int := 30

  class Store {
    var users: map<nat, User>
    var mfa: map<nat, Mfa>
    var codes: map<nat, map<nat, bool>>
    var challenges: map<nat, Challenge>
    var logins: map<nat, MfaStore.Login>

    ghost function View(): Db
      reads this
    {
      Db(users, mfa, codes, challenges, logins)
    }

    /** `BEGIN`, and later `ROLLBACK` to it. */
    method Begin() returns (saved: Db)
      ensures saved == View()
    {
      saved := Db(users, mfa, codes, challenges, logins);
    }

    method Rollback(saved: Db)
      modifies this
      ensures View() == saved
    {
      users, mfa, codes, challenges, logins := saved.users, saved.mfa, saved.codes, saved.challenges, saved.logins;
    }

    method RevokeChallenges(user: nat)
      modifies this`challenges
      ensures View() == ChallengesRevoked(old(View()), user)
    {
      var rows := challenges.Keys;
      while rows != {}
        invariant rows <= challenges.Keys == old(challenges).Keys
        invariant forall c | c in rows :: challenges[c] == old(challenges)[c]
        invariant forall c | c in challenges && c !in rows ::
                    challenges[c] == ChallengesRevoked(old(View()), user).challenges[c]
        decreases rows
      {
        var c :| c in rows;
        rows := rows - {c};
        if challenges[c].user == user && challenges[c].status == Active {
          challenges := challenges[c := challenges[c].(status := Revoked)];
        }
      }
    }

    method RevokeLogins(user: nat)
      modifies this`logins
      ensures logins == LoginsEnded(old(logins), user)
    {
      var rows := logins.Keys;
      while rows != {}
        invariant rows <= logins.Keys == old(logins).Keys
        invariant forall l | l in rows :: logins[l] == old(logins)[l]
        invariant forall l | l in logins && l !in rows :: logins[l] == LoginsEnded(old(logins), user)[l]
        decreases rows
      {
        var l :| l in rows;
        rows := rows - {l};
        if logins[l].user == user && logins[l].active {
          logins := logins[l := logins[l].(active := false)];
        }
      }
    }

    method CreateMFAChallenge(c: nat, user: nat, purpose: Purpose, expiresAt: int)
      modifies this`challenges
      ensures View() == ChallengeCreated(old(View()), c, user, purpose, expiresAt)
    {
      RevokeChallenges(user);
      challenges := challenges[c := Challenge(user, purpose, None, None, None, None, false, None, None, Active, 0,
                                              expiresAt)];
    }

    method FailMFAChallenge(c: nat) returns (ok: bool)
      modifies this`challenges
      ensures View() == Failed(old(View()), c)
      ensures ok <==> c in old(challenges) && old(challenges)[c].status == Active
    {
      if c !in challenges || challenges[c].status != Active {
        return false;
      }
      var attempts := challenges[c].attempts + 1;
      var status := if attempts >= MAX_ATTEMPTS then Revoked else challenges[c].status;
      challenges := challenges[c := challenges[c].(attempts := attempts, status := status)];
      return true;
    }

    /** The rows of the new recovery codes, one by one; two equal ones break the UNIQUE constraint. */
    method InsertRecoveryCodes(user: nat, recovery: seq<nat>) returns (ok: bool)
      requires user in codes && codes[user] == map[]
      modifies this`codes
      ensures ok <==> NoRepeats(recovery)
      ensures ok ==> codes == old(codes)[user := FreshCodes(recovery)]
    {
      ok := true;
      for i := 0 to |recovery|
        invariant ok && NoRepeats(recovery[..i])
        invariant codes == old(codes)[user := FreshCodes(recovery[..i])]
      {
        assert recovery[..i + 1] == recovery[..i] + [recovery[i]];
        if recovery[i] in codes[user] {
          ok := false;
          return;
        }
        var inserted: map<nat, bool> := codes[user][recovery[i] := false];
        assert inserted == FreshCodes(recovery[..i + 1]);
        codes := codes[user := inserted];
      }
      assert recovery[..|recovery|] == recovery;
    }

    /** The last statements of every completion: old logins end, and the new one must not clash. */
    method RenewLogin(user: nat, login: nat) returns (ok: bool)
      modifies this`logins
      ensures ok <==> login !in old(logins)
      ensures ok ==> logins == NewLogins(old(logins), user, login)
    {
      RevokeLogins(user);
      EndedKeys(old(logins), user);
      ok := login !in logins;
      if ok {
        logins := logins[login := MfaStore.Login(user, true)];
      }
    }

    method WriteEnrolment(ch: Challenge, bound: Method, counter: int, recovery: seq<nat>) returns (ok: bool)
      requires ch.user in users && ch.newPassword.Some?
      modifies this`users, this`mfa, this`codes
      ensures ok <==> NoRepeats(recovery)
      ensures ok ==>
        users == old(users)[ch.user := old(users)[ch.user].(password := ch.newPassword.value, email := ch.email,
                                                            mustChange := false)] &&
        mfa == old(mfa)[ch.user := Mfa(ch.secret, bound, counter)] &&
          codes == old(codes)[ch.user := FreshCodes(recovery)]
    {
      users := users[ch.user := users[ch.user].(password := ch.newPassword.value, email := ch.email,
                                                mustChange := false)];
      mfa := mfa[ch.user := Mfa(ch.secret, bound, counter)];
      codes := codes[ch.user := map[]];
      ok := InsertRecoveryCodes(ch.user, recovery);
    }

    method CompleteMFAEnrollment(c: nat, bound: Option<Method>, counter: int, recovery: seq<nat>, login: nat, now: int)
      returns (r: Result<(), Error>)
      modifies this
      ensures match Enrolled(old(View()), c, bound, counter, recovery, login, now)
              case Ok(db1) => r == Ok(()) && View() == db1
              case Err(e) => r == Err(e) && View() == old(View())
    {
      hide NewLogins, NoRepeats, FreshCodes;
      var saved := Begin();
      if !MayComplete(saved, c, true, now) {
        return Err(ErrChallenge);
      }
      var ch := challenges[c];
      challenges := challenges[c := ch.(status := Consumed)];
      if !MayEnrol(ch, bound, recovery) {
        Rollback(saved);
        return Err(ErrChallenge);
      }
      var written := WriteEnrolment(ch, bound.value, counter, recovery);
      if written {
        var renewed := RenewLogin(ch.user, login);
        if renewed {
          return Ok(());
        }
      }
      Rollback(saved);
      return Err(ErrConstraint);
    }

    method CompleteMFAAuthentication(c: nat, factor: Factor, login: nat, now: int) returns (r: Result<(), Error>)
      modifies this
      ensures match Authenticated(old(View()), c, factor, login, now)
              case Ok(db1) => r == Ok(()) && View() == db1
              case Err(e) => r == Err(e) && View() == old(View())
    {
      hide NewLogins;
      var saved := Begin();
      if !MayComplete(saved, c, false, now) {
        return Err(ErrChallenge);
      }
      var user := challenges[c].user;
      challenges := challenges[c := challenges[c].(status := Consumed)];
      match factor {
        case TotpCounter(counter) =>
          if user !in mfa || mfa[user].lastCounter >= counter {
            Rollback(saved);
            return Err(ErrReplay);
          }
          mfa := mfa[user := mfa[user].(lastCounter := counter)];
        case RecoveryCode(hash) =>
          if user !in codes || hash !in codes[user] || codes[user][hash] {
            Rollback(saved);
            return Err(ErrChallenge);
          }
          var used: map<nat, bool> := codes[user][hash := true];
          codes := codes[user := used];
        case EmailCode =>
      }
      var renewed := RenewLogin(user, login);
      if !renewed {
        Rollback(saved);
        return Err(ErrConstraint);
      }
      return Ok(());
    }

    method CompletePasswordChange(c: nat, hash: nat, login: nat, now: int) returns (r: Result<(), Error>)
      modifies this
      ensures match PasswordChanged(old(View()), c, hash, login, now)
              case Ok(db1) => r == Ok(()) && View() == db1
              case Err(e) => r == Err(e) && View() == old(View())
    {
      hide NewLogins;
      var saved := Begin();
      if !ActiveNow(saved, c, now) || challenges[c].user !in users || challenges[c].purpose != Password ||
         !users[challenges[c].user].enabled {
        return Err(ErrChallenge);
      }
      var user := challenges[c].user;
      challenges := challenges[c := challenges[c].(status := Consumed)];
      users := users[user := users[user].(password := hash, mustChange := false)];
      var renewed := RenewLogin(user, login);
      if !renewed {
        Rollback(saved);
        return Err(ErrConstraint);
      }
      return Ok(());
    }

    /** Everything the second factor rests on is gone, and so is every login and open challenge. */
    method ResetUserMFA(user: nat) returns (ok: bool)
      modifies this
      ensures ok <==> user in old(users)
      ensures View() == MfaReset(old(View()), user)
    {
      hide LoginsEnded;
      if user !in users {
        return false;
      }
      mfa := mfa - {user};
      codes := codes - {user};
      users := users[user := users[user].(mustChange := true)];
      RevokeChallenges(user);
      RevokeLogins(user);
      return true;
    }
  }

  lemma EndedKeys(logins: map<nat, MfaStore.Login>, user: nat)
    ensures LoginsEnded(logins, user).Keys == logins.Keys
  {
  }

  /** Is the counter one whose code is accepted at `current`? */
  predicate InWindow(counter: int, current: int) {
    counter >= 0 && current - 1 <= counter <= current + 1
  }

  /**
   `totp` gives the code of a counter.  Accepted is the least counter of the window - one step back to
   one step ahead of the clock, section 5.2 of RFC 6238 - whose code was typed, if there is one.
   */
  method ValidateTOTP(totp: int -> string, code: string, unixTime: nat) returns (r: Option<int>)
    ensures r.Some? ==> InWindow(r.value, unixTime / TOTP_PERIOD) && totp(r.value) == code &&
                        forall k | InWindow(k, unixTime / TOTP_PERIOD) && k < r.value :: totp(k) != code
    ensures r.None? <==> |code| != 6 || (exists i :: 0 <= i < |code| && !('0' <= code[i] <= '9')) ||
                         forall k | InWindow(k, unixTime / TOTP_PERIOD) :: totp(k) != code
  {
    if |code| != 6 {
      return None;
    }
    for i := 0 to |code|
      invariant forall j | 0 <= j < i :: '0' <= code[j] <= '9'
    {
      if !('0' <= code[i] <= '9') {
        return None;
      }
    }
    var current := unixTime / TOTP_PERIOD;
    var offset := -1;
    while offset <= 1
      invariant -1 <= offset <= 2
      invariant forall k | InWindow(k, current) && k < current + offset :: totp(k) != code
      decreases 2 - offset
    {
      var counter := current + offset;
      if counter >= 0 && totp(counter) == code {
        return Some(counter);
      }
      offset := offset + 1;
    }
    return None;
  }
}
