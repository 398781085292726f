/**
 Which codes are accepted.  A mailed code is right if and only if it is the one sent last for the challenge
 and has not been used or withdrawn since; a recovery code and a time code are right by the user's row.  With
 the right code a challenge is completed, with a wrong one an attempt is lost, and that is how logins come about.
 */
module MfaCodes {
  import opened ListFacts
  import opened Outcomes
  import opened MfaStore

  /***** Mailed codes *****/

  /** The event is the last word on which mailed code the challenge has. */
  predicate SettlesCode(e: Event, c: nat) {
    (e.Delivered? || e.Started? || e.Matched?) && e.challenge == c
  }

  /** The code was mailed for the challenge at `k`. */
  predicate MailedAt(log: seq<Event>, k: nat, c: nat, code: nat) {
    k < |log| &&
    (log[k] == Started(c, Some(code), true) ||
     (log[k].Delivered? && log[k] == Delivered(c, log[k].email, code, true)))
  }

  /** Since then nothing else was mailed or chosen for the challenge, and the code was not matched. */
  predicate StandsSince(log: seq<Event>, k: nat, c: nat, code: nat) {
    MailedAt(log, k, c, code) && forall j | k < j < |log| :: !SettlesCode(log[j], c)
  }

  ghost predicate Stands(log: seq<Event>, c: nat, code: nat) {
    exists k: nat :: StandsSince(log, k, c, code)
  }

  /** What the event leaves of the code that the challenge had. */
  function CodeAfter(e: Event, c: nat, code: Option<nat>): Option<nat> {
    if !SettlesCode(e, c) then code
    else
      match e
      case Delivered(_, _, k, sent) => if sent then Some(k) else None
      case Started(_, mailed, sent) => if sent then mailed else None
      case _ => None
  }

  lemma {:induction false} StandsNext(log: seq<Event>, e: Event, c: nat, code: nat, before: Option<nat>)
    requires before == Some(code) <==> Stands(log, c, code)
    ensures CodeAfter(e, c, before) == Some(code) <==> Stands(log + [e], c, code)
  {
    var log1 := log + [e];
    if k: nat :| StandsSince(log, k, c, code) {
      if !SettlesCode(e, c) {
        assert StandsSince(log1, k, c, code);
      }
    }
    if SettlesCode(e, c) && CodeAfter(e, c, before) == Some(code) {
      assert StandsSince(log1, |log|, c, code);
    }
    if k: nat :| StandsSince(log1, k, c, code) {
      if k < |log| {
        assert !SettlesCode(log1[|log|], c);
        assert forall j | k < j < |log| :: log1[j] == log[j];
        assert StandsSince(log, k, c, code);
      }
    }
  }

  /** The code on the row of the challenge is the one that stands. */
  ghost predicate CodeIsTold(w: World, c: nat) {
    (c in w.db.challenges ==>
       c in w.born && forall code: nat :: w.db.challenges[c].code == Some(code) <==> Stands(w.log, c, code)) &&
    (c !in w.born ==> forall code: nat :: !Stands(w.log, c, code))
  }

  /** How the code of one challenge changes in a step. */
  predicate CodeMoves(db: Db, db1: Db, e: Event, c: nat) {
    (SettlesCode(e, c) ==> c in db.challenges) &&
    (c in db1.challenges && c in db.challenges ==>
       db1.challenges[c].code == CodeAfter(e, c, db.challenges[c].code)) &&
    (c in db1.challenges && c !in db.challenges ==> db1.challenges[c].code.None?)
  }

  lemma CompleteMovesCode(cfg: Config, db: Db, op: Op, now: int, c: nat)
    requires Completes(op)
    ensures CodeMoves(db, Handle(cfg, db, op, now).0, Handle(cfg, db, op, now).1, c)
  {
    hide Handle;
    HandleConcludes(cfg, db, op, now);
  }

  lemma LogInMovesCode(cfg: Config, db: Db, op: Op, now: int, c: nat)
    requires op.LogIn? && op.challenge !in db.challenges
    ensures CodeMoves(db, LogInDone(cfg, db, op, now), Nothing, c)
  {
    hide LoginsEnded, Cooled;
  }

  lemma PrepareMovesCode(cfg: Config, db: Db, op: Op, now: int, c: nat)
    requires Prepares(op)
    ensures CodeMoves(db, Handle(cfg, db, op, now).0, Handle(cfg, db, op, now).1, c)
  {
    hide CompleteDone, SetPasswordDone, LogInDone, MfaReset, ChallengesCleaned, Cooled;
  }

  lemma AdminMovesCode(cfg: Config, db: Db, op: Op, now: int, c: nat)
    requires op.AddUser? || op.SetUser? || op.Reset? || op.CleanUp?
    ensures CodeMoves(db, Handle(cfg, db, op, now).0, Handle(cfg, db, op, now).1, c)
  {
    hide CompleteDone, SetPasswordDone, LogInDone, SendEmailDone, VerifyEmailDone, StartMfaDone, LoginsEnded;
  }

  lemma HandleMovesCode(cfg: Config, db: Db, op: Op, now: int, c: nat)
    requires op.LogIn? ==> op.challenge !in db.challenges
    ensures CodeMoves(db, Handle(cfg, db, op, now).0, Handle(cfg, db, op, now).1, c)
  {
    hide Handle, CodeMoves;
    if Completes(op) {
      CompleteMovesCode(cfg, db, op, now, c);
    } else if op.LogIn? {
      HandleLogIn(cfg, db, op, now);
      LogInMovesCode(cfg, db, op, now, c);
    } else if Prepares(op) {
      PrepareMovesCode(cfg, db, op, now, c);
    } else {
      AdminMovesCode(cfg, db, op, now, c);
    }
  }

  lemma StepTellsCode(cfg: Config, w: World, s: Step, c: nat)
    requires CodeIsTold(w, c) && (s.op.LogIn? ==> CodeIsTold(w, s.op.challenge))
    ensures CodeIsTold(Next(cfg, w, s), c)
  {
    hide Handle, Stands;
    var now := w.clock + s.tick;
    if Fresh(w, s.op) {
      var (db1, e) := Handle(cfg, w.db, s.op, now);
      HandleMovesCode(cfg, w.db, s.op, now, c);
      HandleMoves(cfg, w.db, s.op, now, c);
      var before := if c in w.db.challenges then w.db.challenges[c].code else None;
      forall code: nat | c in w.db.challenges || c !in w.born
        ensures CodeAfter(e, c, before) == Some(code) <==> Stands(w.log + [e], c, code)
      {
        StandsNext(w.log, e, c, code, before);
      }
    }
  }

  ghost predicate CodesAreTold(w: World) {
    forall c :: CodeIsTold(w, c)
  }

  lemma {:induction false} RunTellsCodes(cfg: Config, w: World, steps: seq<Step>)
    requires CodesAreTold(w)
    ensures CodesAreTold(Run(cfg, w, steps))
    decreases |steps|
  {
    hide Next, CodeIsTold;
    if steps != [] {
      forall c ensures CodeIsTold(Next(cfg, w, steps[0]), c) {
        assert CodeIsTold(w, c);
        if steps[0].op.LogIn? {
          assert CodeIsTold(w, steps[0].op.challenge);
        }
        StepTellsCode(cfg, w, steps[0], c);
      }
      RunTellsCodes(cfg, Next(cfg, w, steps[0]), steps[1..]);
    }
  }

  lemma NothingMailed(clock: int)
    ensures CodesAreTold(Start(clock))
  {
  }

  /***** Who may go on *****/

  /** The challenge can still be completed at this moment, by its enabled user. */
  predicate Open(db: Db, c: nat, now: int) {
    c in db.challenges && db.challenges[c].status == Active && now < db.challenges[c].expiresAt &&
    db.challenges[c].attempts < 5 && db.challenges[c].user in db.users && db.users[db.challenges[c].user].enabled
  }

  /** What a first login needs besides the second factor. */
  predicate ReadyToEnrol(ch: Challenge, recovery: seq<nat>) {
    ch.verified && ch.email.Some? && ch.newPassword.Some? && |recovery| >= 8 && NoRepeats(recovery)
  }

  /** Only the count of attempts has gone up; at the fifth the challenge is revoked. */
  predicate LosesAttempt(db: Db, db1: Db, c: nat)
    requires c in db.challenges
  {
    var ch := db.challenges[c];
    db1 == db.(challenges := db.challenges[c := ch.(attempts := ch.attempts + 1,
                                                    status := if ch.attempts == 4 then Revoked else ch.status)])
  }

  /**
   A challenge whose factor is the mailed code: it is completed if and only if the code typed is the one that was
   mailed last for it, by the start of the factor or the check of the address, and that has not been matched
   or replaced since.  With any other code, or with a recovery code at a first login, an attempt is lost.
   */
  lemma MailedCodeIsRightExactlyWhen(cfg: Config, clock: int, steps: seq<Step>, last: Step)
    requires cfg.mfaOn && last.op.Complete?
    requires var w := Run(cfg, Start(clock), steps); var c := last.op.challenge;
      Open(w.db, c, w.clock + last.tick) && w.db.challenges[c].way == Some(Email) && last.op.login !in w.db.logins
    requires var ch := Run(cfg, Start(clock), steps).db.challenges[last.op.challenge];
      if ch.purpose == Onboard then ReadyToEnrol(ch, last.op.recovery)
      else last.op.guess.Code? || ch.purpose == Password
    ensures var w := Run(cfg, Start(clock), steps); var c := last.op.challenge;
      var (db1, e) := Handle(cfg, w.db, last.op, w.clock + last.tick);
      if last.op.guess.Code? && Stands(w.log, c, last.op.guess.code)
      then e.Succeeded? && e.challenge == c && e.user == w.db.challenges[c].user
      else e == FailedOnce(c) && LosesAttempt(w.db, db1, c)
  {
    hide Run, Stands, NewLogins, FreshCodes;
    NothingMailed(clock);
    RunTellsCodes(cfg, Start(clock), steps);
    assert CodeIsTold(Run(cfg, Start(clock), steps), last.op.challenge);
  }

  /** Without any conditions: where the mailed code is the factor, only the code that stands succeeds. */
  lemma OnlyTheMailedCodeSucceeds(cfg: Config, clock: int, steps: seq<Step>, last: Step)
    requires last.op.Complete?
    requires var w := Run(cfg, Start(clock), steps);
      Handle(cfg, w.db, last.op, w.clock + last.tick).1.Succeeded? &&
      last.op.challenge in w.db.challenges && w.db.challenges[last.op.challenge].way == Some(Email) &&
      !(last.op.guess.Recovery? && w.db.challenges[last.op.challenge].purpose == Verify)
    ensures var w := Run(cfg, Start(clock), steps);
      last.op.guess.Code? && Stands(w.log, last.op.challenge, last.op.guess.code)
  {
    hide Run, Stands, Enrolled, Authenticated;
    NothingMailed(clock);
    RunTellsCodes(cfg, Start(clock), steps);
    assert CodeIsTold(Run(cfg, Start(clock), steps), last.op.challenge);
  }

  /** The address is verified by the code that stands, and by no other. */
  lemma AddressIsVerifiedExactlyWhen(cfg: Config, clock: int, steps: seq<Step>, last: Step)
    requires last.op.VerifyEmail?
    requires var w := Run(cfg, Start(clock), steps); var c := last.op.challenge;
      Open(w.db, c, w.clock + last.tick) && w.db.challenges[c].purpose == Onboard && w.db.challenges[c].email.Some?
    ensures var w := Run(cfg, Start(clock), steps); var c := last.op.challenge;
      var (db1, e) := Handle(cfg, w.db, last.op, w.clock + last.tick);
      if Stands(w.log, c, last.op.code)
      then e == Matched(c, last.op.code) && c in db1.challenges && db1.challenges[c].verified
      else e == FailedOnce(c) && LosesAttempt(w.db, db1, c)
  {
    hide Run, Stands;
    NothingMailed(clock);
    RunTellsCodes(cfg, Start(clock), steps);
    assert CodeIsTold(Run(cfg, Start(clock), steps), last.op.challenge);
  }

  /** After a mail was sent, the next one for the challenge waits a minute. */
  lemma NextMailWaits(cfg: Config, db: Db, op: Op, now: int, again: Op, later: int)
    requires op.SendEmail? || op.StartMfa?
    requires again.SendEmail? || (again.StartMfa? && again.way == Email)
    requires again.challenge == op.challenge && later < now + 60 * SECOND
    requires var e := Handle(cfg, db, op, now).1;
      (e.Delivered? || (e.Started? && e.mailed.Some?)) && e.sent
    ensures var db1 := Handle(cfg, db, op, now).0; Handle(cfg, db1, again, later) == (db1, Nothing)
  {
  }

  /***** Time codes and recovery codes *****/

  /** The code typed proves the user, by a recovery code or the user's own secret. */
  predicate RightOffline(db: Db, ch: Challenge, guess: Guess) {
    if guess.Recovery? then
      ch.purpose == Verify && ch.user in db.codes && guess.hash in db.codes[ch.user] && !db.codes[ch.user][guess.hash]
    else
      ch.way == Some(Totp) && guess.totp.Some? &&
      if ch.purpose == Onboard then ch.secret.Some?
      else ch.user in db.mfa && db.mfa[ch.user].secret.Some? && db.mfa[ch.user].lastCounter < guess.totp.value
  }

  /**
   Without the mail: the challenge is completed if and only if the recovery code is unused, or the time code
   is right and later than the last one accepted, and a first login has everything else.
   */
  lemma OfflineCodeIsRightExactlyWhen(cfg: Config, db: Db, op: Op, now: int)
    requires op.Complete? && op.challenge in db.challenges
    requires db.challenges[op.challenge].way != Some(Email) ||
             (op.guess.Recovery? && db.challenges[op.challenge].purpose == Verify)
    ensures var ch := db.challenges[op.challenge]; var e := Handle(cfg, db, op, now).1;
      e.Succeeded? <==>
      cfg.mfaOn && Open(db, op.challenge, now) && RightOffline(db, ch, op.guess) && op.login !in db.logins &&
      (ch.purpose == Onboard ==> ReadyToEnrol(ch, op.recovery))
  {
    hide NewLogins, FreshCodes;
  }

  /** Whatever the factor, a completion records it: the counter accepted, the recovery code spent. */
  lemma SuccessIsRecorded(cfg: Config, db: Db, op: Op, now: int)
    requires op.Complete? && Handle(cfg, db, op, now).1.Succeeded?
    ensures var (db1, e) := Handle(cfg, db, op, now); var ch := db.challenges[op.challenge]; var u := ch.user;
      e.user == u && e.how.NewPassword? == false &&
      if ch.purpose == Onboard then
        e.how.Enrolment? && u in db1.mfa && u in db1.codes && ch.way.Some? &&
        db1.mfa == db.mfa[u := Mfa(ch.secret, ch.way.value, db1.mfa[u].lastCounter)] &&
        (ch.way == Some(Totp) ==> op.guess.Code? && op.guess.totp == Some(db1.mfa[u].lastCounter)) &&
        (ch.way == Some(Email) ==> db1.mfa[u].lastCounter == 0) && ch.email == Some(e.how.email) &&
        db1.codes[u].Keys == (set h | h in op.recovery) && forall h | h in op.recovery :: !db1.codes[u][h]
      else if op.guess.Recovery? && ch.purpose == Verify then
        e.how == ByFactor(RecoveryCode(op.guess.hash)) && db1.mfa == db.mfa &&
        u in db.codes && u in db1.codes && db1.codes == db.codes[u := db1.codes[u]] &&
        db1.codes[u] == db.codes[u][op.guess.hash := true]
      else if ch.way == Some(Totp) then
        op.guess.Code? && op.guess.totp.Some? && e.how == ByFactor(TotpCounter(op.guess.totp.value)) &&
        db1.mfa == db.mfa[u := db.mfa[u].(lastCounter := op.guess.totp.value)] && db1.codes == db.codes
      else
        e.how == ByFactor(EmailCode) && db1.mfa == db.mfa && db1.codes == db.codes
  {
    hide NewLogins;
  }

  /***** Where logins come from *****/

  predicate LogsInAtOnce(cfg: Config, db: Db, op: Op) {
    op.LogIn? && !cfg.mfaOn && op.user in db.users && db.users[op.user].enabled && !db.users[op.user].mustChange
  }

  /** A step that is not about logins may end some, but none begins and none comes back. */
  predicate LoginsOnlyEnd(db: Db, db1: Db, l: nat) {
    (l in db1.logins <==> l in db.logins) &&
    (l in db.logins ==> db1.logins[l].user == db.logins[l].user && (db1.logins[l].active ==> db.logins[l].active))
  }

  predicate LoginBegins(db: Db, db1: Db, l: nat, login: nat, user: nat) {
    (l in db.logins ==> l in db1.logins && db1.logins[l].user == db.logins[l].user &&
                        (db1.logins[l].active ==> db.logins[l].active)) &&
    (l in db1.logins && l !in db.logins <==> l == login) &&
    login in db1.logins && db1.logins[login] == Login(user, true)
  }

  lemma CompletionLogsIn(cfg: Config, db: Db, op: Op, now: int, l: nat)
    requires Completes(op)
    ensures var (db1, e) := Handle(cfg, db, op, now);
      if e.Succeeded? then op.login !in db.logins && LoginBegins(db, db1, l, op.login, e.user)
      else LoginsOnlyEnd(db, db1, l)
  {
    hide Handle, CompleteDone, SetPasswordDone;
    HandleConcludes(cfg, db, op, now);
    HandleCompletes(cfg, db, op, now);
    if op.Complete? {
      if Handle(cfg, db, op, now).1.Succeeded? {
        CompleteLogsIn(cfg, db, op, now);
      } else {
        FailureRollsBack(cfg, db, op, now);
      }
    } else if Handle(cfg, db, op, now).1.Succeeded? {
      SetPasswordLogsIn(cfg, db, op, now);
    } else {
      PasswordIsChangedExactlyWhen(cfg, db, op, now);
    }
  }

  lemma HandleCompletes(cfg: Config, db: Db, op: Op, now: int)
    ensures op.Complete? ==> Handle(cfg, db, op, now) == CompleteDone(cfg, db, op, now)
    ensures op.SetPassword? ==> Handle(cfg, db, op, now) == SetPasswordDone(db, op, now)
  {
  }

  lemma LogInLogsIn(cfg: Config, db: Db, op: Op, now: int, l: nat)
    requires op.LogIn?
    ensures var db1 := Handle(cfg, db, op, now).0;
      if LogsInAtOnce(cfg, db, op) && op.login !in db.logins then LoginBegins(db, db1, l, op.login, op.user)
      else db1.logins == db.logins
  {
  }

  lemma OthersLogNobodyIn(cfg: Config, db: Db, op: Op, now: int, l: nat)
    requires !Completes(op) && !op.LogIn?
    ensures LoginsOnlyEnd(db, Handle(cfg, db, op, now).0, l)
  {
    hide CompleteDone, SetPasswordDone, LogInDone;
  }

  /**
   A login begins only with a challenge completed, or, without second factors, by the password alone for a
   user who need not change it.  No step revives one, and no other step begins one.
   */
  lemma LoginsComeFromSuccess(cfg: Config, db: Db, op: Op, now: int, l: nat)
    ensures var (db1, e) := Handle(cfg, db, op, now);
      if Completes(op) && e.Succeeded? then op.login !in db.logins && LoginBegins(db, db1, l, op.login, e.user)
      else if LogsInAtOnce(cfg, db, op) && op.login !in db.logins then LoginBegins(db, db1, l, op.login, op.user)
      else LoginsOnlyEnd(db, db1, l)
  {
    hide Handle;
    if Completes(op) {
      CompletionLogsIn(cfg, db, op, now, l);
    } else if op.LogIn? {
      LogInLogsIn(cfg, db, op, now, l);
    } else {
      OthersLogNobodyIn(cfg, db, op, now, l);
    }
  }

  /** What the first step of a login leads to: a challenge whose purpose depends on what the user lacks. */
  lemma LogInLeadsTo(cfg: Config, db: Db, op: Op, now: int)
    requires op.LogIn? && op.user in db.users && db.users[op.user].enabled && !LogsInAtOnce(cfg, db, op)
    ensures var db1 := Handle(cfg, db, op, now).0; var u := db.users[op.user];
      op.challenge in db1.challenges && db1.logins == db.logins && db1.users == db.users &&
      var ch := db1.challenges[op.challenge];
      Open(db1, op.challenge, now) && ch.user == op.user && ch.attempts == 0 && ch.code.None? && !ch.verified &&
      (ch.purpose == Password <==> !cfg.mfaOn) &&
      (ch.purpose == Onboard <==> cfg.mfaOn && (u.mustChange || u.email.None? || op.user !in db.mfa)) &&
      (ch.way.Some? ==> ch.way == Some(Totp) && op.user in db.mfa && db.mfa[op.user].preferred == Totp) &&
      forall other | other in db1.challenges && other != op.challenge && db1.challenges[other].status == Active ::
        db1.challenges[other].user != op.user
  {
  }

  /** A password is changed on a challenge made for that if and only if it is a new one. */
  lemma PasswordIsChangedExactlyWhen(cfg: Config, db: Db, op: Op, now: int)
    requires op.SetPassword?
    ensures var (db1, e) := Handle(cfg, db, op, now); var c := op.challenge;
      (e.Succeeded? <==>
       Open(db, c, now) && db.challenges[c].purpose == Password && op.login !in db.logins &&
       db.users[db.challenges[c].user].password != op.hash) &&
      (e == PasswordSet(c) <==>
       Open(db, c, now) && db.challenges[c].purpose == Onboard &&
       db.users[db.challenges[c].user].password != op.hash) &&
      (e.Succeeded? ==>
         var u := db.challenges[c].user;
         u in db1.users && db1.users == db.users[u := db.users[u].(password := op.hash, mustChange := false)]) &&
      (e.PasswordSet? ==>
         db1 == db.(challenges := db.challenges[c := db.challenges[c].(newPassword := Some(op.hash))])) &&
      (!e.Succeeded? && !e.PasswordSet? ==> db1 == db && e == Nothing)
  {
  }

  /***** What a step leaves alone *****/

  /** The step is about this challenge, or makes its user begin again. */
  predicate Concerns(op: Op, c: nat, user: nat) {
    match op
    case LogIn(u, challenge, _) => u == user || challenge == c
    case Reset(u) => u == user
    case SetPassword(challenge, _, _) => challenge == c
    case SendEmail(challenge, _, _, _) => challenge == c
    case VerifyEmail(challenge, _) => challenge == c
    case StartMfa(challenge, _, _, _, _) => challenge == c
    case Complete(challenge, _, _, _) => challenge == c
    case _ => false
  }

  /** A challenge that is still open is not touched by anything that does not concern it, clean-ups included. */
  lemma OpenChallengeIsLeftAlone(cfg: Config, db: Db, op: Op, now: int, c: nat)
    requires c in db.challenges && db.challenges[c].status == Active && now < db.challenges[c].expiresAt
    requires !Concerns(op, c, db.challenges[c].user)
    ensures var db1 := Handle(cfg, db, op, now).0; c in db1.challenges && db1.challenges[c] == db.challenges[c]
  {
    hide Handle;
    if Completes(op) {
      HandleConcludes(cfg, db, op, now);
    } else {
      OtherLeavesAlone(cfg, db, op, now, c);
    }
  }

  lemma OtherLeavesAlone(cfg: Config, db: Db, op: Op, now: int, c: nat)
    requires c in db.challenges && db.challenges[c].status == Active && now < db.challenges[c].expiresAt
    requires !Concerns(op, c, db.challenges[c].user) && !Completes(op)
    ensures var db1 := Handle(cfg, db, op, now).0; c in db1.challenges && db1.challenges[c] == db.challenges[c]
  {
    hide CompleteDone, SetPasswordDone, LoginsEnded;
  }

  /** A reset takes the factor, the codes, the open challenges and the logins of its user, and of nobody else. */
  lemma ResetTakesAll(cfg: Config, db: Db, user: nat, now: int)
    requires user in db.users
    ensures var db1 := Handle(cfg, db, Reset(user), now).0;
      db1.mfa == db.mfa - {user} && db1.codes == db.codes - {user} &&
      db1.users == db.users[user := db.users[user].(mustChange := true)] &&
      (forall c | c in db1.challenges :: db1.challenges[c].user == user ==> db1.challenges[c].status != Active) &&
      (forall l | l in db1.logins :: db1.logins[l].user == user ==> !db1.logins[l].active) &&
      (forall l | l in db.logins && db.logins[l].user != user :: l in db1.logins && db1.logins[l] == db.logins[l]) &&
      (forall c | c in db.challenges && db.challenges[c].user != user ::
         c in db1.challenges && db1.challenges[c] == db.challenges[c])
  {
  }
}
