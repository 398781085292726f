/**
 Second-factor challenges: how `store/mfa.go` changes their rows, driven by the handlers of
 `api/api.go`, one handler call per step.  A challenge leads a user through the first login - new
 password, verified address, second factor - or checks the second factor of a later one.

 Hashes, secrets and codes are numbers and an empty text is `None`.  A code's hash contains the
 challenge it was made for, so two hashes stored for one challenge are equal exactly when the codes
 are, and codes stand for their hashes here.  Whether a six-digit code is right is an input.
 */
module MfaStore {
  import opened ListFacts
  import opened Outcomes

  const SECOND: int := 1_000_000_000
  const CODE_COOLDOWN: int := 60 * SECOND
  const CHALLENGE_LIFE: int := 600 * SECOND
  const MAX_ATTEMPTS: nat := 5
  const MIN_RECOVERY: nat := 8

  datatype Method = Totp | Email

  datatype Purpose = Verify | Onboard | Password

  datatype Status = Active | Consumed | Revoked

  datatype User = User(enabled: bool, mustChange: bool, password: nat, email: Option<nat>)

  datatype Challenge = Challenge(user: nat, purpose: Purpose, way: Option<Method>, secret: Option<nat>,
                                 email: Option<nat>, code: Option<nat>, verified: bool, sentAt: Option<int>,
                                 newPassword: Option<nat>, status: Status, attempts: nat, expiresAt: int)

  datatype Mfa = Mfa(secret: Option<nat>, preferred: Method, lastCounter: int)

  datatype Login = Login(user: nat, active: bool)

  /** `codes` maps a user's recovery codes to whether each has been used. */
  datatype Db = Db(users: map<nat, User>, mfa: map<nat, Mfa>, codes: map<nat, map<nat, bool>>,
                   challenges: map<nat, Challenge>, logins: map<nat, Login>)

  datatype Error = ErrChallenge | ErrCooldown | ErrReplay | ErrConstraint

  function WithChallenge(db: Db, c: nat, ch: Challenge): Db {
    db.(challenges := db.challenges[c := ch])
  }

  /***** Statements and transactions of the store *****/

  predicate ActiveNow(db: Db, c: nat, now: int) {
    c in db.challenges && db.challenges[c].status == Active && now < db.challenges[c].expiresAt
  }

  function ChallengesRevoked(db: Db, user: nat): Db {
    db.(challenges := map c | c in db.challenges ::
          if db.challenges[c].user == user && db.challenges[c].status == Active
          then db.challenges[c].(status := Revoked) else db.challenges[c])
  }

  function LoginsEnded(logins: map<nat, Login>, user: nat): map<nat, Login> {
    map l | l in logins :: if logins[l].user == user then logins[l].(active := false) else logins[l]
  }

  function ChallengeCreated(db: Db, c: nat, user: nat, purpose: Purpose, expiresAt: int): Db {
    WithChallenge(ChallengesRevoked(db, user), c,
                  Challenge(user, purpose, None, None, None, None, false, None, None, Active, 0, expiresAt))
  }

  /** `SetOnboardingPassword` */
  function PasswordKept(db: Db, c: nat, hash: nat, now: int): Option<Db> {
    if ActiveNow(db, c, now) && db.challenges[c].purpose == Onboard && db.challenges[c].attempts < MAX_ATTEMPTS
    then Some(WithChallenge(db, c, db.challenges[c].(newPassword := Some(hash)))) else None
  }

  predicate Cooled(sentAt: Option<int>, now: int) {
    sentAt.None? || sentAt.value <= now - CODE_COOLDOWN
  }

  /** `SetOnboardingEmailDelivery`: the address is not verified any more. */
  function DeliveryKept(db: Db, c: nat, email: nat, code: nat, expiresAt: int, now: int): Option<Db> {
    if c in db.challenges && db.challenges[c].status == Active && db.challenges[c].purpose == Onboard &&
       db.challenges[c].newPassword.Some? && db.challenges[c].attempts < MAX_ATTEMPTS &&
         Cooled(db.challenges[c].sentAt, now)
    then Some(WithChallenge(db, c, db.challenges[c].(email := Some(email), code := Some(code), verified := false,
                                                     sentAt := Some(now), expiresAt := expiresAt)))
    else None
  }

  /** `VerifyOnboardingEmail` */
  function AddressVerified(db: Db, c: nat, code: nat): Option<Db> {
    if c in db.challenges && db.challenges[c].status == Active && db.challenges[c].purpose == Onboard &&
       db.challenges[c].code == Some(code) && db.challenges[c].email.Some?
    then Some(WithChallenge(db, c, db.challenges[c].(verified := true, code := None))) else None
  }

  /** `SetMFAChallengeMethod` */
  function MethodKept(db: Db, c: nat, way: Method, secret: Option<nat>, code: Option<nat>, expiresAt: int,
                      now: int): Option<Db> {
    if c in db.challenges && db.challenges[c].status == Active && db.challenges[c].attempts < MAX_ATTEMPTS &&
       (code.None? || db.challenges[c].code.None? || Cooled(db.challenges[c].sentAt, now))
    then Some(WithChallenge(db, c, db.challenges[c].(way := Some(way), secret := secret, code := code,
                                                     sentAt := if code.Some?
                                                               then Some(now) else db.challenges[c].sentAt,
                                                     expiresAt := expiresAt)))
    else None
  }

  /** `ClearMFAEmailDelivery` */
  function DeliveryCleared(db: Db, c: nat, code: nat): Db {
    if c in db.challenges && db.challenges[c].status == Active && db.challenges[c].code == Some(code)
    then WithChallenge(db, c, db.challenges[c].(code := None, sentAt := None)) else db
  }

  /** `FailMFAChallenge`: the fifth failure ends the challenge. */
  function Failed(db: Db, c: nat): Db {
    if c in db.challenges && db.challenges[c].status == Active then
      var ch := db.challenges[c];
      WithChallenge(db, c, ch.(attempts := ch.attempts + 1,
                               status := if ch.attempts + 1 >= MAX_ATTEMPTS then Revoked else ch.status))
    else db
  }

  /** `MFAChallengeByToken` finds it. */
  predicate Loadable(db: Db, c: nat, now: int) {
    ActiveNow(db, c, now) && db.challenges[c].attempts < MAX_ATTEMPTS &&
    db.challenges[c].user in db.users && db.users[db.challenges[c].user].enabled
  }

  /** Every active login of the user ends and a new one begins. */
  function NewLogins(logins: map<nat, Login>, user: nat, login: nat): map<nat, Login> {
    LoginsEnded(logins, user)[login := Login(user, true)]
  }

  function LoggedIn(db: Db, user: nat, login: nat): Db {
    db.(logins := NewLogins(db.logins, user, login))
  }

  /** What the second step of a login proves itself with. */
  datatype Factor = TotpCounter(counter: int) | RecoveryCode(hash: nat) | EmailCode

  function FreshCodes(recovery: seq<nat>): map<nat, bool> {
    map h | h in recovery :: false
  }

  predicate MayComplete(db: Db, c: nat, onboarding: bool, now: int) {
    ActiveNow(db, c, now) && db.challenges[c].user in db.users && db.users[db.challenges[c].user].enabled &&
    (onboarding <==> db.challenges[c].purpose == Onboard)
  }

  predicate MayEnrol(ch: Challenge, bound: Option<Method>, recovery: seq<nat>) {
    bound.Some? && |recovery| >= MIN_RECOVERY && ch.verified && ch.email.Some? && ch.newPassword.Some? &&
    (bound == Some(Totp) ==> ch.secret.Some?)
  }

  /** `CompleteMFAEnrollment`, all or nothing. */
  function Enrolled(db: Db, c: nat, bound: Option<Method>, counter: int, recovery: seq<nat>, login: nat,
                    now: int): (r: Result<Db, Error>)
  {
    if !MayComplete(db, c, true, now) then Err(ErrChallenge)
    else
      var ch := db.challenges[c];
      if !MayEnrol(ch, bound, recovery) then Err(ErrChallenge)
      else if !NoRepeats(recovery) || login in db.logins then Err(ErrConstraint)
      else
        var db1 := WithChallenge(db, c, ch.(status := Consumed));
        Ok(LoggedIn(db1.(users := db.users[ch.user := db.users[ch.user].(password := ch.newPassword.value,
                                                                         email := ch.email, mustChange := false)],
                         mfa := db.mfa[ch.user := Mfa(ch.secret, bound.value, counter)],
                         codes := db.codes[ch.user := FreshCodes(recovery)]), ch.user, login))
  }

  predicate UnusedCode(db: Db, user: nat, hash: nat) {
    user in db.codes && hash in db.codes[user] && !db.codes[user][hash]
  }

  /** `CompleteMFAAuthentication`, all or nothing. */
  function Authenticated(db: Db, c: nat, factor: Factor, login: nat, now: int): (r: Result<Db, Error>)
  {
    if !MayComplete(db, c, false, now) then Err(ErrChallenge)
    else
      var user := db.challenges[c].user;
      var db1 := WithChallenge(db, c, db.challenges[c].(status := Consumed));
      match factor
      case TotpCounter(counter) =>
        if user !in db.mfa || db.mfa[user].lastCounter >= counter then Err(ErrReplay)
        else if login in db.logins then Err(ErrConstraint)
        else Ok(LoggedIn(db1.(mfa := db.mfa[user := db.mfa[user].(lastCounter := counter)]), user, login))
      case RecoveryCode(hash) =>
        if !UnusedCode(db, user, hash) then Err(ErrChallenge)
        else if login in db.logins then Err(ErrConstraint)
        else
          var left: map<nat, bool> := db.codes[user][hash := true];
          Ok(LoggedIn(db1.(codes := db.codes[user := left]), user, login))
      case EmailCode =>
        if login in db.logins then Err(ErrConstraint) else Ok(LoggedIn(db1, user, login))
  }

  /** `CompletePasswordChange`, all or nothing. */
  function PasswordChanged(db: Db, c: nat, hash: nat, login: nat, now: int): (r: Result<Db, Error>)
  {
    if !(ActiveNow(db, c, now) && db.challenges[c].user in db.users && db.challenges[c].purpose == Password &&
         db.users[db.challenges[c].user].enabled) then Err(ErrChallenge)
    else if login in db.logins then Err(ErrConstraint)
    else
      var user := db.challenges[c].user;
      Ok(LoggedIn(WithChallenge(db, c, db.challenges[c].(status := Consumed))
                  .(users := db.users[user := db.users[user].(password := hash, mustChange := false)]), user, login))
  }

  /** `resetUserMFA` */
  function MfaReset(db: Db, user: nat): Db {
    if user !in db.users then db
    else ChallengesRevoked(db, user)
         .(logins := LoginsEnded(db.logins, user), mfa := db.mfa - {user}, codes := db.codes - {user},
           users := db.users[user := db.users[user].(mustChange := true)])
  }

  function ChallengesCleaned(db: Db, now: int): Db {
    db.(challenges := map c | c in db.challenges && now < db.challenges[c].expiresAt &&
        db.challenges[c].status == Active :: db.challenges[c])
  }

  /***** Handlers *****/

  /** Is the second factor switched on, and what may it be? */
  datatype Config = Config(mfaOn: bool, methods: set<Method>, codeLife: nat)

  /** What the user typed: a code that looks like a recovery code, or one that does not. */
  datatype Guess = Recovery(hash: nat) | Code(code: nat, totp: Option<int>)

  datatype Op =
    | AddUser(user: nat, password: nat, contact: Option<nat>)
    | SetUser(user: nat, enabled: bool)
    | LogIn(user: nat, challenge: nat, login: nat)
    | SetPassword(challenge: nat, hash: nat, login: nat)
    | SendEmail(challenge: nat, email: nat, code: nat, sent: bool)
    | VerifyEmail(challenge: nat, code: nat)
    | StartMfa(challenge: nat, way: Method, secret: nat, code: nat, sent: bool)
    | Complete(challenge: nat, guess: Guess, recovery: seq<nat>, login: nat)
    | Reset(user: nat)
    | CleanUp

  /** What a handler call achieved, for the record; `sent` says whether the mail could be sent. */
  datatype Event =
    | Nothing
    | PasswordSet(challenge: nat)
    | Delivered(challenge: nat, email: nat, code: nat, sent: bool)
    | Started(challenge: nat, mailed: Option<nat>, sent: bool)
    | Matched(challenge: nat, code: nat)
    | FailedOnce(challenge: nat)
    | Succeeded(challenge: nat, user: nat, how: How)
    | WasReset(user: nat)

  datatype How = Enrolment(email: nat, counter: int) | ByFactor(factor: Factor) | NewPassword

  function LogInDone(cfg: Config, db: Db, op: Op, now: int): Db
    requires op.LogIn?
  {
    if op.user !in db.users || !db.users[op.user].enabled then db
    else
      var u := db.users[op.user];
      if !cfg.mfaOn && !u.mustChange then
        (if op.login in db.logins then db else db.(logins := db.logins[op.login := Login(op.user, true)]))
      else
        var purpose := if !cfg.mfaOn then Password
                       else if u.mustChange || u.email.None? || op.user !in db.mfa then Onboard else Verify;
        var db1 := ChallengeCreated(db, op.challenge, op.user, purpose, now + CHALLENGE_LIFE);
        if cfg.mfaOn && op.user in db.mfa && db.mfa[op.user].preferred == Totp then
          var db2 := MethodKept(db1, op.challenge, Totp, None, None, now + CHALLENGE_LIFE, now);
          if db2.Some? then db2.value else db1
        else db1
  }

  function SetPasswordDone(db: Db, op: Op, now: int): (Db, Event)
    requires op.SetPassword?
  {
    if !Loadable(db, op.challenge, now) || db.challenges[op.challenge].purpose == Verify ||
       db.users[db.challenges[op.challenge].user].password == op.hash then (db, Nothing)
    else if db.challenges[op.challenge].purpose == Password then
      match PasswordChanged(db, op.challenge, op.hash, op.login, now)
      case Ok(db1) => (db1, Succeeded(op.challenge, db.challenges[op.challenge].user, NewPassword))
      case Err(_) => (db, Nothing)
    else
      match PasswordKept(db, op.challenge, op.hash, now)
      case Some(db1) => (db1, PasswordSet(op.challenge))
      case None => (db, Nothing)
  }

  function SendEmailDone(cfg: Config, db: Db, op: Op, now: int): (Db, Event)
    requires op.SendEmail?
  {
    if !Loadable(db, op.challenge, now) || db.challenges[op.challenge].purpose != Onboard ||
       db.challenges[op.challenge].newPassword.None? then (db, Nothing)
    else
      match DeliveryKept(db, op.challenge, op.email, op.code, now + cfg.codeLife, now)
      case None => (db, Nothing)
      case Some(db1) => (if op.sent then db1 else DeliveryCleared(db1, op.challenge, op.code),
                         Delivered(op.challenge, op.email, op.code, op.sent))
  }

  function FailDone(db: Db, c: nat): (Db, Event) {
    (Failed(db, c), if c in db.challenges && db.challenges[c].status == Active then FailedOnce(c) else Nothing)
  }

  function VerifyEmailDone(db: Db, op: Op, now: int): (Db, Event)
    requires op.VerifyEmail?
  {
    if !Loadable(db, op.challenge, now) || db.challenges[op.challenge].purpose != Onboard then (db, Nothing)
    else
      match AddressVerified(db, op.challenge, op.code)
      case Some(db1) => (db1, Matched(op.challenge, op.code))
      case None => FailDone(db, op.challenge)
  }

  function StartMfaDone(cfg: Config, db: Db, op: Op, now: int): (Db, Event)
    requires op.StartMfa?
  {
    var c := op.challenge;
    if !cfg.mfaOn || !Loadable(db, c, now) || op.way !in cfg.methods then (db, Nothing)
    else if db.challenges[c].purpose == Onboard &&
            (db.challenges[c].newPassword.None? || !db.challenges[c].verified) then (db, Nothing)
    else if db.challenges[c].purpose == Verify &&
            !(db.challenges[c].user in db.mfa && db.mfa[db.challenges[c].user].preferred == op.way) then (db, Nothing)
    else
      var secret := if op.way == Totp && db.challenges[c].purpose == Onboard then Some(op.secret) else None;
      var code := if op.way == Email then Some(op.code) else None;
      match MethodKept(db, c, op.way, secret, code, now + CHALLENGE_LIFE, now)
      case None => (db, Nothing)
      case Some(db1) =>
        (if op.way == Email && !op.sent then DeliveryCleared(db1, c, op.code) else db1, Started(c, code, op.sent))
  }

  /** Which factor the typed code stands for; none if it is plainly wrong or nothing was started. */
  function FactorOf(ch: Challenge, guess: Guess): Option<Factor> {
    if guess.Recovery? && ch.purpose == Verify then Some(RecoveryCode(guess.hash))
    else
      match ch.way
      case Some(Email) => if guess.Code? && ch.code == Some(guess.code) then Some(EmailCode) else None
      case Some(Totp) => if guess.Code? && guess.totp.Some? then Some(TotpCounter(guess.totp.value)) else None
      case None => None
  }

  /** The secret that a six-digit code is checked with is missing or cannot be read. */
  predicate SecretMissing(db: Db, ch: Challenge, guess: Guess) {
    !(guess.Recovery? && ch.purpose == Verify) && ch.way == Some(Totp) &&
    if ch.purpose == Onboard then ch.secret.None? else !(ch.user in db.mfa && db.mfa[ch.user].secret.Some?)
  }

  function CounterOf(factor: Factor): int {
    if factor.TotpCounter? then factor.counter else 0
  }

  function CompleteDone(cfg: Config, db: Db, op: Op, now: int): (Db, Event)
    requires op.Complete?
  {
    var c := op.challenge;
    if !cfg.mfaOn || !Loadable(db, c, now) then (db, Nothing)
    else
      var ch := db.challenges[c];
      if SecretMissing(db, ch, op.guess) then (db, Nothing)
      else
        match FactorOf(ch, op.guess)
        case None => FailDone(db, c)
        case Some(factor) =>
          var r := if ch.purpose == Onboard
                   then Enrolled(db, c, ch.way, CounterOf(factor), op.recovery, op.login, now)
                   else Authenticated(db, c, factor, op.login, now);
          match r
          case Ok(db1) =>
            (db1, Succeeded(c, ch.user, if ch.purpose == Onboard && ch.email.Some?
                                        then Enrolment(ch.email.value, CounterOf(factor)) else ByFactor(factor)))
          case Err(e) => if e == ErrConstraint then (db, Nothing) else FailDone(db, c)
  }

  function Handle(cfg: Config, db: Db, op: Op, now: int): (Db, Event) {
    match op
    case AddUser(user, password, contact) =>
      (if user in db.users then db else db.(users := db.users[user := User(true, true, password, contact)]), Nothing)
    case SetUser(user, enabled) =>
      (if user in db.users then db.(users := db.users[user := db.users[user].(enabled := enabled)]) else db, Nothing)
    case LogIn(_, _, _) => (LogInDone(cfg, db, op, now), Nothing)
    case SetPassword(_, _, _) => SetPasswordDone(db, op, now)
    case SendEmail(_, _, _, _) => SendEmailDone(cfg, db, op, now)
    case VerifyEmail(_, _) => VerifyEmailDone(db, op, now)
    case StartMfa(_, _, _, _, _) => StartMfaDone(cfg, db, op, now)
    case Complete(_, _, _, _) => CompleteDone(cfg, db, op, now)
    case Reset(user) => (MfaReset(db, user), if user in db.users then WasReset(user) else Nothing)
    case CleanUp => (ChallengesCleaned(db, now), Nothing)
  }

  /***** Runs *****/

  datatype Step = Step(tick: nat, op: Op)

  /** `born`: the challenge numbers drawn so far; a new one is never one of them. */
  datatype World = World(db: Db, clock: int, born: set<nat>, log: seq<Event>)

  predicate Fresh(w: World, op: Op) {
    op.LogIn? ==> op.challenge !in w.born
  }

  function Next(cfg: Config, w: World, s: Step): World {
    var now := w.clock + s.tick;
    if !Fresh(w, s.op) then w.(clock := now)
    else
      var (db1, event) := Handle(cfg, w.db, s.op, now);
      World(db1, now, if s.op.LogIn? then w.born + {s.op.challenge} else w.born, w.log + [event])
  }

  function Run(cfg: Config, w: World, steps: seq<Step>): World
    decreases |steps|
  {
    if steps == [] then w else Run(cfg, Next(cfg, w, steps[0]), steps[1..])
  }

  function Start(clock: int): World {
    World(Db(map[], map[], map[], map[], map[]), clock, {}, [])
  }

  /***** One active challenge, one login, all or nothing *****/

  predicate BothActive(db: Db, a: nat, b: nat) {
    a in db.challenges && b in db.challenges && db.challenges[a].status == db.challenges[b].status == Active &&
    db.challenges[a].user == db.challenges[b].user
  }

  predicate OneActive(db: Db, a: nat, b: nat) {
    BothActive(db, a, b) ==> a == b
  }

  predicate Born(w: World, c: nat) {
    c in w.db.challenges ==> c in w.born
  }

  /** The steps that can end a challenge as a success. */
  predicate Completes(op: Op) {
    op.Complete? || op.SetPassword?
  }

  /** What such a step can do to the challenge it names, and how it is recorded. */
  predicate Changed(ch: Challenge, ch1: Challenge, e: Event) {
    match e
    case FailedOnce(_) =>
      ch.status == Active && ch1 == ch.(attempts := ch.attempts + 1,
                                        status := if ch.attempts + 1 >= MAX_ATTEMPTS then Revoked else Active)
    case PasswordSet(_) => ch1 == ch.(newPassword := ch1.newPassword)
    case Succeeded(_, _, _) => ch.status == Active && ch1 == ch.(status := Consumed)
    case _ => false
  }

  predicate Concludes(db: Db, db1: Db, e: Event, c: nat) {
    if e == Nothing then db1 == db
    else
      (e.FailedOnce? || e.PasswordSet? || e.Succeeded?) && e.challenge == c &&
      c in db.challenges && c in db1.challenges && db1.challenges == db.challenges[c := db1.challenges[c]] &&
      Changed(db.challenges[c], db1.challenges[c], e)
  }

  lemma CompleteConcludes(cfg: Config, db: Db, op: Op, now: int)
    requires op.Complete?
    ensures Concludes(db, CompleteDone(cfg, db, op, now).0, CompleteDone(cfg, db, op, now).1, op.challenge)
  {
    hide NewLogins, LoginsEnded, MayEnrol, UnusedCode, NoRepeats, FreshCodes, FactorOf, SecretMissing, Loadable;
  }

  lemma SetPasswordConcludes(cfg: Config, db: Db, op: Op, now: int)
    requires op.SetPassword?
    ensures Concludes(db, SetPasswordDone(db, op, now).0, SetPasswordDone(db, op, now).1, op.challenge)
  {
    hide NewLogins, LoginsEnded;
  }

  lemma HandleConcludes(cfg: Config, db: Db, op: Op, now: int)
    requires Completes(op)
    ensures Concludes(db, Handle(cfg, db, op, now).0, Handle(cfg, db, op, now).1, op.challenge)
  {
    hide Concludes, CompleteDone, SetPasswordDone;
    if op.Complete? {
      CompleteConcludes(cfg, db, op, now);
    } else {
      SetPasswordConcludes(cfg, db, op, now);
    }
  }

  lemma LogInKeepsOneActive(cfg: Config, db: Db, op: Op, now: int, a: nat, b: nat)
    requires OneActive(db, a, b) && op.LogIn? && op.challenge !in db.challenges
    ensures OneActive(LogInDone(cfg, db, op, now), a, b)
    ensures LogInDone(cfg, db, op, now).challenges.Keys <= db.challenges.Keys + {op.challenge}
  {
  }

  /** Apart from logging in, no step makes a challenge active or moves it to another user. */
  lemma OtherKeepsOneActive(cfg: Config, db: Db, op: Op, now: int, a: nat, b: nat)
    requires OneActive(db, a, b) && !op.LogIn?
    ensures OneActive(Handle(cfg, db, op, now).0, a, b)
    ensures a in Handle(cfg, db, op, now).0.challenges ==> a in db.challenges
  {
    hide Handle;
    HandleMoves(cfg, db, op, now, a);
    HandleMoves(cfg, db, op, now, b);
  }

  lemma StepKeepsOneActive(cfg: Config, w: World, s: Step, a: nat, b: nat)
    requires OneActive(w.db, a, b) && Born(w, a) && Born(w, b) && (s.op.LogIn? ==> Born(w, s.op.challenge))
    ensures OneActive(Next(cfg, w, s).db, a, b) && Born(Next(cfg, w, s), a)
  {
    hide Handle, OneActive;
    var now := w.clock + s.tick;
    if Fresh(w, s.op) {
      if s.op.LogIn? {
        LogInKeepsOneActive(cfg, w.db, s.op, now, a, b);
        HandleLogIn(cfg, w.db, s.op, now);
      } else {
        OtherKeepsOneActive(cfg, w.db, s.op, now, a, b);
      }
    }
  }

  lemma HandleLogIn(cfg: Config, db: Db, op: Op, now: int)
    requires op.LogIn?
    ensures Handle(cfg, db, op, now) == (LogInDone(cfg, db, op, now), Nothing)
  {
  }

  ghost predicate OneActiveEach(w: World) {
    (forall c :: Born(w, c)) && forall a, b :: OneActive(w.db, a, b)
  }

  lemma {:induction false} RunKeepsOneActive(cfg: Config, w: World, steps: seq<Step>)
    requires OneActiveEach(w)
    ensures OneActiveEach(Run(cfg, w, steps))
    decreases |steps|
  {
    hide Next, OneActive, Born;
    if steps != [] {
      var w1 := Next(cfg, w, steps[0]);
      if steps[0].op.LogIn? {
        assert Born(w, steps[0].op.challenge);
      }
      forall a, b ensures OneActive(w1.db, a, b) {
        assert OneActive(w.db, a, b) && Born(w, a) && Born(w, b);
        StepKeepsOneActive(cfg, w, steps[0], a, b);
      }
      forall c ensures Born(w1, c) {
        assert OneActive(w.db, c, c) && Born(w, c);
        StepKeepsOneActive(cfg, w, steps[0], c, c);
      }
      RunKeepsOneActive(cfg, w1, steps[1..]);
    }
  }

  /** A user never has two active challenges. */
  lemma AtMostOneActiveChallenge(cfg: Config, clock: int, steps: seq<Step>, a: nat, b: nat)
    requires var db := Run(cfg, Start(clock), steps).db;
      a in db.challenges && b in db.challenges && db.challenges[a].user == db.challenges[b].user &&
      db.challenges[a].status == Active && db.challenges[b].status == Active
    ensures a == b
  {
    hide Run;
    StartIsOneActive(clock);
    RunKeepsOneActive(cfg, Start(clock), steps);
    assert OneActive(Run(cfg, Start(clock), steps).db, a, b);
  }

  lemma StartIsOneActive(clock: int)
    ensures OneActiveEach(Start(clock))
  {
  }

  function ActiveLogins(logins: map<nat, Login>, user: nat): set<nat> {
    set l | l in logins && logins[l].user == user && logins[l].active
  }

  lemma NewLoginIsTheOnlyOne(logins: map<nat, Login>, user: nat, login: nat, other: nat)
    requires login !in logins
    ensures ActiveLogins(NewLogins(logins, user, login), user) == {login}
    ensures other != user ==> ActiveLogins(NewLogins(logins, user, login), other) == ActiveLogins(logins, other)
  {
  }

  lemma CompleteLogsIn(cfg: Config, db: Db, op: Op, now: int)
    requires op.Complete? && CompleteDone(cfg, db, op, now).1.Succeeded?
    ensures var (db1, e) := CompleteDone(cfg, db, op, now);
      e.challenge == op.challenge && op.challenge in db.challenges && e.user == db.challenges[op.challenge].user &&
      op.login !in db.logins && db1.logins == NewLogins(db.logins, e.user, op.login)
    ensures var (db1, e) := CompleteDone(cfg, db, op, now);
      e.how.Enrolment? ==>
        e.user in db1.users && db1.users[e.user].email == Some(e.how.email) == db.challenges[op.challenge].email &&
        Some(db1.users[e.user].password) == db.challenges[op.challenge].newPassword && !db1.users[e.user].mustChange
  {
    hide NewLogins, NoRepeats, FreshCodes, SecretMissing;
  }

  lemma SetPasswordLogsIn(cfg: Config, db: Db, op: Op, now: int)
    requires op.SetPassword? && SetPasswordDone(db, op, now).1.Succeeded?
    ensures var (db1, e) := SetPasswordDone(db, op, now);
      e.challenge == op.challenge && op.challenge in db.challenges && e.user == db.challenges[op.challenge].user &&
      op.login !in db.logins && db1.logins == NewLogins(db.logins, e.user, op.login) && e.how.NewPassword?
  {
    hide NewLogins;
  }

  /**
   A completed challenge leaves its user exactly one login, the new one, and no other user's logins
   change; it is consumed; an enrolment gives the user the address verified and the password chosen on it.
   */
  lemma SuccessLeavesOneLogin(cfg: Config, db: Db, op: Op, now: int, other: nat)
    requires Completes(op) && Handle(cfg, db, op, now).1.Succeeded?
    ensures var (db1, e) := Handle(cfg, db, op, now);
      op.challenge in db.challenges && e.challenge == op.challenge && e.user == db.challenges[op.challenge].user &&
      op.login !in db.logins && ActiveLogins(db1.logins, e.user) == {op.login} &&
      (other != e.user ==> ActiveLogins(db1.logins, other) == ActiveLogins(db.logins, other)) &&
      op.challenge in db1.challenges && db1.challenges[op.challenge].status == Consumed
    ensures var (db1, e) := Handle(cfg, db, op, now);
      e.how.Enrolment? ==>
        e.user in db1.users && db1.users[e.user].email == Some(e.how.email) == db.challenges[op.challenge].email &&
        Some(db1.users[e.user].password) == db.challenges[op.challenge].newPassword && !db1.users[e.user].mustChange
  {
    hide NewLogins, ActiveLogins, CompleteDone, SetPasswordDone;
    HandleConcludes(cfg, db, op, now);
    if op.Complete? {
      CompleteLogsIn(cfg, db, op, now);
    } else {
      SetPasswordLogsIn(cfg, db, op, now);
    }
    NewLoginIsTheOnlyOne(db.logins, Handle(cfg, db, op, now).1.user, op.login, other);
  }

  /** A completion that fails changes nothing but the count of attempts, by at most one. */
  lemma FailureRollsBack(cfg: Config, db: Db, op: Op, now: int)
    requires op.Complete? && !Handle(cfg, db, op, now).1.Succeeded?
    ensures var (db1, e) := Handle(cfg, db, op, now);
      db1 == db || (e == FailedOnce(op.challenge) && db1 == Failed(db, op.challenge) &&
                    op.challenge in db.challenges && db.challenges[op.challenge].attempts < MAX_ATTEMPTS)
  {
  }

  /***** Attempts and successes *****/

  function Failures(log: seq<Event>, c: nat): nat {
    if log == [] then 0
    else Failures(log[..|log| - 1], c) + if log[|log| - 1] == FailedOnce(c) then 1 else 0
  }

  function Successes(log: seq<Event>, c: nat): nat {
    if log == [] then 0
    else
      var e := log[|log| - 1];
      Successes(log[..|log| - 1], c) + if e.Succeeded? && e.challenge == c then 1 else 0
  }

  lemma CountOneMore(log: seq<Event>, e: Event, c: nat)
    ensures Failures(log + [e], c) == Failures(log, c) + if e == FailedOnce(c) then 1 else 0
    ensures Successes(log + [e], c) == Successes(log, c) + if e.Succeeded? && e.challenge == c then 1 else 0
  {
    assert (log + [e])[..|log|] == log;
  }

  predicate Counted(w: World, c: nat) {
    Failures(w.log, c) <= MAX_ATTEMPTS && Successes(w.log, c) <= 1 && Born(w, c) &&
    (c !in w.born ==> Failures(w.log, c) == 0 && Successes(w.log, c) == 0) &&
    (c in w.db.challenges ==>
       var ch := w.db.challenges[c];
       ch.attempts == Failures(w.log, c) && (ch.status == Consumed <==> Successes(w.log, c) == 1) &&
       (ch.status == Active ==> ch.attempts < MAX_ATTEMPTS))
  }

  /** How one challenge's attempts and status can change in a step. */
  predicate Moves(db: Db, db1: Db, e: Event, c: nat) {
    (e == FailedOnce(c) || (e.Succeeded? && e.challenge == c) ==>
       c in db.challenges && db.challenges[c].status == Active && c in db1.challenges) &&
    (c in db1.challenges && c in db.challenges ==>
       var ch, ch1 := db.challenges[c], db1.challenges[c];
       ch1.user == ch.user && ch1.attempts == ch.attempts + (if e == FailedOnce(c) then 1 else 0) &&
       (if e.Succeeded? && e.challenge == c then ch1.status == Consumed
        else ch1.status == ch.status || (ch.status == Active && ch1.status == Revoked)) &&
       (ch1.status == Active ==> ch.status == Active && (e == FailedOnce(c) ==> ch1.attempts < MAX_ATTEMPTS)))
  }

  predicate Appears(db: Db, db1: Db, op: Op, c: nat) {
    c in db1.challenges && c !in db.challenges ==>
      op.LogIn? && op.challenge == c && db1.challenges[c].attempts == 0 && db1.challenges[c].status == Active
  }

  lemma CompleteMoves(cfg: Config, db: Db, op: Op, now: int, c: nat)
    requires Completes(op)
    ensures Moves(db, Handle(cfg, db, op, now).0, Handle(cfg, db, op, now).1, c)
    ensures Appears(db, Handle(cfg, db, op, now).0, op, c)
  {
    hide Handle;
    HandleConcludes(cfg, db, op, now);
  }

  lemma LogInMoves(cfg: Config, db: Db, op: Op, now: int, c: nat)
    requires op.LogIn? && op.challenge !in db.challenges
    ensures Moves(db, LogInDone(cfg, db, op, now), Nothing, c) && Appears(db, LogInDone(cfg, db, op, now), op, c)
  {
  }

  /** The steps that write down or check what is sent by mail, or choose the factor. */
  predicate Prepares(op: Op) {
    op.SendEmail? || op.VerifyEmail? || op.StartMfa?
  }

  lemma PrepareMoves(cfg: Config, db: Db, op: Op, now: int, c: nat)
    requires Prepares(op)
    ensures Moves(db, Handle(cfg, db, op, now).0, Handle(cfg, db, op, now).1, c)
    ensures Appears(db, Handle(cfg, db, op, now).0, op, c)
  {
    hide CompleteDone, SetPasswordDone, LogInDone, MfaReset, ChallengesCleaned;
  }

  lemma AdminMoves(cfg: Config, db: Db, op: Op, now: int, c: nat)
    requires op.AddUser? || op.SetUser? || op.Reset? || op.CleanUp?
    ensures Moves(db, Handle(cfg, db, op, now).0, Handle(cfg, db, op, now).1, c)
    ensures Appears(db, Handle(cfg, db, op, now).0, op, c)
  {
    hide CompleteDone, SetPasswordDone, LogInDone, SendEmailDone, VerifyEmailDone, StartMfaDone, LoginsEnded;
  }

  lemma HandleMoves(cfg: Config, db: Db, op: Op, now: int, c: nat)
    requires op.LogIn? ==> op.challenge !in db.challenges
    ensures Moves(db, Handle(cfg, db, op, now).0, Handle(cfg, db, op, now).1, c)
    ensures Appears(db, Handle(cfg, db, op, now).0, op, c)
  {
    hide Handle, Moves, Appears;
    if Completes(op) {
      CompleteMoves(cfg, db, op, now, c);
    } else if op.LogIn? {
      HandleLogIn(cfg, db, op, now);
      LogInMoves(cfg, db, op, now, c);
    } else if Prepares(op) {
      PrepareMoves(cfg, db, op, now, c);
    } else {
      AdminMoves(cfg, db, op, now, c);
    }
  }

  lemma StepKeepsCounted(cfg: Config, w: World, s: Step, c: nat)
    requires Counted(w, c) && (s.op.LogIn? ==> Born(w, s.op.challenge))
    ensures Counted(Next(cfg, w, s), c)
  {
    hide Handle, Failures, Successes;
    var (db1, e) := Handle(cfg, w.db, s.op, w.clock + s.tick);
    if Fresh(w, s.op) {
      HandleMoves(cfg, w.db, s.op, w.clock + s.tick, c);
      CountOneMore(w.log, e, c);
    }
  }

  ghost predicate AllCounted(w: World) {
    forall c :: Counted(w, c)
  }

  lemma {:induction false} RunKeepsCounted(cfg: Config, w: World, steps: seq<Step>)
    requires AllCounted(w)
    ensures AllCounted(Run(cfg, w, steps))
    decreases |steps|
  {
    hide Next, Failures, Successes;
    if steps != [] {
      forall c ensures Counted(Next(cfg, w, steps[0]), c) {
        assert Counted(w, c);
        if steps[0].op.LogIn? {
          assert Counted(w, steps[0].op.challenge);
        }
        StepKeepsCounted(cfg, w, steps[0], c);
      }
      RunKeepsCounted(cfg, Next(cfg, w, steps[0]), steps[1..]);
    }
  }

  /** However often it is tried: a challenge counts at most five failures and succeeds at most once. */
  lemma FiveFailuresOneSuccess(cfg: Config, clock: int, steps: seq<Step>, c: nat)
    ensures Failures(Run(cfg, Start(clock), steps).log, c) <= 5
    ensures Successes(Run(cfg, Start(clock), steps).log, c) <= 1
  {
    hide Run, Failures, Successes;
    assert AllCounted(Start(clock)) by { NothingCounted(clock); }
    RunKeepsCounted(cfg, Start(clock), steps);
    assert Counted(Run(cfg, Start(clock), steps), c);
  }

  lemma NothingCounted(clock: int)
    ensures AllCounted(Start(clock))
  {
  }

  /***** The bound address is a verified one *****/

  /** When the latest delivery of the challenge was. */
  function LastDelivery(log: seq<Event>, c: nat): (d: Option<nat>)
    ensures d.Some? ==> d.value < |log| && log[d.value].Delivered? && log[d.value].challenge == c
    ensures forall k | 0 <= k < |log| :: log[k].Delivered? && log[k].challenge == c ==> d.Some? && k <= d.value
  {
    if log == [] then None
    else
      var e := log[|log| - 1];
      if e.Delivered? && e.challenge == c then Some(|log| - 1) else LastDelivery(log[..|log| - 1], c)
  }

  predicate PasswordBefore(log: seq<Event>, c: nat, end: nat) {
    exists p :: 0 <= p < end && p < |log| && log[p] == PasswordSet(c)
  }

  predicate MatchedSince(log: seq<Event>, c: nat, d: nat, code: nat) {
    exists m :: d < m < |log| && log[m] == Matched(c, code)
  }

  /** The latest delivery went to `email` after a password had been set, and since then its code was matched. */
  predicate Bound(log: seq<Event>, c: nat, email: nat) {
    var d := LastDelivery(log, c);
    d.Some? && log[d.value].email == email && PasswordBefore(log, c, d.value) &&
      MatchedSince(log, c, d.value, log[d.value].code)
  }

  /** What an onboarding challenge's row says about its history. */
  predicate Told(w: World, c: nat) {
    c in w.db.challenges && w.db.challenges[c].purpose == Onboard ==>
      var ch := w.db.challenges[c];
      var d := LastDelivery(w.log, c);
      (ch.newPassword.Some? ==> PasswordBefore(w.log, c, |w.log|)) &&
      (ch.email.Some? ==> d.Some? && w.log[d.value].email == ch.email.value && PasswordBefore(w.log, c, d.value)) &&
      (ch.verified ==> ch.email.Some? && Bound(w.log, c, ch.email.value)) &&
      (ch.email.None? ==> d.None?) &&
      (!ch.verified && ch.code.Some? && d.Some? ==> ch.code.value == w.log[d.value].code)
  }

  /** A challenge number that was never drawn has no history. */
  predicate Unborn(w: World, c: nat) {
    (c !in w.born ==> LastDelivery(w.log, c).None?) && Born(w, c)
  }

  lemma HistoryGrows(log: seq<Event>, e: Event, c: nat, end: nat)
    requires end <= |log|
    ensures PasswordBefore(log, c, end) ==> PasswordBefore(log + [e], c, end) && PasswordBefore(log + [e], c, |log| + 1)
    ensures e == PasswordSet(c) ==> PasswordBefore(log + [e], c, |log| + 1)
    ensures LastDelivery(log + [e], c) == if e.Delivered? && e.challenge == c then Some(|log|) else LastDelivery(log, c)
  {
    var log1 := log + [e];
    assert log1[..|log|] == log;
    assert log1[|log|] == e;
    if PasswordBefore(log, c, end) {
      var p :| 0 <= p < end && p < |log| && log[p] == PasswordSet(c);
      assert log1[p] == PasswordSet(c);
    }
  }

  lemma MatchGrows(log: seq<Event>, e: Event, c: nat, d: nat, code: nat)
    requires d < |log|
    ensures MatchedSince(log, c, d, code) || e == Matched(c, code) ==> MatchedSince(log + [e], c, d, code)
  {
    var log1 := log + [e];
    assert log1[|log|] == e;
    if MatchedSince(log, c, d, code) {
      var m :| d < m < |log| && log[m] == Matched(c, code);
      assert log1[m] == Matched(c, code);
    }
  }

  /** How the onboarding fields of one challenge can change in a step. */
  predicate Proceeds(db: Db, db1: Db, e: Event, c: nat) {
    c in db1.challenges && db1.challenges[c].purpose == Onboard ==>
      var ch1 := db1.challenges[c];
      if c !in db.challenges then
        ch1.newPassword.None? && ch1.email.None? && !ch1.verified && ch1.code.None? && e == Nothing
      else
        var ch := db.challenges[c];
        ch.purpose == Onboard &&
        (ch1.newPassword == ch.newPassword || e == PasswordSet(c)) &&
        (if e.Delivered? && e.challenge == c then
           ch.newPassword.Some? && ch1.email == Some(e.email) && !ch1.verified &&
             (ch1.code.None? || ch1.code == Some(e.code))
         else ch1.email == ch.email &&
              (ch1.verified ==> ch.verified || (ch.code.Some? && e == Matched(c, ch.code.value) && ch.email.Some?)) &&
              (!ch1.verified ==> !ch.verified && (ch1.code.None? || ch1.code == ch.code)))
  }

  predicate DeliversTo(db: Db, e: Event) {
    e.Delivered? ==> e.challenge in db.challenges
  }

  lemma CompleteProceeds(cfg: Config, db: Db, op: Op, now: int, c: nat)
    requires Completes(op)
    ensures Proceeds(db, Handle(cfg, db, op, now).0, Handle(cfg, db, op, now).1, c)
    ensures DeliversTo(db, Handle(cfg, db, op, now).1)
  {
    hide Handle;
    HandleConcludes(cfg, db, op, now);
  }

  lemma LogInProceeds(cfg: Config, db: Db, op: Op, now: int, c: nat)
    requires op.LogIn? && op.challenge !in db.challenges
    ensures Proceeds(db, LogInDone(cfg, db, op, now), Nothing, c)
  {
    hide LoginsEnded, Cooled;
  }

  lemma PrepareProceeds(cfg: Config, db: Db, op: Op, now: int, c: nat)
    requires Prepares(op)
    ensures Proceeds(db, Handle(cfg, db, op, now).0, Handle(cfg, db, op, now).1, c)
    ensures DeliversTo(db, Handle(cfg, db, op, now).1)
  {
    hide CompleteDone, SetPasswordDone, LogInDone, MfaReset, ChallengesCleaned;
  }

  lemma AdminProceeds(cfg: Config, db: Db, op: Op, now: int, c: nat)
    requires op.AddUser? || op.SetUser? || op.Reset? || op.CleanUp?
    ensures Proceeds(db, Handle(cfg, db, op, now).0, Handle(cfg, db, op, now).1, c)
    ensures DeliversTo(db, Handle(cfg, db, op, now).1)
  {
    hide CompleteDone, SetPasswordDone, LogInDone, SendEmailDone, VerifyEmailDone, StartMfaDone, LoginsEnded;
  }

  lemma NothingDelivers(db: Db)
    ensures DeliversTo(db, Nothing)
  {
  }

  lemma HandleProceeds(cfg: Config, db: Db, op: Op, now: int, c: nat)
    requires op.LogIn? ==> op.challenge !in db.challenges
    ensures Proceeds(db, Handle(cfg, db, op, now).0, Handle(cfg, db, op, now).1, c)
    ensures DeliversTo(db, Handle(cfg, db, op, now).1)
  {
    hide Handle, Proceeds, DeliversTo;
    if Completes(op) {
      CompleteProceeds(cfg, db, op, now, c);
    } else if op.LogIn? {
      HandleLogIn(cfg, db, op, now);
      LogInProceeds(cfg, db, op, now, c);
      assert DeliversTo(db, Nothing) by { NothingDelivers(db); }
    } else if Prepares(op) {
      PrepareProceeds(cfg, db, op, now, c);
    } else {
      AdminProceeds(cfg, db, op, now, c);
    }
  }

  lemma StepKeepsTold(cfg: Config, w: World, s: Step, c: nat)
    requires Told(w, c) && Unborn(w, c) && (s.op.LogIn? ==> Unborn(w, s.op.challenge))
    ensures Told(Next(cfg, w, s), c) && Unborn(Next(cfg, w, s), c)
  {
    hide Handle, PasswordBefore, MatchedSince, LastDelivery;
    if Fresh(w, s.op) {
      var (db1, e) := Handle(cfg, w.db, s.op, w.clock + s.tick);
      HandleProceeds(cfg, w.db, s.op, w.clock + s.tick, c);
      HandleMoves(cfg, w.db, s.op, w.clock + s.tick, c);
      var d := LastDelivery(w.log, c);
      HistoryGrows(w.log, e, c, |w.log|);
      if d.Some? {
        HistoryGrows(w.log, e, c, d.value);
        MatchGrows(w.log, e, c, d.value, w.log[d.value].code);
      }
    }
  }

  /** Every enrolment so far was of an address bound by then. */
  predicate EnrolmentBound(log: seq<Event>, j: int) {
    0 <= j < |log| && log[j].Succeeded? && log[j].how.Enrolment? ==> Bound(log[..j], log[j].challenge, log[j].how.email)
  }

  ghost predicate AllTold(w: World) {
    (forall c :: Told(w, c) && Unborn(w, c)) && forall j :: EnrolmentBound(w.log, j)
  }

  lemma EnrolsVerified(cfg: Config, db: Db, op: Op, now: int)
    ensures var e := Handle(cfg, db, op, now).1;
      e.Succeeded? && e.how.Enrolment? ==>
        e.challenge in db.challenges && db.challenges[e.challenge].purpose == Onboard &&
        db.challenges[e.challenge].verified && db.challenges[e.challenge].email == Some(e.how.email)
  {
  }

  lemma StepKeepsAllTold(cfg: Config, w: World, s: Step)
    requires AllTold(w)
    ensures AllTold(Next(cfg, w, s))
  {
    hide Handle, Bound, LastDelivery;
    var w1 := Next(cfg, w, s);
    forall c ensures Told(w1, c) && Unborn(w1, c) {
      assert Told(w, c) && Unborn(w, c);
      if s.op.LogIn? {
        assert Unborn(w, s.op.challenge);
      }
      StepKeepsTold(cfg, w, s, c);
    }
    forall j ensures EnrolmentBound(w1.log, j) {
      assert EnrolmentBound(w.log, j);
      if 0 <= j < |w.log| {
        assert w1.log[..j] == w.log[..j];
      } else if j == |w.log| && Fresh(w, s.op) {
        EnrolsVerified(cfg, w.db, s.op, w.clock + s.tick);
        assert w1.log[..j] == w.log;
        var e := w1.log[j];
        if e.Succeeded? && e.how.Enrolment? {
          assert Told(w, e.challenge);
        }
      }
    }
  }

  lemma {:induction false} RunKeepsAllTold(cfg: Config, w: World, steps: seq<Step>)
    requires AllTold(w)
    ensures AllTold(Run(cfg, w, steps))
    decreases |steps|
  {
    hide Next, AllTold;
    if steps != [] {
      StepKeepsAllTold(cfg, w, steps[0]);
      RunKeepsAllTold(cfg, Next(cfg, w, steps[0]), steps[1..]);
    }
  }

  /**
   For every order of handler calls: when an enrolment completes, its address is the one of the latest
   delivery on that challenge, that delivery's code has been matched since, and a new password had
   been set before it.
   */
  lemma EnrolmentBindsVerifiedAddress(cfg: Config, clock: int, steps: seq<Step>, j: nat)
    requires var log := Run(cfg, Start(clock), steps).log; j < |log| && log[j].Succeeded? && log[j].how.Enrolment?
    ensures var log := Run(cfg, Start(clock), steps).log; Bound(log[..j], log[j].challenge, log[j].how.email)
  {
    hide Run, Bound;
    StartTold(clock);
    RunKeepsAllTold(cfg, Start(clock), steps);
    assert EnrolmentBound(Run(cfg, Start(clock), steps).log, j);
  }

  lemma StartTold(clock: int)
    ensures AllTold(Start(clock))
  {
  }

  /***** No code twice *****/

  /** The user was enrolled anew, or lost the second factor. */
  predicate Renews(e: Event, user: nat) {
    (e.Succeeded? && e.user == user && e.how.Enrolment?) || e == WasReset(user)
  }

  /** The counter that the event accepts for the user, when it is enrolled or logs in. */
  function Accepts(e: Event, user: nat): Option<int> {
    if e.Succeeded? && e.user == user then
      match e.how
      case Enrolment(_, counter) => Some(counter)
      case ByFactor(TotpCounter(counter)) => Some(counter)
      case _ => None
    else None
  }

  /** The recovery code that the event uses up for the user. */
  function Spends(e: Event, user: nat): Option<nat> {
    if e.Succeeded? && e.user == user && e.how.ByFactor? && e.how.factor.RecoveryCode? then Some(e.how.factor.hash)
    else None
  }

  predicate NoRenewal(log: seq<Event>, user: nat, from: int, to: int) {
    forall k | from < k < to && 0 <= k < |log| :: !Renews(log[k], user)
  }

  /** What was accepted since the last enrolment is on the user's row. */
  predicate Remembered(w: World, user: nat, i: int) {
    0 <= i < |w.log| && NoRenewal(w.log, user, i, |w.log|) ==>
      (Accepts(w.log[i], user).Some? ==>
         user in w.db.mfa && Accepts(w.log[i], user).value <= w.db.mfa[user].lastCounter) &&
      (Spends(w.log[i], user).Some? ==>
         var h := Spends(w.log[i], user).value; user in w.db.codes && h in w.db.codes[user] && w.db.codes[user][h])
  }

  /** Of two acceptances without an enrolment in between, the later has the larger counter. */
  predicate InSequence(log: seq<Event>, user: nat, i: int, j: int) {
    0 <= i < j < |log| && NoRenewal(log, user, i, j) && !Renews(log[j], user) ==>
      (Accepts(log[i], user).Some? && Accepts(log[j], user).Some? ==>
         Accepts(log[i], user).value < Accepts(log[j], user).value) &&
      (Spends(log[i], user).Some? ==> Spends(log[j], user) != Spends(log[i], user))
  }

  ghost predicate NoReplays(w: World) {
    (forall u, i :: Remembered(w, u, i)) && forall u, i, j :: InSequence(w.log, u, i, j)
  }

  predicate CodesStay(codes: map<nat, bool>, codes1: map<nat, bool>) {
    forall h | h in codes :: h in codes1 && (codes[h] ==> codes1[h])
  }

  /** How a user's factors can change in a step. */
  predicate Advances(db: Db, db1: Db, e: Event, user: nat) {
    (!Renews(e, user) ==>
       (user in db.mfa ==> user in db1.mfa && db.mfa[user].lastCounter <= db1.mfa[user].lastCounter) &&
       (user in db.codes ==> user in db1.codes && CodesStay(db.codes[user], db1.codes[user])) &&
       (Accepts(e, user).Some? ==> user in db.mfa && db.mfa[user].lastCounter < Accepts(e, user).value) &&
       (Spends(e, user).Some? ==>
          var h := Spends(e, user).value;
          UnusedCode(db, user, h) && user in db1.codes && h in db1.codes[user] && db1.codes[user][h])) &&
    (Accepts(e, user).Some? ==> user in db1.mfa && db1.mfa[user].lastCounter == Accepts(e, user).value)
  }

  /** What a step that may succeed does to the factors. */
  predicate FactorsChange(db: Db, db1: Db, e: Event) {
    if !e.Succeeded? || e.how.NewPassword? || e.how == ByFactor(EmailCode) then
      db1.mfa == db.mfa && db1.codes == db.codes
    else
      var u := e.user;
      match e.how
      case Enrolment(_, k) =>
        u in db1.mfa && u in db1.codes && db1.mfa == db.mfa[u := db1.mfa[u]] &&
          db1.codes == db.codes[u := db1.codes[u]] &&
        db1.mfa[u].lastCounter == k
      case ByFactor(TotpCounter(k)) =>
        u in db.mfa && db.mfa[u].lastCounter < k && db1.mfa == db.mfa[u := db.mfa[u].(lastCounter := k)] &&
          db1.codes == db.codes
      case ByFactor(RecoveryCode(h)) =>
        UnusedCode(db, u, h) && u in db1.codes && db1.codes == db.codes[u := db1.codes[u]] &&
        h in db1.codes[u] && db1.codes[u][h] && CodesStay(db.codes[u], db1.codes[u]) && db1.mfa == db.mfa
      case _ => true
  }

  lemma CompleteChangesFactors(cfg: Config, db: Db, op: Op, now: int)
    requires op.Complete?
    ensures FactorsChange(db, CompleteDone(cfg, db, op, now).0, CompleteDone(cfg, db, op, now).1)
  {
    hide NewLogins, NoRepeats, FreshCodes, Loadable, SecretMissing, FactorOf;
  }

  lemma CompleteAdvances(cfg: Config, db: Db, op: Op, now: int, user: nat)
    requires Completes(op)
    ensures Advances(db, Handle(cfg, db, op, now).0, Handle(cfg, db, op, now).1, user)
  {
    hide CompleteDone, NewLogins;
    if op.Complete? {
      CompleteChangesFactors(cfg, db, op, now);
    }
  }

  lemma OtherAdvances(cfg: Config, db: Db, op: Op, now: int, user: nat)
    requires !Completes(op)
    ensures Advances(db, Handle(cfg, db, op, now).0, Handle(cfg, db, op, now).1, user)
  {
    hide NewLogins, LoginsEnded, CompleteDone, SetPasswordDone;
  }

  lemma HandleAdvances(cfg: Config, db: Db, op: Op, now: int, user: nat)
    ensures Advances(db, Handle(cfg, db, op, now).0, Handle(cfg, db, op, now).1, user)
  {
    hide Handle, Advances;
    if Completes(op) {
      CompleteAdvances(cfg, db, op, now, user);
    } else {
      OtherAdvances(cfg, db, op, now, user);
    }
  }

  lemma StepKeepsNoReplays(cfg: Config, w: World, s: Step)
    requires NoReplays(w)
    ensures NoReplays(Next(cfg, w, s))
  {
    hide Handle;
    var w1 := Next(cfg, w, s);
    if Fresh(w, s.op) {
      var e := Handle(cfg, w.db, s.op, w.clock + s.tick).1;
      assert w1.log == w.log + [e];
      forall u, i ensures Remembered(w1, u, i) {
        RememberedNext(cfg, w, s, u, i);
      }
      forall u, i, j ensures InSequence(w1.log, u, i, j) {
        SequenceNext(cfg, w, s, u, i, j);
      }
    } else {
      forall u, i ensures Remembered(w1, u, i) {
        assert Remembered(w, u, i);
      }
    }
  }

  lemma NoRenewalNext(log: seq<Event>, e: Event, user: nat, i: int, j: int)
    requires 0 <= i < j <= |log|
    ensures NoRenewal(log + [e], user, i, j) ==> NoRenewal(log, user, i, j)
    ensures NoRenewal(log + [e], user, i, |log| + 1) ==> NoRenewal(log, user, i, |log|) && !Renews(e, user)
  {
    var log1 := log + [e];
    assert forall k | 0 <= k < |log| :: log1[k] == log[k];
    assert log1[|log|] == e;
  }

  lemma RememberedNext(cfg: Config, w: World, s: Step, user: nat, i: int)
    requires NoReplays(w) && Fresh(w, s.op)
    ensures Remembered(Next(cfg, w, s), user, i)
  {
    hide Handle, NoRenewal;
    var e := Handle(cfg, w.db, s.op, w.clock + s.tick).1;
    HandleAdvances(cfg, w.db, s.op, w.clock + s.tick, user);
    assert Remembered(w, user, i);
    if 0 <= i < |w.log| {
      NoRenewalNext(w.log, e, user, i, |w.log|);
    }
  }

  lemma SequenceNext(cfg: Config, w: World, s: Step, user: nat, i: int, j: int)
    requires NoReplays(w) && Fresh(w, s.op)
    ensures InSequence(Next(cfg, w, s).log, user, i, j)
  {
    hide Handle, NoRenewal;
    var e := Handle(cfg, w.db, s.op, w.clock + s.tick).1;
    HandleAdvances(cfg, w.db, s.op, w.clock + s.tick, user);
    assert InSequence(w.log, user, i, j) && Remembered(w, user, i);
    if 0 <= i < j <= |w.log| {
      NoRenewalNext(w.log, e, user, i, j);
    }
  }

  lemma {:induction false} RunKeepsNoReplays(cfg: Config, w: World, steps: seq<Step>)
    requires NoReplays(w)
    ensures NoReplays(Run(cfg, w, steps))
    decreases |steps|
  {
    hide Next, NoReplays;
    if steps != [] {
      StepKeepsNoReplays(cfg, w, steps[0]);
      RunKeepsNoReplays(cfg, Next(cfg, w, steps[0]), steps[1..]);
    }
  }

  /**
   Within one enrolment, in every run: accepted counters strictly increase from the enrolment's own,
   so no time step's code is accepted twice, and no recovery code is accepted twice.
   */
  lemma NoCodeTwice(cfg: Config, clock: int, steps: seq<Step>, user: nat, i: nat, j: nat)
    requires var log := Run(cfg, Start(clock), steps).log;
      i < j < |log| && NoRenewal(log, user, i, j) && !Renews(log[j], user)
    ensures var log := Run(cfg, Start(clock), steps).log;
      (Accepts(log[i], user).Some? && Accepts(log[j], user).Some? ==>
         Accepts(log[i], user).value < Accepts(log[j], user).value) &&
      (Spends(log[i], user).Some? ==> Spends(log[j], user) != Spends(log[i], user))
  {
    hide Run;
    StartHasNoReplays(clock);
    RunKeepsNoReplays(cfg, Start(clock), steps);
    assert InSequence(Run(cfg, Start(clock), steps).log, user, i, j);
  }

  lemma StartHasNoReplays(clock: int)
    ensures NoReplays(Start(clock))
  {
  }
}
