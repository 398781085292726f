/**
 First logins when handlers overtake each other.  A handler reads a challenge, decides, and changes it later
 by one statement or transaction of `store/mfa.go`; in between others may have changed it.  Here every
 statement is a step of its own, with any arguments, whatever the handler behind it has read and when - so
 what holds in every run holds for every order of the handlers' reads and writes.
 */
module MfaStatements {
  import opened Outcomes
  import M = MfaStore

  datatype Statement =
    | AddUser(user: nat, password: nat, contact: Option<nat>)
    | SetUser(user: nat, enabled: bool)
    | Create(challenge: nat, user: nat, purpose: M.Purpose, expiresAt: int)
    | KeepPassword(challenge: nat, hash: nat)
    | Deliver(challenge: nat, email: nat, code: nat, expiresAt: int)
    | Verify(challenge: nat, code: nat)
    | KeepMethod(challenge: nat, way: M.Method, secret: Option<nat>, mailed: Option<nat>, expiresAt: int)
    | ClearDelivery(challenge: nat, code: nat)
    | Fail(challenge: nat)
    | Enrol(challenge: nat, bound: Option<M.Method>, counter: int, recovery: seq<nat>, login: nat)
    | Authenticate(challenge: nat, factor: M.Factor, login: nat)
    | ChangePassword(challenge: nat, hash: nat, login: nat)
    | Reset(user: nat)
    | CleanUp

  function OrNone(r: Result<M.Db, M.Error>): Option<M.Db> {
    if r.Ok? then Some(r.value) else None
  }

  /** The database after the statement, if it takes effect. */
  function Applied(db: M.Db, st: Statement, now: int): Option<M.Db> {
    match st
    case AddUser(user, password, contact) =>
      if user in db.users then None else Some(db.(users := db.users[user := M.User(true, true, password, contact)]))
    case SetUser(user, enabled) =>
      if user in db.users then Some(db.(users := db.users[user := db.users[user].(enabled := enabled)])) else None
    case Create(c, user, purpose, expiresAt) =>
      if user in db.users then Some(M.ChallengeCreated(db, c, user, purpose, expiresAt)) else None
    case KeepPassword(c, hash) => M.PasswordKept(db, c, hash, now)
    case Deliver(c, email, code, expiresAt) => M.DeliveryKept(db, c, email, code, expiresAt, now)
    case Verify(c, code) => M.AddressVerified(db, c, code)
    case KeepMethod(c, way, secret, mailed, expiresAt) => M.MethodKept(db, c, way, secret, mailed, expiresAt, now)
    case ClearDelivery(c, code) => Some(M.DeliveryCleared(db, c, code))
    case Fail(c) => Some(M.Failed(db, c))
    case Enrol(c, bound, counter, recovery, login) => OrNone(M.Enrolled(db, c, bound, counter, recovery, login, now))
    case Authenticate(c, factor, login) => OrNone(M.Authenticated(db, c, factor, login, now))
    case ChangePassword(c, hash, login) => OrNone(M.PasswordChanged(db, c, hash, login, now))
    case Reset(user) => Some(M.MfaReset(db, user))
    case CleanUp => Some(M.ChallengesCleaned(db, now))
  }

  datatype Step = Step(tick: nat, st: Statement)

  /** `born`: the challenge numbers drawn so far.  `log` lists the statements that took effect. */
  datatype World = World(db: M.Db, clock: int, born: set<nat>, log: seq<Statement>)

  function Next(w: World, s: Step): World {
    var now := w.clock + s.tick;
    if s.st.Create? && s.st.challenge in w.born then w.(clock := now)
    else
      match Applied(w.db, s.st, now)
      case None => w.(clock := now)
      case Some(db1) =>
        World(db1, now, if s.st.Create? then w.born + {s.st.challenge} else w.born, w.log + [s.st])
  }

  function Run(w: World, steps: seq<Step>): World
    decreases |steps|
  {
    if steps == [] then w else Run(Next(w, steps[0]), steps[1..])
  }

  function Start(clock: int): World {
    World(M.Db(map[], map[], map[], map[], map[]), clock, {}, [])
  }

  /***** Where an address and a code come from *****/

  predicate Delivers(st: Statement, c: nat) {
    st.Deliver? && st.challenge == c
  }

  /** The latest delivery of a challenge. */
  function LastDelivery(log: seq<Statement>, c: nat): (d: Option<nat>)
    ensures d.Some? ==> d.value < |log| && Delivers(log[d.value], c) &&
                        forall i | d.value < i < |log| :: !Delivers(log[i], c)
    ensures d.None? ==> forall i | 0 <= i < |log| :: !Delivers(log[i], c)
  {
    if log == [] then None
    else
      var n := |log| - 1;
      if Delivers(log[n], c) then Some(n) else LastDelivery(log[..n], c)
  }

  /** The statement puts a code on the challenge, or takes it away: a delivery, or a start of the second factor. */
  predicate SetsCode(st: Statement, c: nat) {
    (st.Deliver? || st.KeepMethod?) && st.challenge == c
  }

  function CodeOf(st: Statement): Option<nat> {
    match st
    case Deliver(_, _, code, _) => Some(code)
    case KeepMethod(_, _, _, mailed, _) => mailed
    case _ => None
  }

  /** The latest of these. */
  function LastSetting(log: seq<Statement>, c: nat): (k: Option<nat>)
    ensures k.Some? ==> k.value < |log| && SetsCode(log[k.value], c) &&
                        forall i | k.value < i < |log| :: !SetsCode(log[i], c)
    ensures k.None? ==> forall i | 0 <= i < |log| :: !SetsCode(log[i], c)
  {
    if log == [] then None
    else
      var n := |log| - 1;
      if SetsCode(log[n], c) then Some(n) else LastSetting(log[..n], c)
  }

  /** After the delivery `d`, entry `m` matched the code that the latest delivery or start before it had put there. */
  predicate MatchedAt(log: seq<Statement>, c: nat, d: nat, m: nat) {
    d < m < |log| && log[m].Verify? && log[m].challenge == c &&
    var k := LastSetting(log[..m], c);
    k.Some? && d <= k.value && CodeOf(log[k.value]) == Some(log[m].code)
  }

  predicate PasswordBefore(log: seq<Statement>, c: nat, d: nat)
    requires d <= |log|
  {
    exists p :: 0 <= p < d && log[p].KeepPassword? && log[p].challenge == c
  }

  /** What a challenge's row says about its address follows from the statements that took effect. */
  ghost predicate RowTraced(log: seq<Statement>, c: nat, ch: M.Challenge) {
    var d := LastDelivery(log, c);
    (ch.newPassword.Some? ==> PasswordBefore(log, c, |log|)) &&
    if d.None? then ch.email.None? && !ch.verified
    else
      ch.email == Some(log[d.value].email) && PasswordBefore(log, c, d.value) &&
      (ch.code.Some? ==> LastSetting(log, c).Some? && CodeOf(log[LastSetting(log, c).value]) == ch.code) &&
      (ch.verified ==> exists m: nat :: MatchedAt(log, c, d.value, m))
  }

  ghost predicate Traced(w: World, c: nat) {
    (c in w.db.challenges ==> c in w.born && RowTraced(w.log, c, w.db.challenges[c])) &&
    (c !in w.born ==> LastDelivery(w.log, c).None?)
  }

  lemma LastOfMore(log: seq<Statement>, st: Statement, c: nat)
    ensures LastDelivery(log + [st], c) == if Delivers(st, c) then Some(|log|) else LastDelivery(log, c)
  {
    assert (log + [st])[..|log|] == log;
  }

  lemma LastSettingOfMore(log: seq<Statement>, st: Statement, c: nat)
    ensures LastSetting(log + [st], c) == if SetsCode(st, c) then Some(|log|) else LastSetting(log, c)
  {
    assert (log + [st])[..|log|] == log;
  }

  /** One entry more keeps what was traced, if it is no new delivery. */
  lemma TraceGrows(log: seq<Statement>, st: Statement, c: nat, ch: M.Challenge)
    requires RowTraced(log, c, ch) && !SetsCode(st, c)
    ensures RowTraced(log + [st], c, ch)
  {
    hide LastDelivery, LastSetting;
    var more := log + [st];
    LastOfMore(log, st, c);
    LastSettingOfMore(log, st, c);
    LastIsSetting(log, c);
    PasswordGrows(log, st, c, |log|);
    if LastDelivery(log, c).Some? {
      var d := LastDelivery(log, c).value;
      LastIsDelivery(log, c);
      PasswordGrows(log, st, c, d);
      if ch.verified {
        var m: nat :| MatchedAt(log, c, d, m);
        MatchGrows(log, st, c, d, m);
      }
    }
  }

  lemma LastIsDelivery(log: seq<Statement>, c: nat)
    ensures LastDelivery(log, c).Some? ==>
              LastDelivery(log, c).value < |log| && Delivers(log[LastDelivery(log, c).value], c)
  {
  }

  lemma PasswordGrows(log: seq<Statement>, st: Statement, c: nat, d: nat)
    requires d <= |log|
    ensures PasswordBefore(log, c, d) ==> PasswordBefore(log + [st], c, d) && PasswordBefore(log + [st], c, |log| + 1)
  {
    if PasswordBefore(log, c, d) {
      PasswordStays(log, st, c, d);
    }
  }

  lemma PasswordStays(log: seq<Statement>, st: Statement, c: nat, d: nat)
    requires d <= |log| && PasswordBefore(log, c, d)
    ensures PasswordBefore(log + [st], c, d) && PasswordBefore(log + [st], c, |log| + 1)
  {
    var p :| 0 <= p < d && log[p].KeepPassword? && log[p].challenge == c;
    assert (log + [st])[p] == log[p];
  }

  lemma LastIsSetting(log: seq<Statement>, c: nat)
    ensures LastSetting(log, c).Some? ==>
              LastSetting(log, c).value < |log| && SetsCode(log[LastSetting(log, c).value], c)
    ensures LastDelivery(log, c).Some? ==>
              LastSetting(log, c).Some? && LastDelivery(log, c).value <= LastSetting(log, c).value
  {
    if LastDelivery(log, c).Some? {
      assert SetsCode(log[LastDelivery(log, c).value], c);
    }
  }

  lemma MatchGrows(log: seq<Statement>, st: Statement, c: nat, d: nat, m: nat)
    requires MatchedAt(log, c, d, m)
    ensures MatchedAt(log + [st], c, d, m)
  {
    hide LastSetting;
    assert (log + [st])[..m] == log[..m] && (log + [st])[m] == log[m];
    LastIsSetting(log[..m], c);
    assert (log + [st])[LastSetting(log[..m], c).value] == log[LastSetting(log[..m], c).value];
  }

  /***** Every statement keeps the trace *****/

  /** The address, its verification and the password are as they were, and the code too unless it is gone. */
  predicate NoMore(ch: M.Challenge, ch1: M.Challenge) {
    ch1.email == ch.email && ch1.verified == ch.verified && ch1.newPassword == ch.newPassword &&
    (ch1.code == ch.code || ch1.code == None)
  }

  /** What a statement makes of the row of the challenge it names. */
  predicate RowAfter(st: Statement, ch: M.Challenge, ch1: M.Challenge) {
    match st
    case KeepPassword(_, hash) => ch1 == ch.(newPassword := Some(hash))
    case Deliver(_, email, code, _) =>
      ch.newPassword.Some? && NoMore(ch.(email := Some(email), code := Some(code), verified := false), ch1)
    case Verify(_, code) =>
      ch.code == Some(code) && ch.email.Some? && ch1 == ch.(verified := true, code := None)
    case KeepMethod(_, _, _, mailed, _) => NoMore(ch.(code := mailed), ch1)
    case _ => NoMore(ch, ch1)
  }

  predicate Names(st: Statement, c: nat) {
    (st.KeepPassword? || st.Deliver? || st.Verify? || st.KeepMethod?) && st.challenge == c
  }

  lemma RowsAfter(db: M.Db, st: Statement, now: int, c: nat)
    requires Applied(db, st, now).Some? && c in Applied(db, st, now).value.challenges
    requires st.Create? ==> st.challenge != c
    ensures c in db.challenges
    ensures var ch, ch1 := db.challenges[c], Applied(db, st, now).value.challenges[c];
      if Names(st, c) then RowAfter(st, ch, ch1) else NoMore(ch, ch1)
  {
    hide M.LoggedIn, M.NewLogins, M.LoginsEnded, M.FreshCodes, M.MayEnrol, M.UnusedCode;
    LoggedInKeepsRows(db, 0, 0);
    if st.Enrol? || st.Authenticate? || st.ChangePassword? {
      CompletionKeepsRows(db, st, now);
    }
  }

  lemma LoggedInKeepsRows(db: M.Db, user: nat, login: nat)
    ensures M.LoggedIn(db, user, login).challenges == db.challenges
  {
  }

  lemma CompletionKeepsRows(db: M.Db, st: Statement, now: int)
    requires (st.Enrol? || st.Authenticate? || st.ChangePassword?) && Applied(db, st, now).Some?
    ensures st.challenge in db.challenges
    ensures Applied(db, st, now).value.challenges ==
            db.challenges[st.challenge := db.challenges[st.challenge].(status := M.Consumed)]
  {
    hide M.NewLogins, M.LoginsEnded, M.FreshCodes, M.MayEnrol, M.UnusedCode;
  }

  lemma NoMoreIsTraced(log: seq<Statement>, c: nat, ch: M.Challenge, ch1: M.Challenge)
    requires RowTraced(log, c, ch) && NoMore(ch, ch1)
    ensures RowTraced(log, c, ch1)
  {
  }

  lemma NamedIsTraced(log: seq<Statement>, st: Statement, c: nat, ch: M.Challenge, ch1: M.Challenge)
    requires RowTraced(log, c, ch) && Names(st, c) && RowAfter(st, ch, ch1)
    ensures RowTraced(log + [st], c, ch1)
  {
    hide LastDelivery, LastSetting;
    var more := log + [st];
    assert more[|log|] == st && more[..|log|] == log;
    LastOfMore(log, st, c);
    LastSettingOfMore(log, st, c);
    LastIsDelivery(log, c);
    LastIsSetting(log, c);
    PasswordGrows(log, st, c, |log|);
    if LastDelivery(log, c).Some? && !st.Deliver? {
      var d := LastDelivery(log, c).value;
      PasswordGrows(log, st, c, d);
      if ch.verified {
        var m: nat :| MatchedAt(log, c, d, m);
        MatchGrows(log, st, c, d, m);
      }
      if st.Verify? {
        assert MatchedAt(more, c, d, |log|);
      }
    }
  }

  lemma NotNamedSetsNothing(st: Statement, c: nat)
    requires !Names(st, c)
    ensures !SetsCode(st, c)
  {
  }

  lemma StepKeepsTraced(w: World, s: Step, c: nat)
    requires Traced(w, c)
    ensures Traced(Next(w, s), c)
  {
    hide Applied, RowTraced, RowAfter, NoMore, LastDelivery, LastSetting;
    var w1 := Next(w, s);
    var now := w.clock + s.tick;
    if w1.log != w.log {
      LastOfMore(w.log, s.st, c);
      if s.st.Create? && s.st.challenge == c {
        NewRowIsTraced(w, s);
      } else {
        if c in w1.db.challenges {
          RowsAfter(w.db, s.st, now, c);
          var ch, ch1 := w.db.challenges[c], w1.db.challenges[c];
          if Names(s.st, c) {
            NamedIsTraced(w.log, s.st, c, ch, ch1);
          } else {
            NotNamedSetsNothing(s.st, c);
            TraceGrows(w.log, s.st, c, ch);
            NoMoreIsTraced(w.log + [s.st], c, ch, ch1);
          }
        }
        if Delivers(s.st, c) {
          DeliveredIsBorn(w, s, c);
        }
      }
    } else {
      StepWithoutEffect(w, s);
    }
  }

  lemma StepWithoutEffect(w: World, s: Step)
    ensures Next(w, s).log == w.log ==> Next(w, s).db == w.db && Next(w, s).born == w.born
  {
    hide Applied;
  }

  lemma DeliveredIsBorn(w: World, s: Step, c: nat)
    requires Traced(w, c) && Delivers(s.st, c) && Applied(w.db, s.st, w.clock + s.tick).Some?
    ensures c in w.born
  {
  }

  lemma NewRowIsTraced(w: World, s: Step)
    requires s.st.Create? && s.st.challenge !in w.born && Traced(w, s.st.challenge)
    requires Applied(w.db, s.st, w.clock + s.tick).Some?
    ensures Traced(Next(w, s), s.st.challenge)
  {
    hide LastDelivery;
    LastOfMore(w.log, s.st, s.st.challenge);
  }

  lemma {:induction false} RunKeepsTraced(w: World, steps: seq<Step>, c: nat)
    requires Traced(w, c)
    ensures Traced(Run(w, steps), c)
    decreases |steps|
  {
    hide Next, Traced;
    if steps != [] {
      StepKeepsTraced(w, steps[0], c);
      RunKeepsTraced(Next(w, steps[0]), steps[1..], c);
    }
  }

  /**
   Whatever the order of the handlers' reads and writes: an enrolment that takes effect binds the address of the
   latest delivery on its challenge, a new password had been kept before that delivery, and a code was matched
   after it - the one delivered, or that of a later start of the second factor by mail.
   */
  lemma EnrolmentBindsDeliveredAddress(clock: int, steps: seq<Step>, tick: nat, st: Statement)
    requires st.Enrol?
    requires var w := Run(Start(clock), steps); Applied(w.db, st, w.clock + tick).Some?
    ensures var w := Run(Start(clock), steps); var db1 := Applied(w.db, st, w.clock + tick).value;
      var c := st.challenge; var d := LastDelivery(w.log, c);
      c in w.db.challenges && w.db.challenges[c].user in db1.users && d.Some? &&
      db1.users[w.db.challenges[c].user].email == Some(w.log[d.value].email) &&
      PasswordBefore(w.log, c, d.value) && exists m: nat :: MatchedAt(w.log, c, d.value, m)
  {
    hide Run, LastDelivery;
    StartIsTraced(clock, st.challenge);
    RunKeepsTraced(Start(clock), steps, st.challenge);
    var w := Run(Start(clock), steps);
    EnrolWrites(w.db, st, w.clock + tick);
    LastIsDelivery(w.log, st.challenge);
  }

  lemma StartIsTraced(clock: int, c: nat)
    ensures Traced(Start(clock), c)
  {
  }

  lemma EnrolWrites(db: M.Db, st: Statement, now: int)
    requires st.Enrol? && Applied(db, st, now).Some?
    ensures st.challenge in db.challenges
    ensures var ch := db.challenges[st.challenge]; var db1 := Applied(db, st, now).value;
      ch.verified && ch.email.Some? && ch.user in db1.users && db1.users[ch.user].email == ch.email
  {
    hide M.NewLogins, M.FreshCodes;
  }

  /**
   The address itself is verified - the code that was delivered to it is the one matched - exactly when no start
   of the second factor takes effect between the delivery and the match; otherwise it is the latest start's.
   */
  lemma OwnCodeExactlyWhen(log: seq<Statement>, c: nat, d: nat, m: nat)
    requires MatchedAt(log, c, d, m) && LastDelivery(log[..m], c) == Some(d)
    ensures var k := LastSetting(log[..m], c).value;
      log[m].code == CodeOf(log[k]).value &&
      (k == d <==> forall i | d < i < m :: !(log[i].KeepMethod? && log[i].challenge == c)) &&
      (k != d ==> d < k < m && log[k].KeepMethod? && log[k].challenge == c)
  {
    hide LastDelivery, LastSetting;
    var front := log[..m];
    SettingIsLast(front, c);
    assert forall i | 0 <= i < m :: front[i] == log[i];
  }

  lemma SettingIsLast(log: seq<Statement>, c: nat)
    ensures var k, d := LastSetting(log, c), LastDelivery(log, c);
      (k.Some? ==> k.value < |log| && SetsCode(log[k.value], c) &&
                   forall i | k.value < i < |log| :: !SetsCode(log[i], c)) &&
      (d.Some? ==> d.value < |log| && Delivers(log[d.value], c) &&
                   forall i | d.value < i < |log| :: !Delivers(log[i], c))
  {
  }

  /***** A start overtaken by a delivery *****/

  const OLD_ADDRESS: nat := 10
  const NEW_ADDRESS: nat := 20
  const LATER: int := 2000 * M.SECOND

  /** Up to here a handler that starts the second factor by mail finds the old address verified. */
  const VERIFIED_FIRST: seq<Statement> :=
    [AddUser(1, 0, None), Create(7, 1, M.Onboard, LATER), KeepPassword(7, 5), Deliver(7, OLD_ADDRESS, 100, LATER),
     Verify(7, 100)]

  /**
   Another delivery, whose mail fails, comes before that handler's write; then its code, mailed to the old
   address, is matched, and the enrolment is completed with a time code.
   */
  const OVERTAKEN: seq<Statement> :=
    [Deliver(7, NEW_ADDRESS, 200, LATER), ClearDelivery(7, 200), KeepMethod(7, M.Email, None, Some(300), LATER),
     Verify(7, 300), KeepMethod(7, M.Totp, Some(9), None, LATER)]

  const ENROLMENT := Enrol(7, Some(M.Totp), 1, [1, 2, 3, 4, 5, 6, 7, 8], 1)

  /** One statement a minute. */
  function Minutes(sts: seq<Statement>): seq<Step> {
    if sts == [] then [] else [Step(60 * M.SECOND, sts[0])] + Minutes(sts[1..])
  }

  function OnlyDb(ch: M.Challenge): M.Db {
    M.Db(map[1 := M.User(true, true, 0, None)], map[], map[], map[7 := ch], map[])
  }

  /** The world in which challenge 7 has this row and nothing else has happened to user 1. */
  function Only(ch: M.Challenge, minutes: nat, log: seq<Statement>): World {
    World(OnlyDb(ch), minutes * (60 * M.SECOND), {7}, log)
  }

  function Row(email: Option<nat>, code: Option<nat>, verified: bool, sentAt: Option<int>, password: Option<nat>,
               way: Option<M.Method>, secret: Option<nat>): M.Challenge {
    M.Challenge(1, M.Onboard, way, secret, email, code, verified, sentAt, password, M.Active, 0, LATER)
  }

  function At(minutes: nat): Option<int> {
    Some(minutes * (60 * M.SECOND))
  }

  lemma {:induction false} RunMinutes(w: World, a: seq<Statement>, b: seq<Statement>)
    ensures Run(w, Minutes(a + b)) == Run(Run(w, Minutes(a)), Minutes(b))
    decreases |a|
  {
    hide Next;
    if a == [] {
      assert a + b == b;
    } else {
      assert (a + b)[1..] == a[1..] + b;
      assert Minutes(a)[1..] == Minutes(a[1..]) && Minutes(a + b)[1..] == Minutes(a[1..] + b);
      RunMinutes(Next(w, Step(60 * M.SECOND, a[0])), a[1..], b);
    }
  }

  lemma RunFive(w: World, a: Statement, b: Statement, c: Statement, d: Statement, e: Statement)
    ensures Run(w, Minutes([a, b, c, d, e])) == Minute(Minute(Minute(Minute(Minute(w, a), b), c), d), e)
  {
    hide Next;
    assert [a, b, c, d, e] == [a] + ([b] + ([c] + ([d] + [e])));
    RunMinutes(w, [a], [b] + ([c] + ([d] + [e])));
    RunOne(w, a);
    RunMinutes(Minute(w, a), [b], [c] + ([d] + [e]));
    RunOne(Minute(w, a), b);
    RunMinutes(Minute(Minute(w, a), b), [c], [d] + [e]);
    RunOne(Minute(Minute(w, a), b), c);
    RunMinutes(Minute(Minute(Minute(w, a), b), c), [d], [e]);
    RunOne(Minute(Minute(Minute(w, a), b), c), d);
    RunOne(Minute(Minute(Minute(Minute(w, a), b), c), d), e);
  }

  function Minute(w: World, st: Statement): World {
    Next(w, Step(60 * M.SECOND, st))
  }

  lemma RunOne(w: World, st: Statement)
    ensures Run(w, Minutes([st])) == Minute(w, st)
  {
    hide Next;
    assert [st][1..] == [] && Minutes([]) == [];
    assert Minutes([st]) == [Step(60 * M.SECOND, st)];
    assert [Step(60 * M.SECOND, st)][1..] == [];
    assert Run(Minute(w, st), []) == Minute(w, st);
  }

  /** A statement that sets the row of challenge 7. */
  lemma MinuteOn(ch: M.Challenge, ch1: M.Challenge, minutes: nat, log: seq<Statement>, st: Statement)
    requires !st.Create?
    requires Applied(OnlyDb(ch), st, (minutes + 1) * (60 * M.SECOND)) == Some(M.WithChallenge(OnlyDb(ch), 7, ch1))
    ensures Minute(Only(ch, minutes, log), st) == Only(ch1, minutes + 1, log + [st])
  {
    hide Applied;
    assert map[7 := ch][7 := ch1] == map[7 := ch1];
  }

  lemma CreatedAtTwo()
    ensures Minute(Minute(Start(0), VERIFIED_FIRST[0]), VERIFIED_FIRST[1]) ==
            Only(Row(None, None, false, None, None, None, None), 2, VERIFIED_FIRST[..2])
  {
    var l := VERIFIED_FIRST;
    var w1 := Minute(Start(0), l[0]);
    assert w1.db.users == map[1 := M.User(true, true, 0, None)] && w1.log == [l[0]];
    assert M.ChallengesRevoked(w1.db, 1).challenges == map[];
    assert [l[0]] + [l[1]] == l[..2];
  }

  lemma OldAddressIsVerified()
    ensures Run(Start(0), Minutes(VERIFIED_FIRST)) ==
            Only(Row(Some(OLD_ADDRESS), None, true, At(4), Some(5), None, None), 5, VERIFIED_FIRST)
  {
    hide Minute, OnlyDb;
    var l := VERIFIED_FIRST;
    assert l == [l[0], l[1], l[2], l[3], l[4]];
    RunFive(Start(0), l[0], l[1], l[2], l[3], l[4]);
    CreatedAtTwo();
    var r2 := Row(None, None, false, None, None, None, None);
    var r3 := r2.(newPassword := Some(5));
    var r4 := r3.(email := Some(OLD_ADDRESS), code := Some(100), sentAt := At(4));
    var r5 := r4.(code := None, verified := true);
    PasswordOn(r2, 2, l[..2], 5);
    assert l[..2] + [l[2]] == l[..3];
    DeliverOn(r3, 3, l[..3], OLD_ADDRESS, 100);
    assert l[..3] + [l[3]] == l[..4];
    VerifyOn(r4, 4, l[..4], 100);
    assert l[..4] + [l[4]] == l;
  }

  predicate OpenRow(ch: M.Challenge, minutes: nat) {
    ch.status == M.Active && ch.purpose == M.Onboard && ch.attempts == 0 && ch.expiresAt == LATER && minutes < 30
  }

  lemma PasswordOn(ch: M.Challenge, minutes: nat, log: seq<Statement>, hash: nat)
    requires OpenRow(ch, minutes)
    ensures Minute(Only(ch, minutes, log), KeepPassword(7, hash)) ==
            Only(ch.(newPassword := Some(hash)), minutes + 1, log + [KeepPassword(7, hash)])
  {
    hide Minute;
    MinuteOn(ch, ch.(newPassword := Some(hash)), minutes, log, KeepPassword(7, hash));
  }

  lemma DeliverOn(ch: M.Challenge, minutes: nat, log: seq<Statement>, email: nat, code: nat)
    requires OpenRow(ch, minutes) && ch.newPassword.Some?
    requires ch.sentAt.None? || ch.sentAt.value <= minutes * (60 * M.SECOND)
    ensures Minute(Only(ch, minutes, log), Deliver(7, email, code, LATER)) ==
            Only(ch.(email := Some(email), code := Some(code), verified := false, sentAt := At(minutes + 1)),
                 minutes + 1, log + [Deliver(7, email, code, LATER)])
  {
    hide Minute;
    var ch1 := ch.(email := Some(email), code := Some(code), verified := false, sentAt := At(minutes + 1));
    MinuteOn(ch, ch1, minutes, log, Deliver(7, email, code, LATER));
  }

  lemma VerifyOn(ch: M.Challenge, minutes: nat, log: seq<Statement>, code: nat)
    requires OpenRow(ch, minutes) && ch.code == Some(code) && ch.email.Some?
    ensures Minute(Only(ch, minutes, log), Verify(7, code)) ==
            Only(ch.(verified := true, code := None), minutes + 1, log + [Verify(7, code)])
  {
    hide Minute;
    MinuteOn(ch, ch.(verified := true, code := None), minutes, log, Verify(7, code));
  }

  lemma ClearOn(ch: M.Challenge, minutes: nat, log: seq<Statement>, code: nat)
    requires OpenRow(ch, minutes) && ch.code == Some(code)
    ensures Minute(Only(ch, minutes, log), ClearDelivery(7, code)) ==
            Only(ch.(code := None, sentAt := None), minutes + 1, log + [ClearDelivery(7, code)])
  {
    hide Minute;
    MinuteOn(ch, ch.(code := None, sentAt := None), minutes, log, ClearDelivery(7, code));
  }

  lemma MethodOn(ch: M.Challenge, minutes: nat, log: seq<Statement>, way: M.Method, secret: Option<nat>,
                 mailed: Option<nat>)
    requires OpenRow(ch, minutes) && ch.code.None?
    ensures var ch1 := ch.(way := Some(way), secret := secret, code := mailed,
                           sentAt := if mailed.Some? then At(minutes + 1) else ch.sentAt);
      Minute(Only(ch, minutes, log), KeepMethod(7, way, secret, mailed, LATER)) ==
      Only(ch1, minutes + 1, log + [KeepMethod(7, way, secret, mailed, LATER)])
  {
    hide Minute;
    var ch1 := ch.(way := Some(way), secret := secret, code := mailed,
                   sentAt := if mailed.Some? then At(minutes + 1) else ch.sentAt);
    MinuteOn(ch, ch1, minutes, log, KeepMethod(7, way, secret, mailed, LATER));
  }

  const LAST_ROW: M.Challenge := Row(Some(NEW_ADDRESS), None, true, At(8), Some(5), Some(M.Totp), Some(9))

  lemma NewAddressIsVerified()
    ensures Run(Start(0), Minutes(VERIFIED_FIRST + OVERTAKEN)) == Only(LAST_ROW, 10, VERIFIED_FIRST + OVERTAKEN)
  {
    hide Minute, OnlyDb;
    var l, v := OVERTAKEN, VERIFIED_FIRST;
    RunMinutes(Start(0), v, l);
    OldAddressIsVerified();
    assert l == [l[0], l[1], l[2], l[3], l[4]];
    var r5 := Row(Some(OLD_ADDRESS), None, true, At(4), Some(5), None, None);
    RunFive(Only(r5, 5, v), l[0], l[1], l[2], l[3], l[4]);
    var r6 := r5.(email := Some(NEW_ADDRESS), code := Some(200), verified := false, sentAt := At(6));
    var r7 := r6.(code := None, sentAt := None);
    var r8 := r7.(way := Some(M.Email), code := Some(300), sentAt := At(8));
    var r9 := r8.(verified := true, code := None);
    DeliverOn(r5, 5, v, NEW_ADDRESS, 200);
    ClearOn(r6, 6, v + [l[0]], 200);
    MethodOn(r7, 7, v + [l[0]] + [l[1]], M.Email, None, Some(300));
    VerifyOn(r8, 8, v + [l[0]] + [l[1]] + [l[2]], 300);
    MethodOn(r9, 9, v + [l[0]] + [l[1]] + [l[2]] + [l[3]], M.Totp, Some(9), None);
    assert v + [l[0]] + [l[1]] + [l[2]] + [l[3]] + [l[4]] == v + l;
  }

  /**
   With a start that is overtaken, an enrolment binds an address no code of which was ever matched.  When the
   start was decided, its handler found the earlier address verified.
   */
  lemma OvertakenStartBindsUnmatchedAddress()
    ensures var w := Run(Start(0), Minutes(VERIFIED_FIRST));
      M.Loadable(w.db, 7, w.clock) && w.db.challenges[7].verified && w.db.challenges[7].email == Some(OLD_ADDRESS)
    ensures var w := Run(Start(0), Minutes(VERIFIED_FIRST + OVERTAKEN));
      Applied(w.db, ENROLMENT, w.clock).Some? &&
      1 in Applied(w.db, ENROLMENT, w.clock).value.users &&
      Applied(w.db, ENROLMENT, w.clock).value.users[1].email == Some(NEW_ADDRESS) &&
      forall st | st in w.log && Delivers(st, 7) && st.email == NEW_ADDRESS :: Verify(7, st.code) !in w.log
  {
    hide Run, Minutes;
    OldAddressIsVerified();
    NewAddressIsVerified();
    EnrolOnLastRow();
  }

  lemma EnrolOnLastRow()
    ensures Applied(OnlyDb(LAST_ROW), ENROLMENT, 10 * (60 * M.SECOND)).Some?
    ensures 1 in Applied(OnlyDb(LAST_ROW), ENROLMENT, 10 * (60 * M.SECOND)).value.users
    ensures Applied(OnlyDb(LAST_ROW), ENROLMENT, 10 * (60 * M.SECOND)).value.users[1].email == Some(NEW_ADDRESS)
  {
    hide M.NewLogins, M.FreshCodes;
  }
}
