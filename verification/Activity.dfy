/**
 How long traffic can go on after a session has lost its authority: the activity trackers of the Web
 gateway, each shared by all connections of one transport, and the monitors of WebSSH terminals.  A Web
 connection asks its tracker before it hands over any bytes; a terminal's monitor asks after the fact.  Both
 ask the database at most every 30 seconds.
 */
module Activity {
  import opened Outcomes
  import Db = AccessStore
  import Rows = AccessRows
  import Terminal

  const PERSIST_INTERVAL: int := 30 * Db.SECOND

  /** `attached`: the resolver can record activity.  `session` is none for an empty session name. */
  datatype Tracker = Tracker(attached: bool, session: Option<nat>, lastPersisted: Option<int>)

  predicate AsksDatabase(t: Tracker, reading: int) {
    t.attached && t.session.Some? && !(t.lastPersisted.Some? && reading - t.lastPersisted.value < PERSIST_INTERVAL)
  }

  /** The database, the tracker, and whether bytes may move; `reachable` is false on any other error. */
  function TouchedBy(db: Db.Db, t: Tracker, reading: int, idle: nat, reachable: bool): (Db.Db, Tracker, bool) {
    if !AsksDatabase(t, reading) then (db, t, true)
    else if reachable && Db.Touchable(db, t.session.value, reading, reading - idle) then
      (Db.Touched(db, t.session.value, reading), t.(lastPersisted := Some(reading)), true)
    else (db, t, false)
  }

  /** The last record is under 30 seconds old. */
  predicate Recorded(t: Tracker, reading: int) {
    t.lastPersisted.Some? && reading < t.lastPersisted.value + 30 * Db.SECOND
  }

  /** What the code promises of a call: nobody to ask, asked lately, or the session may go on. */
  predicate MayPass(db: Db.Db, t: Tracker, reading: int, idle: nat, reachable: bool) {
    !t.attached || t.session.None? || Recorded(t, reading) ||
    (reachable && Db.Touchable(db, t.session.value, reading, reading - idle))
  }

  /***** Connections *****/

  datatype Conn = Conn(tracker: nat, closed: bool)

  /** Bytes handed over, in either direction, and the clock reading they were allowed at. */
  datatype Transfer = Transfer(conn: nat, reading: int, bytes: nat)

  /** A terminal with its session; `started` is when its monitor read the clock first. */
  datatype Shell = Shell(session: nat, started: int, state: Terminal.State)

  datatype World = World(store: Db.World, trackers: map<nat, Tracker>, conns: map<nat, Conn>, moved: seq<Transfer>,
                         shells: map<nat, Shell>)

  /**
   `Read` has received `count` bytes from the device, `Write` is about to send `count` bytes, of which
   `written` go out; `failed` is the error of the underlying connection.  `InShell` is a step of a terminal's
   own, `AskForShell` its monitor being answered.  A reading of the clock may be older than the moment the
   tracker's lock is gained or the database is reached, so calls need not arrive in the order of their readings.
   */
  datatype Act =
    | Store(op: Db.Op)
    | NewTracker(tracker: nat, attached: bool, session: Option<nat>)
    | NewConn(conn: nat, tracker: nat)
    | Read(conn: nat, count: nat, failed: bool, reading: int, reachable: bool)
    | Write(conn: nat, count: nat, written: nat, failed: bool, reading: int, reachable: bool)
    | NewShell(shell: nat, attached: bool, owner: nat)
    | InShell(shell: nat, act: Terminal.Act)
    | AskForShell(shell: nat, reachable: bool)

  datatype Step = Step(tick: nat, act: Act)

  function Ticked(w: World, now: int): World {
    w.(store := w.store.(clock := now))
  }

  /** The tracker is asked; on refusal the connection is closed and nothing moves. */
  function Asked(w: World, conn: nat, reading: int, idle: nat, reachable: bool, bytes: nat, closes: bool): World
    requires conn in w.conns && w.conns[conn].tracker in w.trackers
  {
    var c := w.conns[conn];
    var (db1, t1, ok) := TouchedBy(w.store.db, w.trackers[c.tracker], reading, idle, reachable);
    w.(store := w.store.(db := db1), trackers := w.trackers[c.tracker := t1],
       conns := w.conns[conn := c.(closed := c.closed || !ok || closes)],
       moved := if ok then w.moved + [Transfer(conn, reading, bytes)] else w.moved)
  }

  predicate Enabled(w: World, conn: nat, reading: int, now: int) {
    conn in w.conns && w.conns[conn].tracker in w.trackers && reading <= now
  }

  function Min(a: nat, b: nat): nat {
    if a < b then a else b
  }

  function Closed(w: World, conn: nat, failed: bool): World
    requires conn in w.conns
  {
    if failed then w.(conns := w.conns[conn := w.conns[conn].(closed := true)]) else w
  }

  /** The terminal takes a step of its own at the present clock. */
  function ShellMoved(w: World, shell: nat, act: Terminal.Act): World
    requires shell in w.shells && w.shells[shell].state.clock <= w.store.clock
  {
    var sh := w.shells[shell];
    var step := Terminal.Step(w.store.clock - sh.state.clock, act);
    w.(shells := w.shells[shell := sh.(state := Terminal.Next(sh.state, step))])
  }

  predicate ShellReady(w: World, shell: nat) {
    shell in w.shells && w.shells[shell].state.clock <= w.store.clock
  }

  /** The terminal's monitor is holding a reading of its clock and waits for the database's answer. */
  predicate ShellAsks(w: World, shell: nat) {
    ShellReady(w, shell) && w.shells[shell].state.monitor.Holding?
  }

  /** The monitor's question is a tracker's that has no record: it has looked at its own before. */
  function ShellAsked(w: World, shell: nat, idle: nat, reachable: bool): World
    requires ShellAsks(w, shell)
  {
    var sh := w.shells[shell];
    var asking := Tracker(true, Some(sh.session), None);
    var (db1, _, ok) := TouchedBy(w.store.db, asking, sh.state.monitor.reading, idle, reachable);
    ShellMoved(w.(store := w.store.(db := db1)), shell, Terminal.Answer(ok))
  }

  function Next(w: World, s: Step, idle: nat): World {
    var now := w.store.clock + s.tick;
    var w1 := Ticked(w, now);
    match s.act
    case Store(op) => w.(store := Db.Next(w.store, Db.Step(s.tick, op), idle))
    case NewTracker(tracker, attached, session) =>
      if tracker in w.trackers then w1 else w1.(trackers := w.trackers[tracker := Tracker(attached, session, None)])
    case NewConn(conn, tracker) =>
      if conn in w.conns || tracker !in w.trackers then w1 else w1.(conns := w.conns[conn := Conn(tracker, false)])
    case Read(conn, count, failed, reading, reachable) =>
      if !Enabled(w, conn, reading, now) then w1
      else if count == 0 then Closed(w1, conn, failed)
      else Asked(w1, conn, reading, idle, reachable, count, false)
    case Write(conn, count, written, failed, reading, reachable) =>
      if !Enabled(w, conn, reading, now) || count == 0 then w1
      else Asked(w1, conn, reading, idle, reachable, Min(written, count), failed)
    case NewShell(shell, attached, owner) =>
      if shell in w.shells then w1
      else w1.(shells := w.shells[shell := Shell(owner, now, Terminal.Start(attached, now))])
    case InShell(shell, act) =>
      if !ShellReady(w1, shell) || act.Answer? then w1 else ShellMoved(w1, shell, act)
    case AskForShell(shell, reachable) =>
      if !ShellAsks(w1, shell) then w1 else ShellAsked(w1, shell, idle, reachable)
  }

  function Run(w: World, steps: seq<Step>, idle: nat): World
    decreases |steps|
  {
    if steps == [] then w else Run(Next(w, steps[0], idle), steps[1..], idle)
  }

  /** A question to the database: on whose behalf, and at which reading of the clock. */
  datatype Ask = Ask(session: Option<nat>, reading: int)

  /** The question that the step puts to a tracker, or to the database for a terminal. */
  function AskOf(w: World, s: Step): Option<Ask> {
    var now := w.store.clock + s.tick;
    match s.act
    case Read(conn, count, _, reading, _) =>
      if count > 0 && Enabled(w, conn, reading, now)
      then Some(Ask(w.trackers[w.conns[conn].tracker].session, reading)) else None
    case Write(conn, count, _, _, reading, _) =>
      if count > 0 && Enabled(w, conn, reading, now)
      then Some(Ask(w.trackers[w.conns[conn].tracker].session, reading)) else None
    case AskForShell(shell, _) =>
      if ShellAsks(Ticked(w, now), shell)
      then Some(Ask(Some(w.shells[shell].session), w.shells[shell].state.monitor.reading)) else None
    case _ => None
  }

  /***** Lost authority *****/

  /** Whatever fails at one reading of the clock - an end, an idle cutoff - also fails at later ones. */
  predicate Powerless(db: Db.Db, id: nat, since: int, idle: nat) {
    !Db.Touchable(db, id, since, since - idle)
  }

  /** In no state of the run, up to its last step, could a reading of `since` touch the session. */
  ghost predicate StaysPowerless(w: World, steps: seq<Step>, idle: nat, id: nat, since: int)
    decreases |steps|
  {
    steps != [] ==>
      Powerless(w.store.db, id, since, idle) && StaysPowerless(Next(w, steps[0], idle), steps[1..], idle, id, since)
  }

  /** The tracker lets bytes of a session without authority pass exactly within 30 seconds of its last record. */
  lemma PassesExactlyWhen(db: Db.Db, t: Tracker, id: nat, since: int, reading: int, idle: nat, reachable: bool)
    requires Powerless(db, id, since, idle) && since <= reading && t.attached && t.session == Some(id)
    ensures TouchedBy(db, t, reading, idle, reachable).2 <==>
            t.lastPersisted.Some? && reading - t.lastPersisted.value < PERSIST_INTERVAL
    ensures TouchedBy(db, t, reading, idle, reachable).1 == t
  {
    assert !Db.Touchable(db, id, reading, reading - idle);
  }

  /***** The bound *****/

  /** The 30 seconds of a terminal end after `since`, or after its start if that is later. */
  function Deadline(sh: Shell, since: int): int {
    (if since < sh.started then sh.started else since) + PERSIST_INTERVAL
  }

  /** No tracker of the session has recorded activity later than `since`. */
  predicate Quiet(w: World, tracker: nat, id: nat, since: int) {
    tracker in w.trackers && w.trackers[tracker].session == Some(id) && w.trackers[tracker].lastPersisted.Some? ==>
      w.trackers[tracker].lastPersisted.value <= since
  }

  /** The session's terminals go by a record from before, and owe an answer to what came since their deadline. */
  predicate ShellOwes(w: World, shell: nat, id: nat, since: int) {
    shell in w.shells ==>
      Terminal.Coherent(w.shells[shell].state) && Terminal.InOrder(w.shells[shell].state) &&
      (w.shells[shell].session == id && w.shells[shell].state.attached ==>
         Terminal.Owes(w.shells[shell].state, Deadline(w.shells[shell], since)))
  }

  /** A connection has a tracker, and those of the session stay with it. */
  predicate Attached(w: World, conn: nat) {
    conn in w.conns ==> w.conns[conn].tracker in w.trackers
  }

  predicate Follows(w: World, conn: nat, id: nat) {
    conn in w.conns && w.conns[conn].tracker in w.trackers &&
    w.trackers[w.conns[conn].tracker].session == Some(id) && w.trackers[w.conns[conn].tracker].attached
  }

  /** Bytes of the session's tracked connections carry a reading less than 30 seconds after that moment. */
  predicate InTime(w: World, m: Transfer, id: nat, since: int) {
    Follows(w, m.conn, id) ==> m.reading < since + PERSIST_INTERVAL
  }

  ghost predicate Bounded(w: World, id: nat, since: int, from: nat) {
    (forall t :: Quiet(w, t, id, since)) && (forall c :: Attached(w, c)) &&
    (forall h :: ShellOwes(w, h, id, since)) && from <= |w.moved| &&
    forall i | from <= i < |w.moved| :: w.moved[i].conn in w.conns && InTime(w, w.moved[i], id, since)
  }

  lemma AskKeepsBounded(w: World, conn: nat, reading: int, idle: nat, reachable: bool, bytes: nat, closes: bool,
                        id: nat, since: int, from: nat)
    requires Bounded(w, id, since, from) && Powerless(w.store.db, id, since, idle)
    requires conn in w.conns && w.conns[conn].tracker in w.trackers
    ensures Bounded(Asked(w, conn, reading, idle, reachable, bytes, closes), id, since, from)
  {
    hide Powerless, Db.Touchable, Db.Touched, Terminal.Owes, Terminal.Coherent, Terminal.InOrder;
    var t := w.trackers[w.conns[conn].tracker];
    var w1 := Asked(w, conn, reading, idle, reachable, bytes, closes);
    assert Quiet(w, w.conns[conn].tracker, id, since);
    if t.attached && t.session == Some(id) && since <= reading {
      PassesExactlyWhen(w.store.db, t, id, since, reading, idle, reachable);
    }
    forall x ensures Quiet(w1, x, id, since) && Attached(w1, x) && ShellOwes(w1, x, id, since) {
      assert Quiet(w, x, id, since) && Attached(w, x) && ShellOwes(w, x, id, since);
    }
    forall i | from <= i < |w1.moved| ensures w1.moved[i].conn in w1.conns && InTime(w1, w1.moved[i], id, since) {
      if i < |w.moved| {
        assert InTime(w, w.moved[i], id, since);
      }
    }
  }

  /** Trackers, connections and terminals stay, new ones may come, and nothing passes. */
  predicate Grows(w: World, w1: World) {
    w1.moved == w.moved &&
    (forall t | t in w.trackers :: t in w1.trackers && w1.trackers[t] == w.trackers[t]) &&
    (forall t | t in w1.trackers && t !in w.trackers :: w1.trackers[t].lastPersisted.None?) &&
    (forall c | c in w.conns :: c in w1.conns && w1.conns[c].tracker == w.conns[c].tracker) &&
    (forall c | c in w1.conns && c !in w.conns :: w1.conns[c].tracker in w1.trackers) &&
    (forall h | h in w.shells :: h in w1.shells && w1.shells[h] == w.shells[h]) &&
    (forall h | h in w1.shells && h !in w.shells :: NewlyStarted(w1.shells[h]))
  }

  predicate NewlyStarted(sh: Shell) {
    sh.state == Terminal.Start(sh.state.attached, sh.started)
  }

  lemma NewShellOwes(sh: Shell, since: int)
    requires NewlyStarted(sh)
    ensures Terminal.Coherent(sh.state) && Terminal.InOrder(sh.state)
    ensures sh.state.attached ==> Terminal.Owes(sh.state, Deadline(sh, since))
  {
  }

  lemma GrowingKeepsBounded(w: World, w1: World, id: nat, since: int, from: nat)
    requires Bounded(w, id, since, from) && Grows(w, w1)
    ensures Bounded(w1, id, since, from)
  {
    hide NewlyStarted, Terminal.Owes, Terminal.Coherent, Terminal.InOrder;
    forall x ensures Quiet(w1, x, id, since) && Attached(w1, x) && ShellOwes(w1, x, id, since) {
      assert Quiet(w, x, id, since) && Attached(w, x) && ShellOwes(w, x, id, since);
      if x in w1.shells && x !in w.shells {
        NewShellOwes(w1.shells[x], since);
      }
    }
    forall i | from <= i < |w1.moved| ensures w1.moved[i].conn in w1.conns && InTime(w1, w1.moved[i], id, since) {
      assert InTime(w, w.moved[i], id, since) && Attached(w, w.moved[i].conn);
    }
  }

  /** The steps that ask nobody and are no terminal's. */
  predicate AsksNobody(s: Step) {
    s.act.Store? || s.act.NewTracker? || s.act.NewShell? || s.act.NewConn? || (s.act.Read? && s.act.count == 0)
  }

  lemma QuietStepGrows(w: World, s: Step, idle: nat)
    requires AsksNobody(s)
    ensures Grows(w, Next(w, s, idle))
  {
    hide Db.Next;
  }

  lemma ShellStepKeepsBounded(w: World, shell: nat, act: Terminal.Act, id: nat, since: int, from: nat)
    requires Bounded(w, id, since, from) && ShellReady(w, shell)
    requires var sh := w.shells[shell];
      sh.session == id ==> Terminal.GrantsBefore(sh.state, act, Deadline(sh, since))
    ensures Bounded(ShellMoved(w, shell, act), id, since, from)
  {
    hide Terminal.Owes, Terminal.Coherent, Terminal.InOrder, Terminal.Next, Terminal.GrantsBefore, Deadline;
    var w1 := ShellMoved(w, shell, act);
    var sh := w.shells[shell];
    var step := Terminal.Step(w.store.clock - sh.state.clock, act);
    assert ShellOwes(w, shell, id, since);
    Terminal.StepKeepsCoherent(sh.state, step);
    Terminal.StepKeepsOrder(sh.state, step);
    StepStaysAttached(sh.state, step);
    if sh.session == id && sh.state.attached {
      OwesAfter(sh, step, since);
    }
    forall x ensures Quiet(w1, x, id, since) && Attached(w1, x) && ShellOwes(w1, x, id, since) {
      assert Quiet(w, x, id, since) && Attached(w, x) && ShellOwes(w, x, id, since);
    }
    forall i | from <= i < |w1.moved| ensures w1.moved[i].conn in w1.conns && InTime(w1, w1.moved[i], id, since) {
      assert InTime(w, w.moved[i], id, since);
    }
  }

  lemma StepStaysAttached(s: Terminal.State, step: Terminal.Step)
    ensures Terminal.Next(s, step).attached == s.attached
  {
  }

  lemma OwesAfter(sh: Shell, step: Terminal.Step, since: int)
    requires Terminal.Coherent(sh.state) && Terminal.Owes(sh.state, Deadline(sh, since))
    requires Terminal.GrantsBefore(sh.state, step.act, Deadline(sh, since))
    ensures Terminal.Owes(Terminal.Next(sh.state, step), Deadline(sh.(state := Terminal.Next(sh.state, step)), since))
  {
    hide Terminal.Coherent, Terminal.Owes, Terminal.Next;
    Terminal.StepKeepsOwing(sh.state, step, Deadline(sh, since));
  }

  lemma ShellAskKeepsBounded(w: World, shell: nat, idle: nat, reachable: bool, id: nat, since: int, from: nat)
    requires Bounded(w, id, since, from) && Powerless(w.store.db, id, since, idle) && ShellAsks(w, shell)
    ensures Bounded(ShellAsked(w, shell, idle, reachable), id, since, from)
  {
    hide Bounded, ShellMoved, Db.Touchable, Db.Touched, Powerless;
    var sh := w.shells[shell];
    var asking := Tracker(true, Some(sh.session), None);
    var (db1, _, ok) := TouchedBy(w.store.db, asking, sh.state.monitor.reading, idle, reachable);
    var w0 := w.(store := w.store.(db := db1));
    assert Grows(w, w0);
    GrowingKeepsBounded(w, w0, id, since, from);
    if sh.session == id && since <= sh.state.monitor.reading {
      PassesExactlyWhen(w.store.db, asking, id, since, sh.state.monitor.reading, idle, reachable);
    }
    ShellStepKeepsBounded(w0, shell, Terminal.Answer(ok), id, since, from);
  }

  lemma StepKeepsBounded(w: World, s: Step, idle: nat, id: nat, since: int, from: nat)
    requires Bounded(w, id, since, from) && Powerless(w.store.db, id, since, idle)
    ensures Bounded(Next(w, s, idle), id, since, from)
  {
    hide Bounded, Powerless, Asked, ShellAsked, ShellMoved, Db.Next;
    var w1 := Ticked(w, w.store.clock + s.tick);
    assert Grows(w, w1);
    GrowingKeepsBounded(w, w1, id, since, from);
    match s.act
    case Read(conn, count, _, reading, reachable) =>
      if AsksNobody(s) {
        QuietStepGrows(w, s, idle);
        GrowingKeepsBounded(w, Next(w, s, idle), id, since, from);
      } else if Enabled(w, conn, reading, w1.store.clock) {
        AskKeepsBounded(w1, conn, reading, idle, reachable, count, false, id, since, from);
      }
    case Write(conn, count, written, failed, reading, reachable) =>
      if Enabled(w, conn, reading, w1.store.clock) {
        AskKeepsBounded(w1, conn, reading, idle, reachable, Min(written, count), failed, id, since, from);
      }
    case InShell(shell, act) =>
      if ShellReady(w1, shell) && !act.Answer? {
        ShellStepKeepsBounded(w1, shell, act, id, since, from);
      }
    case AskForShell(shell, reachable) =>
      if ShellAsks(w1, shell) {
        ShellAskKeepsBounded(w1, shell, idle, reachable, id, since, from);
      }
    case _ =>
      QuietStepGrows(w, s, idle);
      GrowingKeepsBounded(w, Next(w, s, idle), id, since, from);
  }

  lemma {:induction false} RunKeepsBounded(w: World, steps: seq<Step>, idle: nat, id: nat, since: int, from: nat)
    requires Bounded(w, id, since, from) && StaysPowerless(w, steps, idle, id, since)
    ensures Bounded(Run(w, steps, idle), id, since, from)
    decreases |steps|
  {
    hide Bounded, Next, Powerless;
    if steps != [] {
      StepKeepsBounded(w, steps[0], idle, id, since, from);
      RunKeepsBounded(Next(w, steps[0], idle), steps[1..], idle, id, since, from);
    }
  }

  /** Readings are never ahead of the clock, so neither are the trackers' records. */
  predicate Behind(w: World, tracker: nat) {
    tracker in w.trackers && w.trackers[tracker].lastPersisted.Some? ==>
      w.trackers[tracker].lastPersisted.value <= w.store.clock
  }

  predicate ShellBehind(w: World, shell: nat) {
    shell in w.shells ==>
      Terminal.Coherent(w.shells[shell].state) && Terminal.InOrder(w.shells[shell].state) &&
      w.shells[shell].state.clock <= w.store.clock
  }

  ghost predicate Sound(w: World) {
    Db.Good(w.store) && (forall t :: Behind(w, t)) && (forall c :: Attached(w, c)) && forall h :: ShellBehind(w, h)
  }

  /** What a call does to the database is nothing, or a touch at its reading. */
  lemma TouchIsAnEffect(db: Db.Db, t: Tracker, reading: int, idle: nat, reachable: bool)
    ensures var db1 := TouchedBy(db, t, reading, idle, reachable).0;
      db1 == db || (t.session.Some? && db1 == Db.Effect(db, Db.Op.Touch(t.session.value), reading, idle))
  {
    hide Db.Touchable, Db.Touched;
  }

  lemma GoodAt(store: Db.World, clock: int)
    requires Db.Good(store)
    ensures Db.Good(store.(clock := clock))
  {
  }

  lemma EffectKeepsGood(store: Db.World, op: Db.Op, at: int, idle: nat, now: int)
    requires Db.Good(store) && op.Touch?
    ensures Db.Good(store.(db := Db.Effect(store.db, op, at, idle), clock := now))
  {
    hide Db.Effect, Db.Good;
    var w := store.(clock := at);
    GoodAt(store, at);
    Db.StepKeepsGood(w, Db.Step(0, op), idle);
    GoodAt(Db.Next(w, Db.Step(0, op), idle), now);
  }

  /** A step is one of the store, or leaves the database, or touches a session at the reading of its question. */
  lemma StepOnDb(w: World, s: Step, idle: nat) returns (op: Db.Op, at: int)
    ensures s.act.Store? ==> Next(w, s, idle).store == Db.Next(w.store, Db.Step(s.tick, s.act.op), idle)
    ensures !s.act.Store? ==>
              Next(w, s, idle).store.clock == w.store.clock + s.tick &&
              Next(w, s, idle).store.exchanged == w.store.exchanged
    ensures s.act.Store? ==> op == s.act.op && at == w.store.clock + s.tick
    ensures Next(w, s, idle).store.db == w.store.db || Next(w, s, idle).store.db == Db.Effect(w.store.db, op, at, idle)
    ensures !s.act.Store? && Next(w, s, idle).store.db != w.store.db ==>
              op.Touch? && AskOf(w, s) == Some(Ask(Some(op.id), at))
  {
    hide Db.Effect, Db.Touchable, Db.Touched, Terminal.Next;
    op, at := if s.act.Store? then s.act.op else Db.Op.Expire, w.store.clock + s.tick;
    match s.act
    case Read(conn, count, _, reading, reachable) =>
      if AskOf(w, s).Some? {
        op, at := AskOnDb(w.store.db, w.trackers[w.conns[conn].tracker], reading, idle, reachable);
      }
    case Write(conn, count, _, _, reading, reachable) =>
      if AskOf(w, s).Some? {
        op, at := AskOnDb(w.store.db, w.trackers[w.conns[conn].tracker], reading, idle, reachable);
      }
    case AskForShell(shell, reachable) =>
      if AskOf(w, s).Some? {
        var sh := w.shells[shell];
        op, at := AskOnDb(w.store.db, Tracker(true, Some(sh.session), None), sh.state.monitor.reading, idle, reachable);
      }
    case _ =>
  }

  lemma AskOnDb(db: Db.Db, t: Tracker, reading: int, idle: nat, reachable: bool) returns (op: Db.Op, at: int)
    ensures var db1 := TouchedBy(db, t, reading, idle, reachable).0;
      db1 == db || (op.Touch? && t.session == Some(op.id) && db1 == Db.Effect(db, op, at, idle))
    ensures at == reading
  {
    op, at := Db.Op.Touch(if t.session.Some? then t.session.value else 0), reading;
    TouchIsAnEffect(db, t, reading, idle, reachable);
  }

  lemma StepKeepsGood(w: World, s: Step, idle: nat)
    requires Db.Good(w.store)
    ensures Db.Good(Next(w, s, idle).store)
  {
    hide Db.Good, Db.Effect, Next, AskOf;
    var op, at := StepOnDb(w, s, idle);
    if s.act.Store? {
      Db.StepKeepsGood(w.store, Db.Step(s.tick, s.act.op), idle);
    } else {
      GoodAt(w.store, w.store.clock + s.tick);
      if Next(w, s, idle).store.db != w.store.db {
        EffectKeepsGood(w.store, op, at, idle, w.store.clock + s.tick);
      }
    }
  }

  lemma StepKeepsBehind(w: World, s: Step, idle: nat, x: nat)
    requires Behind(w, x) && Attached(w, x)
    ensures Behind(Next(w, s, idle), x) && Attached(Next(w, s, idle), x)
  {
    hide Db.Effect, Db.Touchable, Db.Touched, Terminal.Next;
  }

  /** What a step does to a terminal: nothing, or one step of its own; a grant is the database's. */
  lemma StepOnShell(w: World, s: Step, idle: nat, h: nat) returns (moved: bool, act: Terminal.Act)
    requires h in w.shells
    ensures h in Next(w, s, idle).shells && (moved ==> w.shells[h].state.clock <= w.store.clock + s.tick)
    ensures var sh := w.shells[h]; var now := w.store.clock + s.tick;
      Next(w, s, idle).shells[h] ==
      if moved then sh.(state := Terminal.Next(sh.state, Terminal.Step(now - sh.state.clock, act))) else sh
    ensures moved && act == Terminal.Answer(true) ==>
              var state := w.shells[h].state;
              state.monitor.Holding? &&
              Db.Touchable(w.store.db, w.shells[h].session, state.monitor.reading, state.monitor.reading - idle)
    ensures TakesTurn(w, s, h) ==> moved && Terminal.Turns(w.shells[h].state, act)
  {
    hide Db.Effect, Db.Touchable, Db.Touched, Db.Next, Terminal.Next;
    var sh := w.shells[h];
    moved, act := false, Terminal.Cancel;
    match s.act
    case InShell(shell, a) =>
      moved, act := h == shell && ShellReady(Ticked(w, w.store.clock + s.tick), h) && !a.Answer?, a;
    case AskForShell(shell, reachable) =>
      if h == shell && ShellAsks(Ticked(w, w.store.clock + s.tick), h) {
        var asking := Tracker(true, Some(sh.session), None);
        moved := true;
        act := Terminal.Answer(TouchedBy(w.store.db, asking, sh.state.monitor.reading, idle, reachable).2);
      }
    case _ =>
  }

  lemma StepKeepsShellBehind(w: World, s: Step, idle: nat, h: nat)
    requires ShellBehind(w, h)
    ensures ShellBehind(Next(w, s, idle), h)
  {
    hide Db.Effect, Db.Touchable, Db.Touched, Terminal.Next, Terminal.Coherent, Terminal.InOrder, TouchedBy;
    var now := w.store.clock + s.tick;
    if h in w.shells {
      var moved, act := StepOnShell(w, s, idle, h);
      if moved {
        ShellStepBehind(w.shells[h].state, Terminal.Step(now - w.shells[h].state.clock, act));
      }
    } else if s.act.NewShell? {
      NewShellOwes(Shell(s.act.owner, now, Terminal.Start(s.act.attached, now)), 0);
    }
  }

  lemma ShellStepBehind(state: Terminal.State, step: Terminal.Step)
    requires Terminal.Coherent(state) && Terminal.InOrder(state)
    ensures var s1 := Terminal.Next(state, step);
      Terminal.Coherent(s1) && Terminal.InOrder(s1) && s1.clock == state.clock + step.tick
  {
    hide Terminal.Coherent, Terminal.InOrder;
    Terminal.StepKeepsCoherent(state, step);
    Terminal.StepKeepsOrder(state, step);
  }

  lemma StepKeepsSound(w: World, s: Step, idle: nat)
    requires Sound(w)
    ensures Sound(Next(w, s, idle))
  {
    hide Next, Db.Good, Behind, Attached, ShellBehind;
    StepKeepsGood(w, s, idle);
    forall x: nat
      ensures Behind(Next(w, s, idle), x) && Attached(Next(w, s, idle), x) && ShellBehind(Next(w, s, idle), x)
    {
      StepKeepsBehind(w, s, idle, x);
      StepKeepsShellBehind(w, s, idle, x);
    }
  }

  lemma {:induction false} RunKeepsSound(w: World, steps: seq<Step>, idle: nat)
    requires Sound(w)
    ensures Sound(Run(w, steps, idle))
    decreases |steps|
  {
    hide Sound, Next;
    if steps != [] {
      StepKeepsSound(w, steps[0], idle);
      RunKeepsSound(Next(w, steps[0], idle), steps[1..], idle);
    }
  }

  lemma SoundIsBounded(w: World, id: nat, since: int)
    requires Sound(w) && w.store.clock <= since
    ensures Bounded(w, id, since, |w.moved|)
  {
    forall x ensures Quiet(w, x, id, since) {
      assert Behind(w, x);
    }
    forall h ensures ShellOwes(w, h, id, since) {
      assert ShellBehind(w, h);
    }
  }

  /**
   Let a session stop being touchable at `since`, for whatever reason, and stay so.  However the run goes
   on - reads and writes of any number of connections sharing trackers, terminals, late calls, any store
   operation - no tracked connection of it moves a byte on a reading of `since` + 30 s or later.
   */
  lemma TrafficIsBounded(w0: World, before: seq<Step>, after: seq<Step>, idle: nat, id: nat, since: int, i: nat)
    requires Sound(w0) && Run(w0, before, idle).store.clock <= since
    requires StaysPowerless(Run(w0, before, idle), after, idle, id, since)
    requires var w := Run(w0, before, idle); |w.moved| <= i < |Run(w, after, idle).moved|
    ensures var w1 := Run(Run(w0, before, idle), after, idle);
      Follows(w1, w1.moved[i].conn, id) ==> w1.moved[i].reading < since + PERSIST_INTERVAL
  {
    hide Run, Sound, StaysPowerless;
    RunKeepsSound(w0, before, idle);
    var w := Run(w0, before, idle);
    SoundIsBounded(w, id, since);
    RunKeepsBounded(w, after, idle, id, since, |w.moved|);
    assert InTime(Run(w, after, idle), Run(w, after, idle).moved[i], id, since);
  }

  /**
   A terminal of such a session does pass on what comes later.  But as soon as anything received 30 seconds
   after `since`, or after the terminal's start, has been passed on in either direction, the terminal is
   cancelled or its monitor has a signal or a question that will cancel it.
   */
  lemma LateTerminalIsPending(w0: World, before: seq<Step>, after: seq<Step>, idle: nat, id: nat, since: int,
                              shell: nat, p: Terminal.Piece)
    requires Sound(w0) && Run(w0, before, idle).store.clock <= since
    requires StaysPowerless(Run(w0, before, idle), after, idle, id, since)
    requires var w1 := Run(Run(w0, before, idle), after, idle);
      shell in w1.shells && w1.shells[shell].session == id && w1.shells[shell].state.attached &&
      (p in w1.shells[shell].state.sent || p in w1.shells[shell].state.shown) &&
      Deadline(w1.shells[shell], since) <= p.at
    ensures var sh := Run(Run(w0, before, idle), after, idle).shells[shell];
      Terminal.Pending(sh.state, Deadline(sh, since))
  {
    hide Run, Sound, StaysPowerless, Terminal.Pending, Terminal.Owes, Terminal.Coherent, Deadline;
    RunKeepsSound(w0, before, idle);
    var w := Run(w0, before, idle);
    SoundIsBounded(w, id, since);
    RunKeepsBounded(w, after, idle, id, since, |w.moved|);
    var w1 := Run(w, after, idle);
    assert ShellOwes(w1, shell, id, since);
    Terminal.ShownWasPushed(w1.shells[shell].state, p);
    Terminal.LatePieceIsPending(w1.shells[shell].state, Deadline(w1.shells[shell], since), p);
  }

  /** The monitor takes up a signal, or is answered. */
  predicate TakesTurn(w: World, s: Step, shell: nat) {
    ShellReady(Ticked(w, w.store.clock + s.tick), shell) &&
    ((s.act == InShell(shell, Terminal.Take) && Terminal.Turns(w.shells[shell].state, Terminal.Take)) ||
     (s.act.AskForShell? && s.act.shell == shell && w.shells[shell].state.monitor.Holding?))
  }

  /** How many turns the terminal's monitor takes in a run. */
  function TurnsIn(w: World, steps: seq<Step>, idle: nat, shell: nat): nat
    decreases |steps|
  {
    if steps == [] then 0
    else (if TakesTurn(w, steps[0], shell) then 1 else 0) + TurnsIn(Next(w, steps[0], idle), steps[1..], idle, shell)
  }

  /**
   From then on the turns that are left, at most three, of its monitor cancel the terminal, whatever else
   happens between them.
   */
  lemma {:induction false} ThreeTurnsCancel(w: World, steps: seq<Step>, idle: nat, id: nat, since: int, from: nat,
                                            shell: nat)
    requires Bounded(w, id, since, from) && StaysPowerless(w, steps, idle, id, since)
    requires shell in w.shells && w.shells[shell].session == id && w.shells[shell].state.attached
    requires var sh := w.shells[shell];
      Terminal.Pending(sh.state, Deadline(sh, since)) &&
      Terminal.TurnsLeft(sh.state, Deadline(sh, since)) <= TurnsIn(w, steps, idle, shell)
    ensures var w1 := Run(w, steps, idle); shell in w1.shells && w1.shells[shell].state.cancelled
    decreases |steps|
  {
    hide Next, Bounded, Powerless, Terminal.Pending, Terminal.TurnsLeft, TakesTurn, Deadline;
    if steps == [] {
      NoTurnsLeft(w.shells[shell].state, Deadline(w.shells[shell], since));
    } else {
      StepKeepsBounded(w, steps[0], idle, id, since, from);
      StepTurnsShell(w, steps[0], idle, id, since, from, shell);
      ThreeTurnsCancel(Next(w, steps[0], idle), steps[1..], idle, id, since, from, shell);
    }
  }

  lemma NoTurnsLeft(s: Terminal.State, from: int)
    requires Terminal.TurnsLeft(s, from) == 0
    ensures s.cancelled
  {
  }

  lemma StepTurnsShell(w: World, s: Step, idle: nat, id: nat, since: int, from: nat, shell: nat)
    requires Bounded(w, id, since, from) && Powerless(w.store.db, id, since, idle)
    requires shell in w.shells && w.shells[shell].session == id && w.shells[shell].state.attached
    requires Terminal.Pending(w.shells[shell].state, Deadline(w.shells[shell], since))
    ensures shell in Next(w, s, idle).shells
    ensures var sh, sh1 := w.shells[shell], Next(w, s, idle).shells[shell]; var t := Deadline(sh, since);
      sh1.session == id && sh1.state.attached && Deadline(sh1, since) == t && Terminal.Pending(sh1.state, t) &&
      Terminal.TurnsLeft(sh1.state, t) <=
      (if TakesTurn(w, s, shell) && Terminal.TurnsLeft(sh.state, t) > 0 then Terminal.TurnsLeft(sh.state, t) - 1
       else Terminal.TurnsLeft(sh.state, t))
  {
    hide Next, TakesTurn, Terminal.Pending, Terminal.Owes, Terminal.Coherent, Terminal.InOrder, Terminal.Next,
         Terminal.Turns, Terminal.TurnsLeft, Db.Touchable;
    var moved, act := StepOnShell(w, s, idle, shell);
    var sh := w.shells[shell];
    var t := Deadline(sh, since);
    assert ShellOwes(w, shell, id, since);
    if moved {
      var step := Terminal.Step(w.store.clock + s.tick - sh.state.clock, act);
      GrantIsBefore(w, sh, act, idle, since);
      Terminal.StepKeepsOwing(sh.state, step, t);
      Terminal.StepTakesATurn(sh.state, step, t);
      StepStaysAttached(sh.state, step);
      CancelledHasNone(sh.state, t);
    }
  }

  /** A reading that is granted is from before `since`. */
  lemma GrantIsBefore(w: World, sh: Shell, act: Terminal.Act, idle: nat, since: int)
    requires Powerless(w.store.db, sh.session, since, idle)
    requires act == Terminal.Answer(true) ==>
               sh.state.monitor.Holding? &&
               Db.Touchable(w.store.db, sh.session, sh.state.monitor.reading, sh.state.monitor.reading - idle)
    ensures Terminal.GrantsBefore(sh.state, act, Deadline(sh, since))
  {
  }

  lemma CancelledHasNone(s: Terminal.State, from: int)
    ensures s.cancelled <==> Terminal.TurnsLeft(s, from) == 0
  {
  }

  /** A terminal that is cancelled sends one message more at most, and shows one chunk, in the runs of all. */
  lemma {:induction false} CancelledShellIsCut(w: World, steps: seq<Step>, idle: nat, shell: nat)
    requires shell in w.shells && w.shells[shell].state.cancelled
    ensures var w1 := Run(w, steps, idle);
      shell in w1.shells && Terminal.Cut(w.shells[shell].state, w1.shells[shell].state)
    decreases |steps|
  {
    hide Next, Terminal.Cut;
    if steps != [] {
      StepCutsShell(w, steps[0], idle, shell);
      CutStaysCancelled(w.shells[shell].state, Next(w, steps[0], idle).shells[shell].state);
      CancelledShellIsCut(Next(w, steps[0], idle), steps[1..], idle, shell);
      Terminal.CutIsTransitive(w.shells[shell].state, Next(w, steps[0], idle).shells[shell].state,
                               Run(w, steps, idle).shells[shell].state);
    } else {
      CutItself(w.shells[shell].state);
    }
  }

  lemma CutItself(s: Terminal.State)
    ensures Terminal.Cut(s, s)
  {
  }

  lemma CutStaysCancelled(s: Terminal.State, s1: Terminal.State)
    requires Terminal.Cut(s, s1) && s.cancelled
    ensures s1.cancelled
  {
  }

  lemma StepCutsShell(w: World, s: Step, idle: nat, shell: nat)
    requires shell in w.shells
    ensures shell in Next(w, s, idle).shells
    ensures Terminal.Cut(w.shells[shell].state, Next(w, s, idle).shells[shell].state)
  {
    hide Next, Terminal.Cut, Terminal.Next;
    var moved, act := StepOnShell(w, s, idle, shell);
    CutItself(w.shells[shell].state);
    if moved {
      Terminal.StepIsCut(w.shells[shell].state,
                         Terminal.Step(w.store.clock + s.tick - w.shells[shell].state.clock, act));
    }
  }

  /** The first call of a Web connection after those 30 seconds closes it and moves nothing. */
  lemma FirstLateCallCloses(w: World, s: Step, idle: nat, id: nat, since: int, from: nat)
    requires Bounded(w, id, since, from) && Powerless(w.store.db, id, since, idle)
    requires (s.act.Read? || s.act.Write?) && AskOf(w, s).Some? && Follows(w, s.act.conn, id)
    requires since + PERSIST_INTERVAL <= s.act.reading
    ensures Next(w, s, idle).conns[s.act.conn].closed && Next(w, s, idle).moved == w.moved
  {
    hide Powerless, Db.Touched, Db.Touchable;
    var t := w.conns[s.act.conn].tracker;
    assert Quiet(w, t, id, since);
    PassesExactlyWhen(w.store.db, w.trackers[t], id, since, s.act.reading, idle, s.act.reachable);
  }

  /***** When authority is lost for good *****/

  /**
   The session cannot act at `since` or later, whatever touches arrive late: it has ended or is gone, or its
   own end or its login's has come.
   */
  predicate Barred(db: Db.Db, id: nat, since: int) {
    id in db.logs &&
    (id in db.sessions ==>
       var s := db.sessions[id];
       s.status != Db.Active || s.expiresAt <= since || s.login !in db.logins ||
       !db.logins[s.login].active || db.logins[s.login].expiresAt <= since)
  }

  lemma BarredIsPowerless(db: Db.Db, id: nat, since: int, idle: nat)
    requires Barred(db, id, since)
    ensures Powerless(db, id, since, idle)
  {
  }

  /** How the database may change between two looks at one session. */
  predicate NoFreer(db: Db.Db, db1: Db.Db, id: nat) {
    (id in db.logs ==> id in db1.logs) &&
    (id in db1.sessions ==>
       (id !in db.sessions ==> id !in db.logs) &&
       (id in db.sessions ==>
          var s, s1 := db.sessions[id], db1.sessions[id];
          (s1.status == Db.Active ==> s.status == Db.Active) && s1.expiresAt == s.expiresAt && s1.login == s.login))
  }

  predicate LoginNoFreer(db: Db.Db, db1: Db.Db, login: nat) {
    login in db1.logins && login in db.logins ==>
      (db1.logins[login].active ==> db.logins[login].active) &&
      db1.logins[login].expiresAt == db.logins[login].expiresAt
  }

  lemma EffectFreesNoSession(db: Db.Db, op: Db.Op, now: int, idle: nat, id: nat)
    ensures NoFreer(db, Db.Effect(db, op, now, idle), id)
  {
  }

  lemma EffectFreesNoLogin(db: Db.Db, op: Db.Op, now: int, idle: nat, login: nat)
    ensures LoginNoFreer(db, Db.Effect(db, op, now, idle), login)
  {
  }

  lemma NoFreerKeepsBarred(db: Db.Db, db1: Db.Db, id: nat, since: int)
    requires Barred(db, id, since) && NoFreer(db, db1, id)
    requires id in db.sessions ==> LoginNoFreer(db, db1, db.sessions[id].login) && db.sessions[id].login in db.logins
    ensures Barred(db1, id, since)
  {
  }

  lemma EffectKeepsBarred(store: Db.World, op: Db.Op, now: int, idle: nat, id: nat, since: int)
    requires Db.Good(store) && Barred(store.db, id, since)
    ensures Barred(Db.Effect(store.db, op, now, idle), id, since)
  {
    hide Db.Effect;
    assert Db.RowGood(store.db, id);
    var login := if id in store.db.sessions then store.db.sessions[id].login else 0;
    EffectFreesNoSession(store.db, op, now, idle, id);
    EffectFreesNoLogin(store.db, op, now, idle, login);
    NoFreerKeepsBarred(store.db, Db.Effect(store.db, op, now, idle), id, since);
  }

  lemma {:induction false} BarredStaysPowerless(w: World, steps: seq<Step>, idle: nat, id: nat, since: int)
    requires Sound(w) && Barred(w.store.db, id, since)
    ensures StaysPowerless(w, steps, idle, id, since)
    decreases |steps|
  {
    hide Next, Sound, Barred, Powerless, Db.Effect;
    if steps != [] {
      var op, at := StepOnDb(w, steps[0], idle);
      SoundIsGood(w);
      EffectKeepsBarred(w.store, op, at, idle, id, since);
      StepKeepsSound(w, steps[0], idle);
      BarredIsPowerless(w.store.db, id, since, idle);
      BarredStaysPowerless(Next(w, steps[0], idle), steps[1..], idle, id, since);
    }
  }

  lemma SoundIsGood(w: World)
    requires Sound(w)
    ensures Db.Good(w.store)
  {
  }

  /** The bound for a session that has ended, or whose end or login's end has come: no condition on what follows. */
  lemma TrafficOfEndedSessionIsBounded(w0: World, before: seq<Step>, after: seq<Step>, idle: nat, id: nat, i: nat)
    requires Sound(w0)
    requires var w := Run(w0, before, idle); Barred(w.store.db, id, w.store.clock)
    requires var w := Run(w0, before, idle); |w.moved| <= i < |Run(w, after, idle).moved|
    ensures var w := Run(w0, before, idle); var w1 := Run(w, after, idle);
      Follows(w1, w1.moved[i].conn, id) ==> w1.moved[i].reading < w.store.clock + PERSIST_INTERVAL
  {
    hide Run, Sound, StaysPowerless, Barred;
    var w := Run(w0, before, idle);
    RunKeepsSound(w0, before, idle);
    BarredStaysPowerless(w, after, idle, id, w.store.clock);
    TrafficIsBounded(w0, before, after, idle, id, w.store.clock, i);
  }

  /***** Idle sessions *****/

  /** No call of the session's connections and terminals in the run read its clock before `since`. */
  ghost predicate NoLateCall(w: World, steps: seq<Step>, idle: nat, id: nat, since: int)
    decreases |steps|
  {
    steps != [] ==>
      (AskOf(w, steps[0]).Some? && AskOf(w, steps[0]).value.session == Some(id) ==>
         since <= AskOf(w, steps[0]).value.reading) &&
      NoLateCall(Next(w, steps[0], idle), steps[1..], idle, id, since)
  }

  lemma EffectKeepsDead(store: Db.World, op: Db.Op, at: int, idle: nat, id: nat, since: int)
    requires Db.Good(store) && Db.Dead(store.db, id, since, idle)
    requires since <= at || (op.Touch? && op.id != id)
    ensures Db.Dead(Db.Effect(store.db, op, at, idle), id, since, idle)
  {
    hide Db.Effect, Db.Good, Db.Dead;
    var db1 := Db.Effect(store.db, op, at, idle);
    GoodGivesRow(store, id);
    EffectKeepsRow(store, op, at, idle, id);
    if op.Touch? && op.id != id {
      TouchOfAnother(store.db, op.id, at, idle, id);
    } else if op.Exchange? || op.Resolve? || op.Touch? {
      Db.GrantEffectOnDead(store.db, op, id, since, at, idle);
    } else {
      Db.OtherEffectOnDead(store.db, op, id, since, at, idle);
    }
    DeadIsLogged(store.db, id, since, idle);
    Db.NoLivelierIsDead(store.db, db1, id, since, since, idle);
  }

  lemma DeadIsLogged(db: Db.Db, id: nat, since: int, idle: nat)
    requires Db.Dead(db, id, since, idle)
    ensures id in db.logs && Powerless(db, id, since, idle)
  {
  }

  lemma GoodGivesRow(store: Db.World, id: nat)
    requires Db.Good(store)
    ensures Db.RowGood(store.db, id)
  {
  }

  lemma EffectKeepsRow(store: Db.World, op: Db.Op, at: int, idle: nat, id: nat)
    requires Db.Good(store)
    ensures var db1 := Db.Effect(store.db, op, at, idle);
      Db.RowGood(db1, id) && (id in store.db.logs ==> id in db1.logs)
  {
    hide Db.Effect;
    Db.EffectIsLawful(store.db, op, at, idle);
    assert Db.Evolves(store.db, Db.Effect(store.db, op, at, idle), Db.Granted(store.db, op, at, idle), id);
  }

  lemma TouchOfAnother(db: Db.Db, other: nat, at: int, idle: nat, id: nat)
    requires other != id
    ensures Db.NoLivelier(db, Db.Effect(db, Db.Op.Touch(other), at, idle), id)
  {
  }

  lemma {:induction false} DeadStaysPowerless(w: World, steps: seq<Step>, idle: nat, id: nat, since: int)
    requires Sound(w) && Db.Dead(w.store.db, id, since, idle) && since <= w.store.clock
    requires NoLateCall(w, steps, idle, id, since)
    ensures StaysPowerless(w, steps, idle, id, since)
    decreases |steps|
  {
    hide Next, Sound, Powerless, Db.Effect, Db.Dead;
    if steps != [] {
      var op, at := StepOnDb(w, steps[0], idle);
      SoundIsGood(w);
      if Next(w, steps[0], idle).store.db != w.store.db {
        EffectKeepsDead(w.store, op, at, idle, id, since);
      }
      StepKeepsSound(w, steps[0], idle);
      ClockMovesOn(w, steps[0], idle);
      DeadIsLogged(w.store.db, id, since, idle);
      DeadStaysPowerless(Next(w, steps[0], idle), steps[1..], idle, id, since);
    }
  }

  lemma ClockMovesOn(w: World, s: Step, idle: nat)
    ensures Next(w, s, idle).store.clock == w.store.clock + s.tick
  {
    hide Db.Effect, Db.Touchable, Db.Touched;
  }

  /**
   The bound for any session that is dead by then - ended, past an end, or idle past the cutoff - as long as
   none of its own calls read the clock before and arrives after.
   */
  lemma TrafficOfDeadSessionIsBounded(w0: World, before: seq<Step>, after: seq<Step>, idle: nat, id: nat, i: nat)
    requires Sound(w0)
    requires var w := Run(w0, before, idle); Db.Dead(w.store.db, id, w.store.clock, idle)
    requires var w := Run(w0, before, idle); NoLateCall(w, after, idle, id, w.store.clock)
    requires var w := Run(w0, before, idle); |w.moved| <= i < |Run(w, after, idle).moved|
    ensures var w := Run(w0, before, idle); var w1 := Run(w, after, idle);
      Follows(w1, w1.moved[i].conn, id) ==> w1.moved[i].reading < w.store.clock + PERSIST_INTERVAL
  {
    hide Run, Sound, StaysPowerless, NoLateCall, Db.Dead;
    var w := Run(w0, before, idle);
    RunKeepsSound(w0, before, idle);
    DeadStaysPowerless(w, after, idle, id, w.store.clock);
    TrafficIsBounded(w0, before, after, idle, id, w.store.clock, i);
  }

  /**
   Why late calls are excluded there.  A call reads the clock while its session can act and reaches the
   database at `now`, when it no longer could: its touch gives the session its authority back if and only if
   the reading is within the idle limit of `now` and neither end has come by then.
   */
  lemma LateCallRevivesExactlyWhen(w: World, s: Step, idle: nat, id: nat)
    requires (s.act.Read? || s.act.Write?) && AskOf(w, s).Some? && Follows(w, s.act.conn, id) && s.act.reachable
    requires AsksDatabase(w.trackers[w.conns[s.act.conn].tracker], s.act.reading)
    requires Db.Touchable(w.store.db, id, s.act.reading, s.act.reading - idle)
    ensures var now := w.store.clock + s.tick;
      Db.Touchable(Next(w, s, idle).store.db, id, now, now - idle) <==>
      now < s.act.reading + idle && now < w.store.db.sessions[id].expiresAt &&
      now < w.store.db.logins[w.store.db.sessions[id].login].expiresAt
  {
    var now := w.store.clock + s.tick;
    var db1 := Db.Touched(w.store.db, id, s.act.reading);
    assert Next(w, s, idle).store.db == db1;
    assert db1.sessions[id].lastSeenAt == s.act.reading;
  }

  /***** The tracker as the gateway keeps it *****/

  class WebSessionActivityTracker {
    const toucher: Rows.Store?
    const sessionID: Option<nat>
    const idleTTL: nat
    var lastPersisted: Option<int>

    constructor (toucher: Rows.Store?, sessionID: Option<nat>, idleTTL: nat)
      ensures View() == Tracker(toucher != null, sessionID, None)
      ensures this.toucher == toucher && this.idleTTL == idleTTL
    {
      this.toucher, this.sessionID, this.idleTTL, lastPersisted := toucher, sessionID, idleTTL, None;
    }

    ghost function View(): Tracker
      reads this
    {
      Tracker(toucher != null, sessionID, lastPersisted)
    }

    method Touch(now: int) returns (ok: bool)
      modifies this, toucher
      ensures toucher == null ==> ok && View() == old(View())
      ensures toucher != null ==>
                (toucher.View(), View(), ok) == TouchedBy(old(toucher.View()), old(View()), now, idleTTL, true)
      ensures toucher != null ==> ok == MayPass(old(toucher.View()), old(View()), now, idleTTL, true)
      ensures toucher != null && ok && sessionID != None && !Recorded(old(View()), now) ==> lastPersisted == Some(now)
    {
      if toucher == null || sessionID == None {
        return true;
      }
      if lastPersisted != None && now - lastPersisted.value < PERSIST_INTERVAL {
        return true;
      }
      ok := toucher.TouchAccessSession(sessionID.value, now, now - idleTTL);
      if !ok {
        return;
      }
      lastPersisted := Some(now);
    }
  }

  /** A tracked connection; what the underlying connection does is given to each call. */
  class WebActivityConn {
    const tracker: WebSessionActivityTracker
    var closed: bool

    constructor (tracker: WebSessionActivityTracker)
      ensures this.tracker == tracker && !closed
    {
      this.tracker := tracker;
      closed := false;
    }

    /** `count` bytes have come from the device, with an error or not; `moved` of them are handed over. */
    method Read(count: nat, failed: bool, now: int) returns (moved: nat, refused: bool)
      modifies this, tracker, tracker.toucher
      ensures count == 0 ==>
                moved == 0 && !refused && closed == (old(closed) || failed) && tracker.View() == old(tracker.View())
      ensures count == 0 && tracker.toucher != null ==> tracker.toucher.View() == old(tracker.toucher.View())
      ensures count > 0 ==> moved == (if refused then 0 else count) && closed == (old(closed) || refused)
      ensures count > 0 && tracker.toucher == null ==> !refused
      ensures count > 0 && tracker.toucher != null ==>
                (tracker.toucher.View(), tracker.View(), !refused) ==
                TouchedBy(old(tracker.toucher.View()), old(tracker.View()), now, tracker.idleTTL, true)
      ensures count > 0 && tracker.toucher != null ==>
                refused == !MayPass(old(tracker.toucher.View()), old(tracker.View()), now, tracker.idleTTL, true)
    {
      if count == 0 {
        closed := closed || failed;
        return 0, false;
      }
      var ok := tracker.Touch(now);
      if !ok {
        closed := true;
        return 0, true;
      }
      return count, false;
    }

    /** `count` bytes are to be sent; the device takes `written` of them. */
    method Write(count: nat, written: nat, failed: bool, now: int) returns (moved: nat, refused: bool)
      modifies this, tracker, tracker.toucher
      ensures count == 0 ==> moved == 0 && !refused && closed == old(closed) && tracker.View() == old(tracker.View())
      ensures count == 0 && tracker.toucher != null ==> tracker.toucher.View() == old(tracker.toucher.View())
      ensures count > 0 ==> moved == (if refused then 0 else Min(written, count)) &&
                            closed == (old(closed) || refused || failed)
      ensures count > 0 && tracker.toucher == null ==> !refused
      ensures count > 0 && tracker.toucher != null ==>
                (tracker.toucher.View(), tracker.View(), !refused) ==
                TouchedBy(old(tracker.toucher.View()), old(tracker.View()), now, tracker.idleTTL, true)
      ensures count > 0 && tracker.toucher != null ==>
                refused == !MayPass(old(tracker.toucher.View()), old(tracker.View()), now, tracker.idleTTL, true)
    {
      if count == 0 {
        return 0, false;
      }
      var ok := tracker.Touch(now);
      if !ok {
        closed := true;
        return 0, true;
      }
      closed := closed || failed;
      return Min(written, count), false;
    }
  }
}
