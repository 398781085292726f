/**
 What a session that can act gets: every byte of its connections, and a terminal that passes everything on.
 `Activity` and `Terminal` bound what a session without authority still gets; here are the calls and the
 terminals that go on.
 */
module LiveTraffic {
  import opened Outcomes
  import Db = AccessStore
  import Terminal
  import opened Activity

  /** The bytes that a read or write is about, and whether the underlying connection failed while writing. */
  function Bytes(act: Act): nat
    requires act.Read? || act.Write?
  {
    if act.Read? then act.count else if act.written < act.count then act.written else act.count
  }

  function TrackerOf(w: World, act: Act): Tracker
    requires (act.Read? || act.Write?) && act.conn in w.conns && w.conns[act.conn].tracker in w.trackers
  {
    w.trackers[w.conns[act.conn].tracker]
  }

  /**
   A call with bytes moves all of them, and closes nothing but for an error of its own, if and only if nobody is
   to be asked, the last record is under 30 seconds old, or the database can be reached and the session touched.
   Otherwise it moves nothing and the connection is closed.  Nobody else's connection is affected.
   */
  lemma CallPassesExactlyWhen(w: World, s: Step, idle: nat)
    requires (s.act.Read? || s.act.Write?) && AskOf(w, s).Some?
    ensures var w1 := Next(w, s, idle); var conn := w.conns[s.act.conn];
      var passes := MayPass(w.store.db, TrackerOf(w, s.act), s.act.reading, idle, s.act.reachable);
      var fails := s.act.Write? && s.act.failed;
      w1.moved == (if passes then w.moved + [Transfer(s.act.conn, s.act.reading, Bytes(s.act))] else w.moved) &&
      w1.conns == w.conns[s.act.conn := conn.(closed := conn.closed || !passes || fails)] &&
      w1.shells == w.shells
  {
    hide Db.Touchable, Db.Touched;
  }

  /**
   A call that had to ask and was not refused leaves its reading with the tracker, and with the session and its
   login in the database; any other call leaves no trace there.
   */
  lemma CallIsRecordedExactlyWhen(w: World, s: Step, idle: nat)
    requires (s.act.Read? || s.act.Write?) && AskOf(w, s).Some?
    ensures var w1 := Next(w, s, idle); var t := TrackerOf(w, s.act); var reading := s.act.reading;
      if t.attached && t.session.Some? && !Recorded(t, reading) &&
         MayPass(w.store.db, t, reading, idle, s.act.reachable) then
        w1.trackers == w.trackers[w.conns[s.act.conn].tracker := t.(lastPersisted := Some(reading))] &&
        t.session.value in w.store.db.sessions &&
        var session := w.store.db.sessions[t.session.value];
        t.session.value in w1.store.db.sessions && session.login in w1.store.db.logins &&
        w1.store.db.sessions[t.session.value] == session.(lastSeenAt := reading) &&
        w1.store.db.logins[session.login].lastSeenAt == reading
      else
        w1.trackers == w.trackers && w1.store.db == w.store.db
  {
  }

  /** Two calls on one tracker: once one was let through on asking, another within 30 seconds always passes. */
  lemma RecordLetsPass(w: World, s: Step, again: Step, idle: nat)
    requires (s.act.Read? || s.act.Write?) && AskOf(w, s).Some?
    requires MayPass(w.store.db, TrackerOf(w, s.act), s.act.reading, idle, s.act.reachable)
    requires (again.act.Read? || again.act.Write?) && AskOf(Next(w, s, idle), again).Some?
    requires w.conns[s.act.conn].tracker == Next(w, s, idle).conns[again.act.conn].tracker
    requires !Recorded(TrackerOf(w, s.act), s.act.reading) && again.act.reading < s.act.reading + 30 * Db.SECOND
    ensures var w1 := Next(w, s, idle);
      Next(w1, again, idle).moved ==
      w.moved + [Transfer(s.act.conn, s.act.reading, Bytes(s.act))] +
      [Transfer(again.act.conn, again.act.reading, Bytes(again.act))]
  {
    hide Db.Touchable, Db.Touched, Next;
    CallPassesExactlyWhen(w, s, idle);
    CallIsRecordedExactlyWhen(w, s, idle);
    CallPassesExactlyWhen(Next(w, s, idle), again, idle);
  }

  /***** Terminals *****/

  /** The answer to a terminal cancels it if and only if the session cannot be touched; a grant is recorded. */
  lemma AnswerCancelsExactlyWhen(w: World, s: Step, idle: nat)
    requires s.act.AskForShell? && AskOf(w, s).Some?
    ensures var sh := w.shells[s.act.shell]; var w1 := Next(w, s, idle); var state := w1.shells[s.act.shell].state;
      var reading := sh.state.monitor.reading;
      if s.act.reachable && Db.Touchable(w.store.db, sh.session, reading, reading - idle) then
        state.cancelled == sh.state.cancelled && state.monitor == Terminal.Waiting && state.lastPersisted == reading &&
        sh.session in w1.store.db.sessions && w1.store.db.sessions[sh.session].lastSeenAt == reading
      else
        state.cancelled && state.monitor == Terminal.Stopped && w1.store.db == w.store.db
  {
  }

  /** Nothing cancels a terminal but its monitor, the end of its loop, or somebody else. */
  lemma CancelledExactlyWhen(s: Terminal.State, step: Terminal.Step)
    ensures Terminal.Next(s, step).cancelled <==>
            s.cancelled || step.act.Cancel? || (step.act.CleanUp? && s.loop.Returned?) ||
            (step.act.IdleFires? && s.monitor.Waiting?) ||
            (step.act == Terminal.Answer(false) && s.monitor.Holding?)
  {
    hide Terminal.InputNext, Terminal.OutputNext;
    var s0 := s.(clock := s.clock + step.tick);
    ReadersCancelNothing(s0, step.act);
  }

  lemma ReadersCancelNothing(s: Terminal.State, act: Terminal.Act)
    ensures Terminal.InputNext(s, act).cancelled == s.cancelled && Terminal.OutputNext(s, act).cancelled == s.cancelled
  {
  }

  /** A message that arrives is sent to the shell in three steps, whatever the monitor does meanwhile. */
  lemma MessageIsSent(s: Terminal.State, tick: nat, count: nat, monitored: seq<Terminal.Step>,
                      after: seq<Terminal.Step>)
    requires s.input.Reading?
    requires forall step | step in monitored || step in after :: OfMonitor(step.act)
    ensures var s1 := Terminal.Next(s, Terminal.Step(tick, Terminal.Receive(count)));
      var s2 := Terminal.Next(Terminal.Run(s1, monitored), Terminal.Step(0, Terminal.SignalInput));
      var s3 := Terminal.Next(Terminal.Run(s2, after), Terminal.Step(0, Terminal.Deliver));
      s3.sent == s.sent + [Terminal.Piece(count, s.clock + tick)] && s2.signal && s3.input.Between?
  {
    hide Terminal.OutputNext, Terminal.LoopNext, Terminal.MonitorNext;
    var s1 := Terminal.Next(s, Terminal.Step(tick, Terminal.Receive(count)));
    MonitorLeavesReaders(s1, monitored);
    MonitorLeavesReaders(Terminal.Next(Terminal.Run(s1, monitored), Terminal.Step(0, Terminal.SignalInput)), after);
  }

  predicate OfMonitor(act: Terminal.Act) {
    act.Take? || act.Answer? || act.IdleFires? || act.SeeStop? || act.Cancel?
  }

  predicate SamePassage(s: Terminal.State, s1: Terminal.State) {
    s1.input == s.input && s1.sent == s.sent && s1.outputs == s.outputs && s1.queue == s.queue &&
    s1.loop == s.loop && s1.shown == s.shown
  }

  lemma MonitorStepLeavesReaders(s: Terminal.State, step: Terminal.Step)
    requires OfMonitor(step.act)
    ensures SamePassage(s, Terminal.Next(s, step))
  {
    hide Terminal.InputNext, Terminal.OutputNext, Terminal.LoopNext;
  }

  lemma {:induction false} MonitorLeavesReaders(s: Terminal.State, steps: seq<Terminal.Step>)
    requires forall step | step in steps :: OfMonitor(step.act)
    ensures SamePassage(s, Terminal.Run(s, steps))
    decreases |steps|
  {
    hide Terminal.Next;
    if steps != [] {
      assert steps[0] in steps;
      MonitorStepLeavesReaders(s, steps[0]);
      MonitorLeavesReaders(Terminal.Next(s, steps[0]), steps[1..]);
    }
  }

  lemma ThreeSteps(s: Terminal.State, a: Terminal.Step, b: Terminal.Step, c: Terminal.Step, rest: seq<Terminal.Step>)
    ensures Terminal.Run(s, [a, b, c] + rest) ==
            Terminal.Run(Terminal.Next(Terminal.Next(Terminal.Next(s, a), b), c), rest)
  {
    hide Terminal.Next;
    var steps := [a, b, c] + rest;
    var s1 := Terminal.Next(s, a);
    assert steps[1..] == [b, c] + rest && steps[1..][1..] == [c] + rest && steps[1..][1..][1..] == rest;
    assert Terminal.Run(s, steps) == Terminal.Run(s1, steps[1..]);
    assert Terminal.Run(s1, steps[1..]) == Terminal.Run(Terminal.Next(s1, b), steps[1..][1..]);
  }

  /** What is queued is shown in order by a terminal that is not cancelled and whose browser takes it. */
  lemma {:induction false} QueueIsShown(s: Terminal.State) returns (steps: seq<Terminal.Step>)
    requires !s.cancelled && s.loop.Selecting?
    ensures var s1 := Terminal.Run(s, steps);
      s1.shown == s.shown + s.queue && s1.queue == [] && s1.loop.Selecting? && !s1.cancelled
    decreases |s.queue|
  {
    hide Terminal.InputNext, Terminal.OutputNext, Terminal.MonitorNext, Terminal.Run;
    steps := [];
    if s.queue == [] {
      assert Terminal.Run(s, []) == s by { NoSteps(s); }
    } else {
      var pick, write, end := Terminal.Step(0, Terminal.Pick), Terminal.Step(0, Terminal.BeginWrite),
                              Terminal.Step(0, Terminal.EndWrite(true));
      var s1 := Terminal.Next(Terminal.Next(Terminal.Next(s, pick), write), end);
      assert s1.shown == s.shown + [s.queue[0]] && s1.queue == s.queue[1..];
      steps := QueueIsShown(s1);
      ThreeSteps(s, pick, write, end, steps);
      steps := [pick, write, end] + steps;
      assert s.queue == [s.queue[0]] + s.queue[1..];
    }
  }

  lemma NoSteps(s: Terminal.State)
    ensures Terminal.Run(s, []) == s
  {
  }

  /** A chunk that arrives while the channel has room is shown behind what was queued before it. */
  lemma OutputIsShown(s: Terminal.State, tick: nat, from: nat, count: nat) returns (steps: seq<Terminal.Step>)
    requires !s.cancelled && s.loop.Selecting? && from < |s.outputs| && s.outputs[from].Reading?
    requires |s.queue| < Terminal.OUTPUT_CAPACITY
    ensures var s1 := Terminal.Run(s, [Terminal.Step(tick, Terminal.Output(from, count))] + steps);
      s1.shown == s.shown + s.queue + [Terminal.Piece(count, s.clock + tick)] && s1.queue == [] && !s1.cancelled
  {
    hide Terminal.InputNext, Terminal.LoopNext, Terminal.MonitorNext, Terminal.Run;
    var out, signal, push := Terminal.Step(tick, Terminal.Output(from, count)),
                             Terminal.Step(0, Terminal.SignalOutput(from)), Terminal.Step(0, Terminal.Push(from));
    var s1 := Terminal.Next(Terminal.Next(Terminal.Next(s, out), signal), push);
    var rest := QueueIsShown(s1);
    ThreeSteps(s, out, signal, push, rest);
    steps := [signal, push] + rest;
    assert [out] + steps == [out, signal, push] + rest;
    assert s1.queue == s.queue + [Terminal.Piece(count, s.clock + tick)];
  }
}
