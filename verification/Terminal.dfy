/**
 One WebSSH terminal: the goroutine that reads the browser's messages, the two that read the shell's output,
 the loop that writes it to the browser, and the monitor of activity that may cancel them all.  One step is
 what one goroutine does between two points where another can be seen to act; steps interleave freely.

 Of the websocket it is assumed that a call begun on a cancelled context fails; one that is under way when
 the context is cancelled may still succeed.  Reading the shell does not look at the context at all.
 */
module Terminal {
  import Db = AccessStore

  const ACTIVITY_PERSIST_INTERVAL: int := 30 * Db.SECOND
  const OUTPUT_CAPACITY: nat := 32

  /** A message or a chunk of output: its size, and when it was received. */
  datatype Piece = Piece(count: nat, at: int)

  /** What has been received is first signalled, then passed on.  `Between` is before the next read. */
  datatype Reader = Reading | Got(piece: Piece) | Signalled(piece: Piece) | Between | Gone

  datatype Loop = Selecting | Picked(piece: Piece) | Writing(piece: Piece) | Returned

  /** `Holding` has read its clock and is about to ask whether the session may go on. */
  datatype Monitor = Waiting | Holding(reading: int) | Stopped

  /**
   `queue` is the channel of output, `signal` the channel of one element that says that there was activity,
   `raised` when it was last said.  `got` and `pushed` are what came out of the websocket and went into the
   channel so far, `sent` and `shown` what was written to the shell and to the browser.
   */
  datatype State = State(attached: bool, clock: int, input: Reader, outputs: seq<Reader>, queue: seq<Piece>,
                         loop: Loop, signal: bool, monitor: Monitor, lastPersisted: int, cancelled: bool,
                         raised: int, got: seq<Piece>, sent: seq<Piece>, pushed: seq<Piece>, shown: seq<Piece>)

  datatype Act =
    | Receive(count: nat)
    | ReadFails
    | SignalInput
    | Deliver
    | ReadAgain
    | Output(from: nat, count: nat)
    | OutputEnds(from: nat)
    | SignalOutput(from: nat)
    | Push(from: nat)
    | Drop(from: nat)
    | Pick
    | BeginWrite
    | EndWrite(ok: bool)
    | SeeInputGone
    | SeeCancelled
    | SeeOutputEnd
    | CleanUp
    | Take
    | Answer(granted: bool)
    | IdleFires
    | SeeStop
    | Cancel

  /**
   An act, and how far the clock has moved since the one before.  `Cancel` is everybody else: the session's
   end, its revocation, the end of the request.
   */
  datatype Step = Step(tick: nat, act: Act)

  /** The moment at which the monitor reads its clock first. */
  function Start(attached: bool, now: int): State {
    State(attached, now, Reading, [Reading, Reading], [], Selecting, false, Waiting, now, false, now, [], [], [], [])
  }

  /***** The steps *****/

  predicate InHand(r: Reader) {
    r.Got? || r.Signalled?
  }

  function Raised(s: State): State {
    s.(signal := true, raised := s.clock)
  }

  function InputNext(s: State, act: Act): State {
    match act
    case Receive(count) =>
      if s.input.Reading?
      then s.(input := Got(Piece(count, s.clock)), got := s.got + [Piece(count, s.clock)]) else s
    case ReadFails => if s.input.Reading? then s.(input := Gone) else s
    case SignalInput => if s.input.Got? then Raised(s).(input := Signalled(s.input.piece)) else s
    case Deliver => if s.input.Signalled? then s.(input := Between, sent := s.sent + [s.input.piece]) else s
    case ReadAgain => if s.input.Between? then s.(input := if s.cancelled then Gone else Reading) else s
    case _ => s
  }

  function OutputNext(s: State, act: Act): State {
    match act
    case Output(o, count) =>
      if o < |s.outputs| && s.outputs[o].Reading?
      then s.(outputs := s.outputs[o := Got(Piece(count, s.clock))]) else s
    case OutputEnds(o) =>
      if o < |s.outputs| && s.outputs[o].Reading? then s.(outputs := s.outputs[o := Gone]) else s
    case SignalOutput(o) =>
      if o < |s.outputs| && s.outputs[o].Got?
      then Raised(s).(outputs := s.outputs[o := Signalled(s.outputs[o].piece)]) else s
    case Push(o) =>
      if o < |s.outputs| && s.outputs[o].Signalled? && |s.queue| < OUTPUT_CAPACITY
      then s.(outputs := s.outputs[o := Reading], queue := s.queue + [s.outputs[o].piece],
              pushed := s.pushed + [s.outputs[o].piece])
      else s
    case Drop(o) =>
      if o < |s.outputs| && s.outputs[o].Signalled? && s.cancelled then s.(outputs := s.outputs[o := Gone]) else s
    case _ => s
  }

  function LoopNext(s: State, act: Act): State {
    match act
    case Pick => if s.loop.Selecting? && s.queue != [] then s.(loop := Picked(s.queue[0]), queue := s.queue[1..]) else s
    case BeginWrite => if s.loop.Picked? then s.(loop := if s.cancelled then Returned else Writing(s.loop.piece)) else s
    case EndWrite(ok) =>
      if s.loop.Writing?
      then if ok then s.(loop := Selecting, shown := s.shown + [s.loop.piece]) else s.(loop := Returned)
      else s
    case SeeInputGone => if s.loop.Selecting? && s.input.Gone? then s.(loop := Returned) else s
    case SeeCancelled => if s.loop.Selecting? && s.cancelled then s.(loop := Returned) else s
    case SeeOutputEnd =>
      if s.loop.Selecting? && s.queue == [] && forall o | 0 <= o < |s.outputs| :: s.outputs[o].Gone?
      then s.(loop := Returned) else s
    case CleanUp => if s.loop.Returned? then s.(cancelled := true) else s
    case _ => s
  }

  function MonitorNext(s: State, act: Act): State {
    match act
    case Take =>
      if !s.monitor.Waiting? || !s.signal then s
      else if s.clock - s.lastPersisted < ACTIVITY_PERSIST_INTERVAL then s.(signal := false)
      else if s.attached then s.(signal := false, monitor := Holding(s.clock))
      else s.(signal := false, lastPersisted := s.clock)
    case Answer(granted) =>
      if !s.monitor.Holding? then s
      else if granted then s.(monitor := Waiting, lastPersisted := s.monitor.reading)
      else s.(monitor := Stopped, cancelled := true)
    case IdleFires => if s.monitor.Waiting? then s.(monitor := Stopped, cancelled := true) else s
    case SeeStop => if s.monitor.Waiting? && s.cancelled then s.(monitor := Stopped) else s
    case Cancel => s.(cancelled := true)
    case _ => s
  }

  predicate OfInput(act: Act) {
    act.Receive? || act.ReadFails? || act.SignalInput? || act.Deliver? || act.ReadAgain?
  }

  predicate OfOutput(act: Act) {
    act.Output? || act.OutputEnds? || act.SignalOutput? || act.Push? || act.Drop?
  }

  predicate OfLoop(act: Act) {
    act.Pick? || act.BeginWrite? || act.EndWrite? || act.SeeInputGone? || act.SeeCancelled? || act.SeeOutputEnd? ||
    act.CleanUp?
  }

  function Next(s: State, step: Step): State {
    var s0 := s.(clock := s.clock + step.tick);
    if OfInput(step.act) then InputNext(s0, step.act)
    else if OfOutput(step.act) then OutputNext(s0, step.act)
    else if OfLoop(step.act) then LoopNext(s0, step.act)
    else MonitorNext(s0, step.act)
  }

  function Run(s: State, steps: seq<Step>): State
    decreases |steps|
  {
    if steps == [] then s else Run(Next(s, steps[0]), steps[1..])
  }

  /***** Nothing is invented, and order is kept *****/

  function HandOf(r: Reader): seq<Piece> {
    if InHand(r) then [r.piece] else []
  }

  function AtHand(l: Loop): seq<Piece> {
    if l.Picked? || l.Writing? then [l.piece] else []
  }

  /** The shell has been sent the messages received, but for the one in hand; the browser the output, in order. */
  predicate InOrder(s: State) {
    s.got == s.sent + HandOf(s.input) &&
    (if s.loop.Returned? then s.shown <= s.pushed else s.pushed == s.shown + AtHand(s.loop) + s.queue)
  }

  lemma InputKeepsOrder(s: State, act: Act)
    requires InOrder(s)
    ensures InOrder(InputNext(s, act))
  {
  }

  lemma OutputKeepsOrder(s: State, act: Act)
    requires InOrder(s)
    ensures InOrder(OutputNext(s, act))
  {
    if act.Push? && act.from < |s.outputs| && s.outputs[act.from].Signalled? {
      var p := s.outputs[act.from].piece;
      assert s.shown + AtHand(s.loop) + s.queue + [p] == s.shown + AtHand(s.loop) + (s.queue + [p]);
    }
  }

  lemma LoopKeepsOrder(s: State, act: Act)
    requires InOrder(s)
    ensures InOrder(LoopNext(s, act))
  {
    if act.Pick? && s.loop.Selecting? && s.queue != [] {
      assert s.queue == [s.queue[0]] + s.queue[1..];
      assert s.shown + [] + s.queue == s.shown + [s.queue[0]] + s.queue[1..];
    }
  }

  lemma StepKeepsOrder(s: State, step: Step)
    requires InOrder(s)
    ensures InOrder(Next(s, step))
  {
    hide InOrder, InputNext, OutputNext, LoopNext;
    var s0 := s.(clock := s.clock + step.tick);
    TickKeepsOrder(s, s0.clock);
    InputKeepsOrder(s0, step.act);
    OutputKeepsOrder(s0, step.act);
    LoopKeepsOrder(s0, step.act);
    MonitorKeepsOrder(s0, step.act);
  }

  lemma TickKeepsOrder(s: State, clock: int)
    requires InOrder(s)
    ensures InOrder(s.(clock := clock))
  {
  }

  lemma MonitorKeepsOrder(s: State, act: Act)
    requires InOrder(s)
    ensures InOrder(MonitorNext(s, act))
  {
  }

  /** In every run each message reaches the shell once and in order; so does the output that reaches the browser. */
  lemma {:induction false} EverythingInOrder(s: State, steps: seq<Step>)
    requires InOrder(s)
    ensures InOrder(Run(s, steps)) &&
            Run(s, steps).sent <= Run(s, steps).got && Run(s, steps).shown <= Run(s, steps).pushed
    decreases |steps|
  {
    if steps != [] {
      StepKeepsOrder(s, steps[0]);
      EverythingInOrder(Next(s, steps[0]), steps[1..]);
    }
  }

  /***** After the cancellation *****/

  /** The reader may still come by something to pass on, or has it already. */
  predicate MayDeliver(r: Reader) {
    r.Reading? || InHand(r)
  }

  /**
   What may have been sent since: the message in hand, or one whose read was under way; after it, none.
   */
  predicate InputCut(s: State, s1: State) {
    if InHand(s.input) then
      (s1.sent == s.sent && InHand(s1.input) && s1.input.piece == s.input.piece) ||
      (s1.sent == s.sent + [s.input.piece] && !MayDeliver(s1.input))
    else if s.input.Reading? then
      s1.sent == s.sent ||
      (|s1.sent| == |s.sent| + 1 && s1.sent[..|s.sent|] == s.sent && !MayDeliver(s1.input))
    else s1.sent == s.sent && !MayDeliver(s1.input)
  }

  /** What may have been shown since: the output that was being written. */
  predicate OutputCut(s: State, s1: State) {
    if s.loop.Writing? then
      (s1.shown == s.shown && (s1.loop == s.loop || !s1.loop.Writing?)) ||
      (s1.shown == s.shown + [s.loop.piece] && !s1.loop.Writing?)
    else s1.shown == s.shown && !s1.loop.Writing?
  }

  predicate Cut(s: State, s1: State) {
    s.cancelled ==> s1.cancelled && InputCut(s, s1) && OutputCut(s, s1)
  }

  lemma StepIsCut(s: State, step: Step)
    ensures Cut(s, Next(s, step))
  {
    hide OutputNext, MonitorNext;
    if OfOutput(step.act) {
      OutputCutsNothing(s.(clock := s.clock + step.tick), step.act);
    } else if !OfInput(step.act) && !OfLoop(step.act) {
      MonitorCutsNothing(s.(clock := s.clock + step.tick), step.act);
    }
  }

  lemma OutputCutsNothing(s: State, act: Act)
    ensures Cut(s, OutputNext(s, act))
  {
  }

  lemma MonitorCutsNothing(s: State, act: Act)
    ensures Cut(s, MonitorNext(s, act))
  {
  }

  lemma CutIsTransitive(a: State, b: State, c: State)
    requires Cut(a, b) && Cut(b, c)
    ensures Cut(a, c)
  {
  }

  /**
   Once the terminal is cancelled, at most one message is still sent to the shell - the one in hand, or one
   whose read is under way - and at most one chunk of output to the browser, the one being written.
   */
  lemma {:induction false} CancelledTerminalIsCut(s: State, steps: seq<Step>)
    requires s.cancelled
    ensures Cut(s, Run(s, steps))
    ensures |Run(s, steps).sent| <= |s.sent| + 1 && |Run(s, steps).shown| <= |s.shown| + 1
    decreases |steps|
  {
    hide Next;
    if steps != [] {
      StepIsCut(s, steps[0]);
      CancelledTerminalIsCut(Next(s, steps[0]), steps[1..]);
      CutIsTransitive(s, Next(s, steps[0]), Run(Next(s, steps[0]), steps[1..]));
    }
  }

  /** The message whose own signal brings the refusal is sent all the same. */
  lemma RefusedMessageStillArrives(s: State, count: nat)
    requires s.attached && !s.cancelled && s.input.Reading? && s.monitor.Waiting?
    requires s.clock - s.lastPersisted >= ACTIVITY_PERSIST_INTERVAL
    ensures var steps := [Step(0, Receive(count)), Step(0, SignalInput), Step(0, Take), Step(0, Answer(false))];
      Run(s, steps).cancelled && Run(s, steps).sent == s.sent &&
      Run(s, steps + [Step(0, Deliver)]).sent == s.sent + [Piece(count, s.clock)]
  {
    hide Next;
    var a, b, c, d, e := Step(0, Receive(count)), Step(0, SignalInput), Step(0, Take), Step(0, Answer(false)),
                         Step(0, Deliver);
    RefusedStates(s, count);
    RunOf4(s, a, b, c, d);
    assert [a, b, c, d] + [e] == [a] + [b, c, d, e];
    RunOf4(Next(s, a), b, c, d, e);
    assert ([a] + [b, c, d, e])[1..] == [b, c, d, e];
  }

  /** A message received, signalled and taken up by the monitor at one moment. */
  function TakenUp(s: State, p: Piece): State {
    s.(input := Signalled(p), got := s.got + [p], raised := s.clock, signal := false, monitor := Holding(s.clock))
  }

  lemma MessageIsTakenUp(s: State, count: nat)
    requires s.attached && s.input.Reading? && s.monitor.Waiting?
    requires s.clock - s.lastPersisted >= ACTIVITY_PERSIST_INTERVAL
    ensures Next(Next(Next(s, Step(0, Receive(count))), Step(0, SignalInput)), Step(0, Take)) ==
            TakenUp(s, Piece(count, s.clock))
  {
    hide OutputNext, LoopNext;
  }

  lemma RefusedStates(s: State, count: nat)
    requires s.attached && !s.cancelled && s.input.Reading? && s.monitor.Waiting?
    requires s.clock - s.lastPersisted >= ACTIVITY_PERSIST_INTERVAL
    ensures var s3 := Next(Next(Next(s, Step(0, Receive(count))), Step(0, SignalInput)), Step(0, Take));
      var s4 := Next(s3, Step(0, Answer(false)));
      s4.cancelled && s4.sent == s.sent && Next(s4, Step(0, Deliver)).sent == s.sent + [Piece(count, s.clock)]
  {
    hide OutputNext, LoopNext;
    MessageIsTakenUp(s, count);
    var s3 := TakenUp(s, Piece(count, s.clock));
    assert Next(s3, Step(0, Answer(false))) == s3.(monitor := Stopped, cancelled := true);
  }

  lemma RunOf4(s: State, a: Step, b: Step, c: Step, d: Step)
    ensures Run(s, [a, b, c, d]) == Next(Next(Next(Next(s, a), b), c), d)
  {
    hide Next;
    assert [a, b, c, d][1..] == [b, c, d] && [b, c, d][1..] == [c, d] && [c, d][1..] == [d] && [d][1..] == [];
    var s1 := Next(s, a);
    var s2 := Next(s1, b);
    assert Run(Next(Next(s2, c), d), []) == Next(Next(s2, c), d);
    assert Run(s2, [c, d]) == Run(Next(s2, c), [d]);
  }

  /***** Late pieces leave a signal *****/

  /**
   Everything that has passed its signal was received before the latest signal, nothing is ahead of the clock,
   and the monitor stops only if the terminal is cancelled.
   */
  predicate Coherent(s: State) {
    s.lastPersisted <= s.clock && (s.monitor.Holding? ==> s.monitor.reading <= s.clock) && PiecesHeard(s) &&
    (s.monitor.Stopped? ==> s.cancelled)
  }

  predicate PiecesHeard(s: State) {
    s.raised <= s.clock &&
    (s.input.Got? ==> s.input.piece.at <= s.clock) && (s.input.Signalled? ==> s.input.piece.at <= s.raised) &&
    (forall o | 0 <= o < |s.outputs| ::
       (s.outputs[o].Got? ==> s.outputs[o].piece.at <= s.clock) &&
       (s.outputs[o].Signalled? ==> s.outputs[o].piece.at <= s.raised)) &&
    (forall i | 0 <= i < |s.sent| :: s.sent[i].at <= s.raised) &&
    (forall i | 0 <= i < |s.pushed| :: s.pushed[i].at <= s.raised)
  }

  lemma TickKeepsCoherent(s: State, clock: int)
    requires Coherent(s) && s.clock <= clock
    ensures Coherent(s.(clock := clock))
  {
  }

  lemma InputKeepsCoherent(s: State, act: Act)
    requires Coherent(s)
    ensures Coherent(InputNext(s, act))
  {
  }

  lemma OutputKeepsCoherent(s: State, act: Act)
    requires Coherent(s)
    ensures Coherent(OutputNext(s, act))
  {
  }

  lemma LoopKeepsCoherent(s: State, act: Act)
    requires Coherent(s)
    ensures Coherent(LoopNext(s, act))
  {
    hide PiecesHeard;
    SamePiecesHeard(s, LoopNext(s, act));
  }

  lemma MonitorKeepsCoherent(s: State, act: Act)
    requires Coherent(s)
    ensures Coherent(MonitorNext(s, act))
  {
    hide PiecesHeard;
    SamePiecesHeard(s, MonitorNext(s, act));
  }

  lemma SamePiecesHeard(s: State, s1: State)
    requires PiecesHeard(s) && s1.raised == s.raised && s1.clock == s.clock && s1.input == s.input
    requires s1.outputs == s.outputs && s1.sent == s.sent && s1.pushed == s.pushed
    ensures PiecesHeard(s1)
  {
  }

  lemma StepKeepsCoherent(s: State, step: Step)
    requires Coherent(s)
    ensures Coherent(Next(s, step))
  {
    hide Coherent, InputNext, OutputNext, LoopNext, MonitorNext;
    var s0 := s.(clock := s.clock + step.tick);
    TickKeepsCoherent(s, s0.clock);
    InputKeepsCoherent(s0, step.act);
    OutputKeepsCoherent(s0, step.act);
    LoopKeepsCoherent(s0, step.act);
    MonitorKeepsCoherent(s0, step.act);
  }

  /** The terminal is cancelled, or its monitor will hear of activity at `from` or later, or is about to ask. */
  predicate Pending(s: State, from: int) {
    s.cancelled || (from <= s.clock && (s.signal || (s.monitor.Holding? && from <= s.monitor.reading)))
  }

  /** The monitor still goes by a record from before the interval that ends at `from`, and owes an answer since. */
  predicate Owes(s: State, from: int) {
    s.attached && s.lastPersisted + ACTIVITY_PERSIST_INTERVAL <= from &&
    (from <= s.raised ==> Pending(s, from))
  }

  /** Grants are for readings from before that interval. */
  predicate GrantsBefore(s: State, act: Act, from: int) {
    act == Answer(true) && s.monitor.Holding? ==> s.monitor.reading + ACTIVITY_PERSIST_INTERVAL <= from
  }

  predicate Owing(s: State, s1: State, from: int) {
    Owes(s1, from) && (Pending(s, from) ==> Pending(s1, from))
  }

  lemma InputKeepsOwing(s: State, act: Act, from: int)
    requires Coherent(s) && Owes(s, from)
    ensures Owing(s, InputNext(s, act), from)
  {
  }

  lemma OutputKeepsOwing(s: State, act: Act, from: int)
    requires Coherent(s) && Owes(s, from)
    ensures Owing(s, OutputNext(s, act), from)
  {
  }

  lemma LoopKeepsOwing(s: State, act: Act, from: int)
    requires Coherent(s) && Owes(s, from)
    ensures Owing(s, LoopNext(s, act), from)
  {
  }

  lemma MonitorKeepsOwing(s: State, act: Act, from: int)
    requires Coherent(s) && Owes(s, from) && GrantsBefore(s, act, from)
    ensures Owing(s, MonitorNext(s, act), from)
  {
  }

  lemma StepKeepsOwing(s: State, step: Step, from: int)
    requires Coherent(s) && Owes(s, from) && GrantsBefore(s, step.act, from)
    ensures Owing(s, Next(s, step), from)
  {
    hide InputNext, OutputNext, LoopNext, MonitorNext, PiecesHeard;
    var s0 := s.(clock := s.clock + step.tick);
    TickKeepsCoherent(s, s0.clock);
    InputKeepsOwing(s0, step.act, from);
    OutputKeepsOwing(s0, step.act, from);
    LoopKeepsOwing(s0, step.act, from);
    MonitorKeepsOwing(s0, step.act, from);
  }

  /** Whatever was received at `from` or later and has been passed on: the terminal is cancelled or will be. */
  lemma LatePieceIsPending(s: State, from: int, p: Piece)
    requires Coherent(s) && Owes(s, from) && (p in s.sent || p in s.pushed) && from <= p.at
    ensures Pending(s, from)
  {
  }

  lemma ShownWasPushed(s: State, p: Piece)
    requires InOrder(s)
    ensures p in s.shown ==> p in s.pushed
  {
  }

  /** The monitor's own steps: taking up a signal, and being answered. */
  predicate Turns(s: State, act: Act) {
    (act.Take? && s.monitor.Waiting? && s.signal) || (act.Answer? && s.monitor.Holding?)
  }

  /** How many turns of the monitor it takes at most until it cancels. */
  function TurnsLeft(s: State, from: int): nat {
    if s.cancelled then 0
    else if s.monitor.Holding? then (if from <= s.monitor.reading then 1 else 3)
    else 2
  }

  lemma StepTakesATurn(s: State, step: Step, from: int)
    requires Coherent(s) && Owes(s, from) && GrantsBefore(s, step.act, from) && Pending(s, from)
    ensures TurnsLeft(Next(s, step), from) <= TurnsLeft(s, from)
    ensures Turns(s, step.act) && !s.cancelled ==> TurnsLeft(Next(s, step), from) < TurnsLeft(s, from)
  {
  }

  /** Until it is cancelled there is a turn for the monitor to take. */
  lemma MonitorHasATurn(s: State, from: int)
    requires Coherent(s) && Owes(s, from) && Pending(s, from) && !s.cancelled
    ensures Turns(s, Take) || Turns(s, Answer(false))
  {
  }
}
