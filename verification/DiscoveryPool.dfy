/**
 The worker pool that carries out one discovery job: a producer that hands out probes over an
 unbuffered channel, workers, a bounded channel of results, a collector that writes them down, and a
 `Cancel` that waits until the run is over.  One step is what one goroutine does between two points
 where another can be seen to act; steps interleave freely.

 Probes are numbered in the order in which the producer would hand them out, network by network.
 What a probe finds is arbitrary.
 */
module DiscoveryPool {
  import opened ListFacts
  import opened Arithmetic

  datatype Status = Queued | Running | Completed | Failed | Canceled

  /** The job's row in the database. */
  datatype Row = Row(status: Status, progress: int)

  /** `lens`: how many probes each network needs.  `capacity` is both the workers and the results channel. */
  datatype Job = Job(lens: seq<nat>, capacity: nat)

  datatype Worker = Idle | Probing(task: nat) | Holding(task: nat) | Exited

  /** Where a probe is; kept beside the program's own state. */
  datatype Spot = Waiting | Held(worker: nat) | Buffered | Collected | Skipped | Dropped

  /** The run is before its first write, tunnel or route lookup, in the pool, at its end, or over. */
  datatype Phase = Opening | Tunnelling | Routing | Pooling | Ended | Finished

  /** How a run ends: without having begun, or with its one terminal write. */
  datatype Fate = Pending | NotBegun | Wrote(status: Status)

  datatype StateWrite = StateWrite(status: Status, progress: int)

  datatype State = State(phase: Phase, cancelled: bool,
                         next: nat, tasksClosed: bool, workers: seq<Worker>, buffer: seq<nat>, resultsClosed: bool,
                         collected: seq<nat>, lastProgress: int,
                         found: set<nat>, saved: seq<nat>, writes: seq<StateWrite>, tunnels: nat,
                         row: Row, spots: seq<Spot>, fate: Fate)

  /**
   `HandlerCancels` is a cancelling handler's own write.  A handler that finds no run registered does not
   wait for one, so the write may come at any time.
   */
  datatype Op =
    | Begin(ok: bool)
    | Tunnel(ok: bool, written: bool)
    | Route(ok: bool, written: bool)
    | Take(worker: nat)
    | ProbeEnd(worker: nat, finds: bool)
    | Send(worker: nat)
    | Drop(worker: nat)
    | Leave(worker: nat)
    | SkipNetwork
    | CloseTasks
    | CloseResults
    | Collect(written: bool)
    | Finish(written: bool)
    | CleanUp
    | Cancel
    | HandlerCancels(written: bool)

  /***** The database *****/

  predicate Terminal(status: Status) {
    status == Completed || status == Failed || status == Canceled
  }

  function Clamp(progress: int): int {
    if progress < 0 then 0 else if progress > 100 then 100 else progress
  }

  /** A job that has reached a terminal state is not written again. */
  function SetState(row: Row, status: Status, progress: int): Row {
    if Terminal(row.status) then row else Row(status, Clamp(progress))
  }

  /** The collector and the run's end ignore it when a write fails. */
  function Write(s: State, status: Status, progress: int, written: bool): State {
    s.(writes := s.writes + [StateWrite(status, progress)],
       row := if written then SetState(s.row, status, progress) else s.row)
  }

  /***** The producer's numbering *****/

  function Total(lens: seq<nat>): nat {
    if lens == [] then 0 else lens[0] + Total(lens[1..])
  }

  /** Where the network of probe `k` ends. */
  function EndOf(lens: seq<nat>, k: nat): (end: nat)
    requires k < Total(lens)
    ensures k < end <= Total(lens)
  {
    if k < lens[0] then lens[0] else lens[0] + EndOf(lens[1..], k - lens[0])
  }

  function Percent(completed: nat, total: nat): nat {
    if total == 0 then 0 else completed * 100 / total
  }

  /***** The steps *****/

  function Start(job: Job): State {
    State(Opening, false, 0, false, [], [], false, [], -1, {}, [], [], 0, Row(Queued, 0),
          seq(Total(job.lens), i => Waiting), Pending)
  }

  /**
   The first write uses the run's own context, so it also fails once the run is cancelled, and it reports an
   error if it hits no row because a handler has already written a terminal state.
   */
  function Begun(s: State, ok: bool): State {
    var begins := ok && !s.cancelled && !Terminal(s.row.status);
    var s1 := Write(s, Running, 0, begins);
    if begins then s1.(phase := Tunnelling) else s1.(phase := Ended, fate := NotBegun)
  }

  function FailedAt(s: State, written: bool): State {
    Write(s, Failed, 0, written).(phase := Ended, fate := Wrote(Failed))
  }

  function Tunnelled(s: State, ok: bool, written: bool): State {
    var s1 := s.(tunnels := s.tunnels + 1);
    if ok then s1.(phase := Routing) else FailedAt(s1, written)
  }

  function Routed(job: Job, s: State, ok: bool, written: bool): State {
    if ok then s.(phase := Pooling, workers := seq(job.capacity, i => Idle)) else FailedAt(s, written)
  }

  function Put(s: State, w: nat, worker: Worker): State
    requires w < |s.workers|
  {
    s.(workers := s.workers[w := worker])
  }

  function At(s: State, task: nat, spot: Spot): State
    requires task < |s.spots|
  {
    s.(spots := s.spots[task := spot])
  }

  function SkippedTo(s: State, end: nat): State
    requires s.next <= end
  {
    s.(next := end,
       spots := seq(|s.spots|, i requires 0 <= i < |s.spots| => if s.next <= i < end then Skipped else s.spots[i]))
  }

  /** One result received: it is saved if the probe found something, and new progress is reported. */
  function CollectedOne(job: Job, s: State, written: bool): State
    requires s.buffer != [] && s.buffer[0] < |s.spots|
  {
    var task := s.buffer[0];
    var collected := s.collected + [task];
    var progress := Percent(|collected|, Total(job.lens));
    var s1 := At(s, task, Collected).(buffer := s.buffer[1..], collected := collected, lastProgress := progress,
                                      saved := if task in s.found then s.saved + [task] else s.saved);
    if progress != s.lastProgress then Write(s1, Running, progress, written) else s1
  }

  function FinishedOff(job: Job, s: State, written: bool): State {
    if s.cancelled
    then Write(s, Canceled, Percent(|s.collected|, Total(job.lens)), written).(phase := Ended, fate := Wrote(Canceled))
    else Write(s, Completed, 100, written).(phase := Ended, fate := Wrote(Completed))
  }

  predicate AllExited(workers: seq<Worker>) {
    forall w | 0 <= w < |workers| :: workers[w] == Exited
  }

  predicate Enabled(job: Job, s: State, op: Op) {
    match op
    case Begin(_) => s.phase == Opening
    case Tunnel(_, _) => s.phase == Tunnelling
    case Route(_, _) => s.phase == Routing
    case Take(w) => w < |s.workers| && s.workers[w] == Idle && s.next < Total(job.lens) && s.next < |s.spots|
    case ProbeEnd(w, _) => w < |s.workers| && s.workers[w].Probing?
    case Send(w) =>
      w < |s.workers| && s.workers[w].Holding? && |s.buffer| < job.capacity && s.workers[w].task < |s.spots|
    case Drop(w) => w < |s.workers| && s.workers[w].Holding? && s.cancelled && s.workers[w].task < |s.spots|
    case Leave(w) => w < |s.workers| && s.workers[w] == Idle && s.tasksClosed
    case SkipNetwork => !Prelude(s.phase) && s.workers != [] && s.cancelled && s.next < Total(job.lens)
    case CloseTasks => !Prelude(s.phase) && s.workers != [] && s.next == Total(job.lens) && !s.tasksClosed
    case CloseResults => s.phase == Pooling && AllExited(s.workers) && !s.resultsClosed
    case Collect(_) => s.phase == Pooling && s.buffer != [] && s.buffer[0] < |s.spots|
    case Finish(_) => s.phase == Pooling && s.buffer == [] && s.resultsClosed
    case CleanUp => s.phase == Ended
    case Cancel => s.phase != Finished && !s.cancelled
    case HandlerCancels(_) => true
  }

  /** A worker's own steps. */
  function WorkerNext(job: Job, s: State, op: Op): State
    requires Enabled(job, s, op) && (op.Take? || op.ProbeEnd? || op.Send? || op.Drop? || op.Leave?)
  {
    var w := op.worker;
    match op
    case Take(_) => At(Put(s, w, Probing(s.next)), s.next, Held(w)).(next := s.next + 1)
    case ProbeEnd(_, finds) =>
      Put(s, w, Holding(s.workers[w].task)).(found := if finds then s.found + {s.workers[w].task} else s.found)
    case Send(_) => At(Put(s, w, Idle), s.workers[w].task, Buffered).(buffer := s.buffer + [s.workers[w].task])
    case Drop(_) => At(Put(s, w, Exited), s.workers[w].task, Dropped)
    case Leave(_) => Put(s, w, Exited)
  }

  function OtherNext(job: Job, s: State, op: Op): State
    requires Enabled(job, s, op) && !(op.Take? || op.ProbeEnd? || op.Send? || op.Drop? || op.Leave?)
  {
    match op
    case Begin(ok) => Begun(s, ok)
    case Tunnel(ok, written) => Tunnelled(s, ok, written)
    case Route(ok, written) => Routed(job, s, ok, written)
    case SkipNetwork => SkippedTo(s, EndOf(job.lens, s.next))
    case CloseTasks => s.(tasksClosed := true)
    case CloseResults => s.(resultsClosed := true)
    case Collect(written) => CollectedOne(job, s, written)
    case Finish(written) => FinishedOff(job, s, written)
    case CleanUp => s.(phase := Finished)
    case Cancel => s.(cancelled := true)
    case HandlerCancels(written) => if written then s.(row := SetState(s.row, Canceled, 0)) else s
  }

  function Next(job: Job, s: State, op: Op): State {
    if !Enabled(job, s, op) then s
    else if op.Take? || op.ProbeEnd? || op.Send? || op.Drop? || op.Leave? then WorkerNext(job, s, op)
    else OtherNext(job, s, op)
  }

  function Run(job: Job, s: State, ops: seq<Op>): State
    decreases |ops|
  {
    if ops == [] then s else Run(job, Next(job, s, ops[0]), ops[1..])
  }

  /***** Every probe is in exactly one place *****/

  predicate Has(tasks: seq<nat>, i: nat) {
    i in tasks
  }

  predicate SpotGood(s: State, i: nat) {
    i < |s.spots| ==>
      (s.spots[i] == Waiting <==> s.next <= i) &&
      (s.spots[i].Held? ==> s.spots[i].worker < |s.workers| && var w := s.workers[s.spots[i].worker];
                            (w.Probing? || w.Holding?) && w.task == i) &&
      (s.spots[i] == Buffered <==> Has(s.buffer, i)) &&
      (s.spots[i] == Collected <==> Has(s.collected, i)) &&
      (s.spots[i] == Skipped || s.spots[i] == Dropped ==> s.cancelled)
  }

  /** What a probe found is known once it is over, and saved when it is collected. */
  predicate SavedGood(s: State, i: nat) {
    i < |s.spots| ==>
      (Has(s.saved, i) <==> Has(s.collected, i) && i in s.found) &&
      (i in s.found ==> s.spots[i] != Waiting &&
                        !(s.spots[i].Held? && s.spots[i].worker < |s.workers| && s.workers[s.spots[i].worker].Probing?))
  }

  predicate WorkerGood(s: State, w: nat) {
    w < |s.workers| ==>
      (s.workers[w].Probing? || s.workers[w].Holding? ==>
         s.workers[w].task < |s.spots| && s.spots[s.workers[w].task] == Held(w)) &&
      (s.workers[w] == Exited ==> s.cancelled || s.tasksClosed)
  }

  predicate ListsGood(s: State) {
    NoRepeats(s.buffer) && NoRepeats(s.collected) && NoRepeats(s.saved) &&
    (forall i | 0 <= i < |s.buffer| :: s.buffer[i] < |s.spots|) &&
    (forall i | 0 <= i < |s.collected| :: s.collected[i] < |s.spots|) &&
    (forall i | 0 <= i < |s.saved| :: s.saved[i] < |s.spots|)
  }

  /** Before the pool exists. */
  predicate Prelude(phase: Phase) {
    phase == Opening || phase == Tunnelling || phase == Routing
  }

  predicate PhaseGood(job: Job, s: State) {
    |s.spots| == Total(job.lens) && s.next <= |s.spots| && |s.buffer| <= job.capacity &&
    (Prelude(s.phase) ==> s.workers == [] && s.next == 0 && s.buffer == [] && !s.tasksClosed && !s.resultsClosed) &&
    (s.phase == Pooling ==> |s.workers| == job.capacity) &&
    (s.tasksClosed ==> s.next == |s.spots|) &&
    (s.resultsClosed ==> AllExited(s.workers)) &&
    (s.fate == Pending <==> s.phase != Ended && s.phase != Finished) &&
    (s.fate == Wrote(Completed) ==> |s.collected| == |s.spots|)
  }

  ghost predicate Placed(job: Job, s: State) {
    PhaseGood(job, s) && ListsGood(s) && (forall i :: SpotGood(s, i)) && (forall i :: SavedGood(s, i)) &&
    forall w :: WorkerGood(s, w)
  }

  lemma StartIsPlaced(job: Job)
    ensures Placed(job, Start(job))
  {
  }

  lemma WorkerKeepsPlaced(job: Job, s: State, op: Op)
    requires Placed(job, s) && Enabled(job, s, op) && (op.Take? || op.ProbeEnd? || op.Send? || op.Drop? || op.Leave?)
    ensures Placed(job, WorkerNext(job, s, op))
  {
    hide Total;
    var s1 := WorkerNext(job, s, op);
    assert WorkerGood(s, op.worker);
    if s.workers[op.worker].Probing? || s.workers[op.worker].Holding? {
      assert SpotGood(s, s.workers[op.worker].task);
    }
    if op.Take? {
      assert SpotGood(s, s.next);
    }
    forall i ensures SpotGood(s1, i) {
      assert SpotGood(s, i);
    }
    forall i ensures SavedGood(s1, i) {
      assert SavedGood(s, i) && SpotGood(s, i);
    }
    forall w ensures WorkerGood(s1, w) {
      assert WorkerGood(s, w);
    }
  }

  lemma Rest(tasks: seq<nat>, i: nat)
    requires tasks != [] && NoRepeats(tasks)
    ensures NoRepeats(tasks[1..]) && (Has(tasks[1..], i) <==> Has(tasks, i) && i != tasks[0])
    ensures Has(tasks, tasks[0])
  {
    assert tasks == [tasks[0]] + tasks[1..];
  }

  lemma OneMore(tasks: seq<nat>, task: nat, i: nat)
    ensures Has(tasks + [task], i) <==> Has(tasks, i) || i == task
    ensures NoRepeats(tasks) && !Has(tasks, task) ==> NoRepeats(tasks + [task])
  {
  }

  /** What receiving one result changes about the places. */
  predicate Receives(s: State, s1: State) {
    s.buffer != [] && s.buffer[0] < |s.spots| &&
    s1.spots == s.spots[s.buffer[0] := Collected] && s1.buffer == s.buffer[1..] &&
    s1.collected == s.collected + [s.buffer[0]] &&
    s1.saved == (if s.buffer[0] in s.found then s.saved + [s.buffer[0]] else s.saved) &&
    s1.found == s.found && s1.next == s.next && s1.workers == s.workers && s1.cancelled == s.cancelled &&
    s1.tasksClosed == s.tasksClosed && s1.resultsClosed == s.resultsClosed && s1.phase == s.phase && s1.fate == s.fate
  }

  lemma CollectReceives(job: Job, s: State, written: bool)
    requires Enabled(job, s, Collect(written))
    ensures Receives(s, CollectedOne(job, s, written))
  {
    hide Total, Percent, SetState;
  }

  lemma CollectKeepsLists(job: Job, s: State, s1: State)
    requires Placed(job, s) && Receives(s, s1) && s.phase == Pooling
    ensures ListsGood(s1) && PhaseGood(job, s1)
  {
    hide Total, Percent, NoRepeats, SetState, WorkerGood, Has;
    assert SpotGood(s, s.buffer[0]) && SavedGood(s, s.buffer[0]);
    Rest(s.buffer, 0);
    OneMore(s.collected, s.buffer[0], 0);
    OneMore(s.saved, s.buffer[0], 0);
  }

  lemma CollectKeepsSpot(job: Job, s: State, s1: State, i: nat)
    requires ListsGood(s) && Receives(s, s1) && SpotGood(s, i) && SavedGood(s, i)
    requires SpotGood(s, s.buffer[0]) && SavedGood(s, s.buffer[0])
    ensures SpotGood(s1, i) && SavedGood(s1, i)
  {
    hide Total, Percent, NoRepeats, SetState, Has;
    Rest(s.buffer, i);
    OneMore(s.collected, s.buffer[0], i);
    OneMore(s.saved, s.buffer[0], i);
  }

  lemma CollectKeepsPlaced(job: Job, s: State, s1: State)
    requires Placed(job, s) && Receives(s, s1) && s.phase == Pooling
    ensures Placed(job, s1)
  {
    hide Total, Percent, NoRepeats, SetState, SavedGood, PhaseGood, Has;
    var task := s.buffer[0];
    CollectKeepsLists(job, s, s1);
    Rest(s.buffer, 0);
    assert SpotGood(s, task) && SavedGood(s, task);
    forall i: nat ensures SpotGood(s1, i) && SavedGood(s1, i) {
      assert SpotGood(s, i) && SavedGood(s, i);
      CollectKeepsSpot(job, s, s1, i);
    }
    forall w ensures WorkerGood(s1, w) {
      assert WorkerGood(s, w);
    }
  }

  /** At an undisturbed end nothing is waiting, held or buffered, so everything is collected. */
  lemma EverythingIsCollected(job: Job, s: State)
    requires Placed(job, s) && Enabled(job, s, Finish(true)) && !s.cancelled && job.capacity > 0
    ensures forall i :: 0 <= i < |s.spots| ==> i in s.collected
    ensures |s.collected| == |s.spots|
  {
    hide Total;
    assert WorkerGood(s, 0);
    forall i: nat | i < |s.spots| ensures i in s.collected {
      assert SpotGood(s, i);
    }
    AllOf(s.collected, |s.spots|);
  }

  predicate Under(tasks: seq<nat>, i: int, n: nat) {
    0 <= i < |tasks| ==> tasks[i] < n
  }

  /** Distinct numbers below `n` are at most `n` many, and exactly so if none is missing. */
  lemma {:induction false} AtMost(tasks: seq<nat>, n: nat)
    requires NoRepeats(tasks) && forall i :: Under(tasks, i, n)
    ensures |tasks| <= n
  {
    if n > 0 {
      var top: nat := n - 1;
      if top in tasks {
        var k :| 0 <= k < |tasks| && tasks[k] == top;
        var rest := tasks[..k] + tasks[k + 1..];
        forall i ensures Under(rest, i, top) {
          assert Under(tasks, if i < k then i else i + 1, n);
        }
        AtMost(rest, top);
      } else {
        forall i ensures Under(tasks, i, top) {
          assert Under(tasks, i, n);
        }
        AtMost(tasks, top);
      }
    } else {
      assert Under(tasks, 0, n);
    }
  }

  lemma {:induction false} AllOf(tasks: seq<nat>, n: nat)
    requires NoRepeats(tasks) && (forall i | 0 <= i < |tasks| :: tasks[i] < n) && forall i: nat | i < n :: i in tasks
    ensures |tasks| == n
  {
    if n > 0 {
      assert (n - 1) as nat in tasks;
      var k :| 0 <= k < |tasks| && tasks[k] == n - 1;
      var rest := tasks[..k] + tasks[k + 1..];
      forall i: nat | i < n - 1 ensures i in rest {
        assert i in tasks;
        var j :| 0 <= j < |tasks| && tasks[j] == i;
        assert rest[if j < k then j else j - 1] == i;
      }
      AllOf(rest, n - 1);
    }
  }

  /** No probe moves and no worker acts. */
  predicate SamePlaces(s: State, s1: State) {
    s1.spots == s.spots && s1.next == s.next && s1.workers == s.workers && s1.buffer == s.buffer &&
    s1.collected == s.collected && s1.found == s.found && s1.saved == s.saved &&
    (s.cancelled ==> s1.cancelled) && (s.tasksClosed ==> s1.tasksClosed)
  }

  lemma SamePlacesIsPlaced(job: Job, s: State, s1: State)
    requires Placed(job, s) && SamePlaces(s, s1) && PhaseGood(job, s1)
    ensures Placed(job, s1)
  {
    forall i: nat ensures SpotGood(s1, i) && SavedGood(s1, i) && WorkerGood(s1, i) {
      assert SpotGood(s, i) && SavedGood(s, i) && WorkerGood(s, i);
    }
  }

  lemma RouteKeepsPlaced(job: Job, s: State, written: bool)
    requires Placed(job, s) && s.phase == Routing
    ensures Placed(job, Routed(job, s, true, written))
  {
    hide Total;
    var s1 := Routed(job, s, true, written);
    forall i: nat ensures SpotGood(s1, i) && SavedGood(s1, i) && WorkerGood(s1, i) {
      assert SpotGood(s, i) && SavedGood(s, i);
    }
  }

  lemma SkipKeepsPlaced(job: Job, s: State, end: nat)
    requires Placed(job, s) && !Prelude(s.phase) && s.cancelled && s.next <= end <= Total(job.lens) && !s.tasksClosed
    ensures Placed(job, SkippedTo(s, end))
  {
    hide Total;
    var s1 := SkippedTo(s, end);
    forall i: nat ensures SpotGood(s1, i) && SavedGood(s1, i) && WorkerGood(s1, i) {
      assert SpotGood(s, i) && SavedGood(s, i) && WorkerGood(s, i);
      if i < |s.workers| && (s.workers[i].Probing? || s.workers[i].Holding?) {
        assert SpotGood(s, s.workers[i].task);
      }
    }
  }

  lemma OtherKeepsPlaced(job: Job, s: State, op: Op)
    requires Placed(job, s) && Enabled(job, s, op) && job.capacity > 0
    requires !(op.Take? || op.ProbeEnd? || op.Send? || op.Drop? || op.Leave? || op.Collect?)
    ensures Placed(job, OtherNext(job, s, op))
  {
    hide Total, Percent, EndOf, SetState, SpotGood, SavedGood, WorkerGood, ListsGood;
    if op.Route? && op.ok {
      RouteKeepsPlaced(job, s, op.written);
    } else if op.SkipNetwork? {
      SkipKeepsPlaced(job, s, EndOf(job.lens, s.next));
    } else {
      if op.Finish? && !s.cancelled {
        EverythingIsCollected(job, s);
      }
      SamePlacesIsPlaced(job, s, OtherNext(job, s, op));
    }
  }

  lemma StepKeepsPlaced(job: Job, s: State, op: Op)
    requires Placed(job, s) && job.capacity > 0
    ensures Placed(job, Next(job, s, op))
  {
    hide Placed, WorkerNext;
    if Enabled(job, s, op) {
      if op.Take? || op.ProbeEnd? || op.Send? || op.Drop? || op.Leave? {
        WorkerKeepsPlaced(job, s, op);
      } else if op.Collect? {
        CollectReceives(job, s, op.written);
        CollectKeepsPlaced(job, s, CollectedOne(job, s, op.written));
      } else {
        OtherKeepsPlaced(job, s, op);
      }
    }
  }

  lemma {:induction false} RunKeepsPlaced(job: Job, s: State, ops: seq<Op>)
    requires Placed(job, s) && job.capacity > 0
    ensures Placed(job, Run(job, s, ops))
    decreases |ops|
  {
    hide Placed, Next;
    if ops != [] {
      StepKeepsPlaced(job, s, ops[0]);
      RunKeepsPlaced(job, Next(job, s, ops[0]), ops[1..]);
    }
  }

  /**
   In every schedule: no result is received twice, whatever is received was handed out, a result is
   saved exactly when its probe found something - and a run that ends as completed has received the
   result of every single probe, `total` of them.
   */
  lemma EveryProbeOnce(job: Job, ops: seq<Op>)
    requires job.capacity > 0
    ensures var s := Run(job, Start(job), ops);
      NoRepeats(s.collected) && |s.collected| <= Total(job.lens) && NoRepeats(s.saved)
    ensures var s := Run(job, Start(job), ops);
      forall i :: i in s.saved <==> i in s.collected && i in s.found
    ensures var s := Run(job, Start(job), ops);
      s.fate == Wrote(Completed) ==>
        |s.collected| == Total(job.lens) && forall i: nat | i < Total(job.lens) :: i in s.collected
  {
    hide Next, Total, Run;
    StartIsPlaced(job);
    RunKeepsPlaced(job, Start(job), ops);
    var s := Run(job, Start(job), ops);
    AtMost(s.collected, |s.spots|);
    forall i ensures i in s.saved <==> i in s.collected && i in s.found {
      if 0 <= i < |s.spots| {
        assert SavedGood(s, i);
      }
    }
    if s.fate == Wrote(Completed) {
      forall i: nat | i < |s.spots| ensures i in s.collected {
        if i !in s.collected {
          AtMost(s.collected + [i], |s.spots|);
        }
      }
    }
  }

  /***** What the run writes *****/

  /** Progress never decreases and stays in 0..100, and nothing is written after a terminal state. */
  predicate WritesInOrder(writes: seq<StateWrite>) {
    (forall i | 0 <= i < |writes| :: 0 <= writes[i].progress <= 100) &&
    (forall i, j | 0 <= i < j < |writes| :: writes[i].progress <= writes[j].progress && !Terminal(writes[i].status))
  }

  function LastWrite(s: State): StateWrite
    requires s.writes != []
  {
    s.writes[|s.writes| - 1]
  }

  predicate WritesGood(job: Job, s: State) {
    WritesInOrder(s.writes) &&
    (s.writes == [] <==> s.phase == Opening) &&
    (s.writes != [] && s.fate == Pending ==>
       LastWrite(s).status == Running && LastWrite(s).progress <= Percent(|s.collected|, Total(job.lens))) &&
    (s.writes != [] && s.fate == NotBegun ==> s.writes == [StateWrite(Running, 0)]) &&
    (s.fate.Wrote? ==> s.writes != [] && Terminal(s.fate.status) && LastWrite(s).status == s.fate.status) &&
    (Prelude(s.phase) ==> s.collected == [] && forall i | 0 <= i < |s.writes| :: s.writes[i].progress == 0) &&
    s.lastProgress <= Percent(|s.collected|, Total(job.lens))
  }

  lemma PercentGrows(a: nat, b: nat, total: nat)
    requires a <= b <= total
    ensures 0 <= Percent(a, total) <= Percent(b, total) <= 100
  {
    if total > 0 {
      DivGrows(a * 100, b * 100, total);
      DivGrows(b * 100, total * 100, total);
      assert 100 * total / total == 100 by { DivBack(100, total); }
    }
  }

  lemma OneMoreWrite(writes: seq<StateWrite>, w: StateWrite)
    requires WritesInOrder(writes) && 0 <= w.progress <= 100
    requires writes != [] ==> var last := writes[|writes| - 1]; !Terminal(last.status) && last.progress <= w.progress
    ensures WritesInOrder(writes + [w])
  {
    var n := |writes|;
    forall i | 0 <= i < n ensures writes[i].progress <= w.progress && !Terminal(writes[i].status) {
      if i < n - 1 {
        assert writes[i].progress <= writes[n - 1].progress;
      }
    }
  }

  lemma CollectKeepsWrites(job: Job, s: State, written: bool)
    requires Placed(job, s) && WritesGood(job, s) && Enabled(job, s, Collect(written))
    ensures WritesGood(job, CollectedOne(job, s, written))
  {
    hide Total, Percent, SpotGood, SavedGood, WorkerGood, NoRepeats, SetState, WritesInOrder, Placed, CollectedOne;
    var s1 := CollectedOne(job, s, written);
    CollectReceives(job, s, written);
    CollectKeepsLists(job, s, s1);
    AtMost(s1.collected, |s.spots|);
    var progress := Percent(|s1.collected|, Total(job.lens));
    assert |s.spots| == Total(job.lens) by { PlacedBounds(job, s); }
    PercentGrows(|s.collected|, |s1.collected|, Total(job.lens));
    OneMoreWrite(s.writes, StateWrite(Running, progress));
    CollectWrites(job, s, written);
  }

  lemma CollectWrites(job: Job, s: State, written: bool)
    requires Enabled(job, s, Collect(written))
    ensures var s1 := CollectedOne(job, s, written);
      s1.lastProgress == Percent(|s1.collected|, Total(job.lens)) &&
      s1.writes == if s1.lastProgress != s.lastProgress
                  then s.writes + [StateWrite(Running, s1.lastProgress)] else s.writes
  {
    hide Total, Percent, SetState;
  }

  lemma PreludeKeepsWrites(job: Job, s: State, op: Op)
    requires WritesGood(job, s) && PhaseGood(job, s) && Enabled(job, s, op) && (op.Begin? || op.Tunnel? || op.Route?)
    ensures WritesGood(job, OtherNext(job, s, op))
  {
    hide Total, Percent, SetState, WritesInOrder, FailedAt;
    if op.Begin? {
      OneMoreWrite(s.writes, StateWrite(Running, 0));
      PercentGrows(0, 0, Total(job.lens));
    } else {
      FailureKeepsWrites(job, s, op.written);
      FailureKeepsWrites(job, s.(tunnels := s.tunnels + 1), op.written);
    }
  }

  lemma FailureKeepsWrites(job: Job, s: State, written: bool)
    requires WritesGood(job, s) && (s.phase == Tunnelling || s.phase == Routing) && s.fate == Pending
    ensures WritesGood(job, FailedAt(s, written))
  {
    hide Total, Percent, SetState, WritesInOrder;
    OneMoreWrite(s.writes, StateWrite(Failed, 0));
  }

  lemma FinishKeepsWrites(job: Job, s: State, written: bool)
    requires Placed(job, s) && WritesGood(job, s) && s.phase == Pooling
    ensures WritesGood(job, FinishedOff(job, s, written))
  {
    hide Total, Percent, SetState, WritesInOrder, SpotGood, SavedGood, WorkerGood;
    AtMost(s.collected, |s.spots|);
    PercentGrows(|s.collected|, |s.collected|, Total(job.lens));
    OneMoreWrite(s.writes, if s.cancelled then StateWrite(Canceled, Percent(|s.collected|, Total(job.lens)))
                           else StateWrite(Completed, 100));
  }

  lemma OtherKeepsWrites(job: Job, s: State, op: Op)
    requires Placed(job, s) && WritesGood(job, s) && Enabled(job, s, op)
    requires !(op.Take? || op.ProbeEnd? || op.Send? || op.Drop? || op.Leave? || op.Collect?)
    ensures WritesGood(job, OtherNext(job, s, op))
  {
    hide Total, Percent, EndOf, SpotGood, SavedGood, WorkerGood, SetState, ListsGood, WritesInOrder, FinishedOff;
    if op.Begin? || op.Tunnel? || op.Route? {
      PreludeKeepsWrites(job, s, op);
    } else if op.Finish? {
      FinishKeepsWrites(job, s, op.written);
    }
  }

  lemma WorkerKeepsWrites(job: Job, s: State, op: Op)
    requires WritesGood(job, s) && Enabled(job, s, op)
    requires PhaseGood(job, s) && (op.Take? || op.ProbeEnd? || op.Send? || op.Drop? || op.Leave?)
    ensures WritesGood(job, WorkerNext(job, s, op))
  {
    hide Total, Percent, WritesInOrder;
  }

  lemma StepKeepsWrites(job: Job, s: State, op: Op)
    requires Placed(job, s) && WritesGood(job, s)
    ensures WritesGood(job, Next(job, s, op))
  {
    hide WritesGood, WorkerNext, OtherNext;
    if Enabled(job, s, op) {
      if op.Take? || op.ProbeEnd? || op.Send? || op.Drop? || op.Leave? {
        WorkerKeepsWrites(job, s, op);
      } else if op.Collect? {
        CollectKeepsWrites(job, s, op.written);
        assert OtherNext(job, s, op) == CollectedOne(job, s, op.written) by { OtherIsCollect(job, s, op); }
      } else {
        OtherKeepsWrites(job, s, op);
      }
    }
  }

  lemma OtherIsCollect(job: Job, s: State, op: Op)
    requires Enabled(job, s, op) && op.Collect?
    ensures OtherNext(job, s, op) == CollectedOne(job, s, op.written)
  {
  }

  lemma {:induction false} RunKeepsWrites(job: Job, s: State, ops: seq<Op>)
    requires Placed(job, s) && WritesGood(job, s) && job.capacity > 0
    ensures WritesGood(job, Run(job, s, ops))
    decreases |ops|
  {
    hide Placed, Next, WritesGood;
    if ops != [] {
      StepKeepsPlaced(job, s, ops[0]);
      StepKeepsWrites(job, s, ops[0]);
      RunKeepsWrites(job, Next(job, s, ops[0]), ops[1..]);
    }
  }

  /**
   Reported progress never decreases, stays in 0..100, and a terminal state is written once, as the
   last thing - by every run except one whose very first write failed, which writes no other.
   */
  lemma OneTerminalWrite(job: Job, ops: seq<Op>)
    requires job.capacity > 0
    ensures var s := Run(job, Start(job), ops); WritesInOrder(s.writes)
    ensures var s := Run(job, Start(job), ops);
      s.phase in {Ended, Finished} ==>
        s.writes != [] && if s.fate == NotBegun then s.writes == [StateWrite(Running, 0)]
                          else s.fate.Wrote? && Terminal(LastWrite(s).status)
  {
    hide Next, Total, Run;
    StartIsPlaced(job);
    StartWrites(job);
    RunKeepsWrites(job, Start(job), ops);
    RunKeepsPlaced(job, Start(job), ops);
  }

  lemma StartWrites(job: Job)
    ensures WritesGood(job, Start(job))
  {
  }

  /** In the database a terminal state is never replaced, by the run or by a cancelling handler. */
  lemma {:induction false} TerminalStays(job: Job, s: State, ops: seq<Op>)
    requires Terminal(s.row.status)
    ensures Run(job, s, ops).row == s.row
    decreases |ops|
  {
    hide Next;
    if ops != [] {
      StepKeepsTerminal(job, s, ops[0]);
      TerminalStays(job, Next(job, s, ops[0]), ops[1..]);
    }
  }

  lemma StepKeepsTerminal(job: Job, s: State, op: Op)
    requires Terminal(s.row.status)
    ensures Next(job, s, op).row == s.row
  {
    hide EndOf, Total, Percent, AllExited, WorkerNext;
    if Enabled(job, s, op) && (op.Take? || op.ProbeEnd? || op.Send? || op.Drop? || op.Leave?) {
      WorkerKeepsRow(job, s, op);
    }
  }

  lemma WorkerKeepsRow(job: Job, s: State, op: Op)
    requires Enabled(job, s, op) && (op.Take? || op.ProbeEnd? || op.Send? || op.Drop? || op.Leave?)
    ensures WorkerNext(job, s, op).row == s.row
  {
    hide Total;
  }

  /**
   Whenever the write of a cancelling handler succeeds - before the run begins, in the middle of it or after
   it - the job ends in a terminal state.  Once the run is over that is also the only way: it is terminal
   exactly if it was or such a write succeeds.
   */
  lemma {:induction false} CancelEndsTerminal(job: Job, s: State, ops: seq<Op>)
    ensures HandlerCancels(true) in ops ==> Terminal(Run(job, s, ops).row.status)
    ensures s.phase == Finished ==>
              (Terminal(Run(job, s, ops).row.status) <==> Terminal(s.row.status) || HandlerCancels(true) in ops)
    decreases |ops|
  {
    hide Next;
    if ops != [] {
      var s1 := Next(job, s, ops[0]);
      assert ops == [ops[0]] + ops[1..];
      HandlerWrites(job, s, ops[0]);
      CancelEndsTerminal(job, s1, ops[1..]);
      if Terminal(s1.row.status) {
        TerminalStays(job, s1, ops[1..]);
      }
    }
  }

  lemma HandlerWrites(job: Job, s: State, op: Op)
    ensures op == HandlerCancels(true) ==> Terminal(Next(job, s, op).row.status)
    ensures s.phase == Finished ==> Next(job, s, op).phase == Finished
    ensures s.phase == Finished && op != HandlerCancels(true) ==> Next(job, s, op).row == s.row
  {
    hide EndOf, Total, Percent, AllExited;
  }

  /** The run has not begun and will not, or has ended that way. */
  predicate NeverBegins(s: State) {
    s.workers == [] && ((s.phase == Opening && Terminal(s.row.status)) || s.phase in {Ended, Finished})
  }

  lemma StepNeverBegins(job: Job, s: State, op: Op)
    requires NeverBegins(s)
    ensures NeverBegins(Next(job, s, op)) && Next(job, s, op).tunnels == s.tunnels && Next(job, s, op).found == s.found
    ensures Next(job, s, op).saved == s.saved && Next(job, s, op).collected == s.collected
  {
    hide EndOf, Total, Percent;
  }

  /** A handler whose write comes before the run begins prevents it: no tunnel, no probe, no result. */
  lemma {:induction false} EarlyCancelPreventsTheRun(job: Job, s: State, ops: seq<Op>)
    requires NeverBegins(s)
    ensures var s1 := Run(job, s, ops);
      s1.tunnels == s.tunnels && s1.found == s.found && s1.saved == s.saved && s1.collected == s.collected
    decreases |ops|
  {
    hide Next, NeverBegins;
    if ops != [] {
      StepNeverBegins(job, s, ops[0]);
      EarlyCancelPreventsTheRun(job, Next(job, s, ops[0]), ops[1..]);
    }
  }

  /***** Cancel waits for quiescence *****/

  /** The run's effects on the outside: results and states written, tunnels started, probes made. */
  predicate SameEffects(a: State, b: State) {
    b.saved == a.saved && b.writes == a.writes && b.tunnels == a.tunnels && b.found == a.found &&
      b.collected == a.collected
  }

  predicate Quiet(s: State) {
    s.phase == Finished && AllExited(s.workers)
  }

  lemma StepStaysQuiet(job: Job, s: State, op: Op)
    requires Quiet(s)
    ensures Quiet(Next(job, s, op)) && SameEffects(s, Next(job, s, op))
  {
    hide EndOf, Total;
  }

  lemma {:induction false} RunStaysQuiet(job: Job, s: State, ops: seq<Op>)
    requires Quiet(s)
    ensures Quiet(Run(job, s, ops)) && SameEffects(s, Run(job, s, ops))
    decreases |ops|
  {
    hide Next;
    if ops != [] {
      StepStaysQuiet(job, s, ops[0]);
      RunStaysQuiet(job, Next(job, s, ops[0]), ops[1..]);
    }
  }

  predicate DoneMeansExited(s: State) {
    (s.phase in {Ended, Finished} ==> AllExited(s.workers)) && (s.resultsClosed ==> AllExited(s.workers)) &&
    (Prelude(s.phase) ==> s.workers == [] && !s.resultsClosed)
  }

  lemma StepKeepsDone(job: Job, s: State, op: Op)
    requires DoneMeansExited(s)
    ensures DoneMeansExited(Next(job, s, op))
  {
    hide EndOf, Total, Percent;
  }

  lemma {:induction false} RunKeepsDone(job: Job, s: State, ops: seq<Op>)
    requires DoneMeansExited(s)
    ensures DoneMeansExited(Run(job, s, ops))
    decreases |ops|
  {
    hide Next, DoneMeansExited;
    if ops != [] {
      StepKeepsDone(job, s, ops[0]);
      RunKeepsDone(job, Next(job, s, ops[0]), ops[1..]);
    }
  }

  /** `Cancel` returns when the run has finished; from then on the run does nothing to the outside. */
  lemma NothingAfterCancelReturns(job: Job, before: seq<Op>, after: seq<Op>)
    requires Run(job, Start(job), before).phase == Finished
    ensures var s := Run(job, Start(job), before); SameEffects(s, Run(job, s, after))
  {
    hide Next, Run;
    RunKeepsDone(job, Start(job), before);
    RunStaysQuiet(job, Run(job, Start(job), before), after);
  }

  /***** Every schedule comes to an end, and none gets stuck *****/

  function Weight(worker: Worker): nat {
    match worker
    case Exited => 0
    case Idle => 1
    case Holding(_) => 3
    case Probing(_) => 4
  }

  function Weights(workers: seq<Worker>): nat {
    if workers == [] then 0 else Weight(workers[0]) + Weights(workers[1..])
  }

  lemma {:induction false} WeightsUpdate(workers: seq<Worker>, w: nat, worker: Worker)
    requires w < |workers|
    ensures Weights(workers[w := worker]) + Weight(workers[w]) == Weights(workers) + Weight(worker)
  {
    if w == 0 {
      assert workers[0 := worker][1..] == workers[1..];
    } else {
      WeightsUpdate(workers[1..], w - 1, worker);
      assert workers[w := worker][1..] == workers[1..][w - 1 := worker];
    }
  }

  lemma {:induction false} WeightsOfIdle(n: nat)
    ensures Weights(seq(n, i => Idle)) == n
  {
    if n > 0 {
      WeightsOfIdle(n - 1);
      assert seq(n, i => Idle)[1..] == seq(n - 1, i => Idle);
    }
  }

  function Bit(b: bool): nat {
    if b then 0 else 1
  }

  function PhaseWeight(job: Job, phase: Phase): nat {
    match phase
    case Opening => 4 + job.capacity
    case Tunnelling => 3 + job.capacity
    case Routing => 2 + job.capacity
    case Pooling => 2
    case Ended => 1
    case Finished => 0
  }

  /** How much is left to do. */
  function Measure(job: Job, s: State): nat
    requires s.next <= Total(job.lens)
  {
    PhaseWeight(job, s.phase) + (if s.phase == Routing || s.phase == Tunnelling || s.phase == Opening then 1 else 0) +
    4 * (Total(job.lens) - s.next) + Weights(s.workers) + |s.buffer| +
    Bit(s.tasksClosed) + Bit(s.resultsClosed) + Bit(s.cancelled)
  }

  lemma WorkerDecreases(job: Job, s: State, op: Op)
    requires PhaseGood(job, s) && Enabled(job, s, op) && (op.Take? || op.ProbeEnd? || op.Send? || op.Drop? || op.Leave?)
    ensures WorkerNext(job, s, op).next <= Total(job.lens)
    ensures Measure(job, WorkerNext(job, s, op)) < Measure(job, s)
  {
    hide Total, Weights;
    if op.Take? {
      WeightsUpdate(s.workers, op.worker, Probing(s.next));
    } else if op.ProbeEnd? {
      WeightsUpdate(s.workers, op.worker, Holding(s.workers[op.worker].task));
    } else if op.Send? {
      WeightsUpdate(s.workers, op.worker, Idle);
    } else {
      WeightsUpdate(s.workers, op.worker, Exited);
    }
  }

  lemma OtherDecreases(job: Job, s: State, op: Op)
    requires PhaseGood(job, s) && Enabled(job, s, op) && !op.HandlerCancels?
    requires !(op.Take? || op.ProbeEnd? || op.Send? || op.Drop? || op.Leave?)
    ensures OtherNext(job, s, op).next <= Total(job.lens)
    ensures Measure(job, OtherNext(job, s, op)) < Measure(job, s)
  {
    hide Total, Percent, EndOf, Weights, SetState;
    if op.Route? {
      WeightsOfIdle(job.capacity);
      NoWeights();
    }
  }

  /** Whatever happens brings the end closer; the handler's write after it is not part of the run. */
  lemma StepDecreases(job: Job, s: State, op: Op)
    requires Placed(job, s) && Enabled(job, s, op) && !op.HandlerCancels?
    ensures Next(job, s, op).next <= Total(job.lens)
    ensures Measure(job, Next(job, s, op)) < Measure(job, s)
  {
    hide Measure, WorkerNext, OtherNext;
    if op.Take? || op.ProbeEnd? || op.Send? || op.Drop? || op.Leave? {
      WorkerDecreases(job, s, op);
    } else {
      OtherDecreases(job, s, op);
    }
  }

  lemma NoWeights()
    ensures Weights([]) == 0
  {
  }

  /** Does the schedule only name steps that can be taken? */
  predicate Effective(job: Job, s: State, ops: seq<Op>)
    decreases |ops|
  {
    ops != [] ==> Enabled(job, s, ops[0]) && !ops[0].HandlerCancels? && Effective(job, Next(job, s, ops[0]), ops[1..])
  }

  /** No schedule, with or without cancellation, goes on for ever: this many steps are the most. */
  lemma {:induction false} SchedulesAreFinite(job: Job, s: State, ops: seq<Op>)
    requires Placed(job, s) && job.capacity > 0 && Effective(job, s, ops)
    ensures |ops| <= Measure(job, s)
    decreases |ops|
  {
    hide Placed, Next, Measure;
    PlacedBounds(job, s);
    if ops != [] {
      StepDecreases(job, s, ops[0]);
      StepKeepsPlaced(job, s, ops[0]);
      SchedulesAreFinite(job, Next(job, s, ops[0]), ops[1..]);
    }
  }

  lemma PlacedBounds(job: Job, s: State)
    requires Placed(job, s)
    ensures s.next <= Total(job.lens) == |s.spots|
  {
  }

  /** The first worker that has not exited, if there is one. */
  function Busy(workers: seq<Worker>): (w: nat)
    ensures w <= |workers| && (w < |workers| ==> workers[w] != Exited)
    ensures w == |workers| ==> AllExited(workers)
  {
    if workers == [] then 0
    else if workers[0] != Exited then 0
    else
      assert forall i | 1 <= i < |workers| :: workers[i] == workers[1..][i - 1];
      1 + Busy(workers[1..])
  }

  /** A step that can be taken now. */
  function Helpful(job: Job, s: State): Op {
    match s.phase
    case Opening => Begin(true)
    case Tunnelling => Tunnel(true, true)
    case Routing => Route(true, true)
    case Pooling =>
      if s.buffer != [] then Collect(true)
      else
        var w := Busy(s.workers);
        if w == |s.workers| then (if s.resultsClosed then Finish(true) else CloseResults)
        else
          if s.workers[w].Probing? then ProbeEnd(w, false)
          else if s.workers[w].Holding? then Send(w)
          else if s.next < Total(job.lens) then Take(w)
          else if s.tasksClosed then Leave(w) else CloseTasks
    case Ended => CleanUp
    case Finished => HandlerCancels(true)
  }

  lemma NeverStuck(job: Job, s: State)
    requires Placed(job, s) && job.capacity > 0 && s.phase != Finished
    ensures Enabled(job, s, Helpful(job, s)) && Helpful(job, s) != Cancel
  {
    hide Total;
    var w := Busy(s.workers);
    assert WorkerGood(s, w);
  }

  /** The step is one of a worker's own. */
  predicate OfWorker(op: Op) {
    op.Take? || op.ProbeEnd? || op.Send? || op.Drop? || op.Leave?
  }

  lemma WorkerDecidesNothing(job: Job, s: State, op: Op)
    requires Enabled(job, s, op) && OfWorker(op)
    ensures var s1 := WorkerNext(job, s, op);
      s1.phase == s.phase && s1.cancelled == s.cancelled && s1.row == s.row && s1.fate == s.fate &&
      s1.writes == s.writes && s1.collected == s.collected && s1.lastProgress == s.lastProgress
  {
    hide Total;
  }

  /** Nobody has cancelled the run, and its fate is open: its first write, if still to come, will succeed. */
  predicate GoesOn(s: State) {
    s.fate == Pending && !s.cancelled && (s.phase == Opening ==> !Terminal(s.row.status))
  }

  lemma OtherGoesOn(job: Job, s: State, op: Op)
    requires GoesOn(s) && Enabled(job, s, op) && !OfWorker(op) && s.phase != Ended && s.phase != Finished
    requires op in {Begin(true), Tunnel(true, true), Route(true, true), Collect(true), CloseTasks, CloseResults,
                    Finish(true)}
    ensures var s1 := OtherNext(job, s, op);
      (GoesOn(s1) && s1.phase != Ended && s1.phase != Finished) || (s1.fate == Wrote(Completed) && s1.phase == Ended)
  {
    hide Total, EndOf, Percent, AllExited, SetState;
  }

  lemma HelpfulGoesOn(job: Job, s: State)
    requires Enabled(job, s, Helpful(job, s))
    requires s.phase == Ended || (GoesOn(s) && s.phase != Finished)
    ensures var s1 := Next(job, s, Helpful(job, s));
      if s.phase == Ended then s1.fate == s.fate && s1.phase == Finished
      else (GoesOn(s1) && s1.phase != Ended && s1.phase != Finished) ||
           (s1.fate == Wrote(Completed) && s1.phase == Ended)
  {
    hide Total, WorkerNext, AllExited, Enabled;
    var op := Helpful(job, s);
    if OfWorker(op) {
      WorkerDecidesNothing(job, s, op);
    } else if s.phase != Ended {
      hide OtherNext;
      OtherGoesOn(job, s, op);
    }
  }

  lemma PlacedFate(job: Job, s: State)
    requires Placed(job, s)
    ensures s.fate == Pending <==> s.phase != Ended && s.phase != Finished
  {
  }

  /**
   From any reachable state the run can be brought to its end, without cancelling it.  If nobody has cancelled
   it before, it completes.
   */
  lemma {:induction false} CanFinish(job: Job, s: State) returns (ops: seq<Op>)
    requires Placed(job, s) && job.capacity > 0
    ensures Run(job, s, ops).phase == Finished && Cancel !in ops
    ensures GoesOn(s) ==> Run(job, s, ops).fate == Wrote(Completed)
    ensures s.fate != Pending ==> Run(job, s, ops).fate == s.fate
    decreases if s.next <= Total(job.lens) then Measure(job, s) else 0
  {
    hide Next, Measure, Enabled, GoesOn;
    PlacedBounds(job, s);
    PlacedFate(job, s);
    if s.phase == Finished {
      ops := [];
      assert !GoesOn(s) by { FateIsOpen(s); }
    } else {
      NeverStuck(job, s);
      var op := Helpful(job, s);
      FateIsOpen(s);
      if s.phase == Ended || GoesOn(s) {
        HelpfulGoesOn(job, s);
      }
      StepKeepsPlaced(job, s, op);
      StepDecreases(job, s, op);
      var rest := CanFinish(job, Next(job, s, op));
      PlacedFate(job, Next(job, s, op));
      ops := [op] + rest;
      assert ops[1..] == rest;
    }
  }

  lemma FateIsOpen(s: State)
    ensures GoesOn(s) ==> s.fate == Pending
  {
  }
}
