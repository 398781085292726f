/**
 How a discovery run ends, told from its steps: which of them decides its fate, what its row shows then, what
 is reported on the way, and that a run left alone completes.
 */
module DiscoveryEnds {
  import opened ListFacts
  import opened Arithmetic
  import opened DiscoveryPool

  function After(job: Job, ops: seq<Op>): State {
    Run(job, Start(job), ops)
  }

  /** Step `i` of the schedule was possible when its turn came. */
  predicate Taken(job: Job, ops: seq<Op>, i: nat) {
    i < |ops| && Enabled(job, After(job, ops[..i]), ops[i])
  }

  /** What the step decides about the end of the run, after the steps before it; mostly nothing. */
  function Decides(before: seq<Op>, op: Op): Fate {
    match op
    case Begin(ok) =>
      if ok && Cancel !in before && HandlerCancels(true) !in before then Pending else NotBegun
    case Tunnel(ok, _) => if ok then Pending else Wrote(Failed)
    case Route(ok, _) => if ok then Pending else Wrote(Failed)
    case Finish(_) => if Cancel in before then Wrote(Canceled) else Wrote(Completed)
    case _ => Pending
  }

  /** The step that has decided the run's fate was the `i`th. */
  predicate DecidedAt(job: Job, ops: seq<Op>, i: nat, fate: Fate) {
    Taken(job, ops, i) && Decides(ops[..i], ops[i]) == fate
  }

  lemma {:induction false} RunSnoc(job: Job, s: State, ops: seq<Op>, op: Op)
    ensures Run(job, s, ops + [op]) == Next(job, Run(job, s, ops), op)
    decreases |ops|
  {
    hide Next;
    if ops == [] {
      assert (ops + [op])[1..] == [];
      assert Run(job, s, ops + [op]) == Run(job, Next(job, s, op), []);
    } else {
      assert (ops + [op])[1..] == ops[1..] + [op];
      RunSnoc(job, Next(job, s, ops[0]), ops[1..], op);
    }
  }

  /** One step more: it is last, and what is said of the steps before stays as it was. */
  lemma Snoc(job: Job, ops: seq<Op>) returns (before: seq<Op>, op: Op)
    requires ops != []
    ensures ops == before + [op] && |before| < |ops|
    ensures After(job, ops) == Next(job, After(job, before), op)
    ensures Taken(job, ops, |before|) <==> Enabled(job, After(job, before), op)
    ensures ops[..|before|] == before
    ensures forall i: nat | i < |before| :: ops[..i] == before[..i] && (Taken(job, ops, i) <==> Taken(job, before, i))
  {
    hide Next, Enabled;
    before, op := ops[..|ops| - 1], ops[|ops| - 1];
    RunSnoc(job, Start(job), before, op);
    assert ops == before + [op];
    forall i: nat | i < |before| ensures ops[..i] == before[..i] && (Taken(job, ops, i) <==> Taken(job, before, i)) {
      assert ops[..i] == before[..i];
    }
  }

  /** What the steps so far say about the state that the fate depends on. */
  predicate Told(s: State, ops: seq<Op>) {
    (s.phase != Finished ==> (s.cancelled <==> Cancel in ops)) &&
    (s.phase == Opening ==> (Terminal(s.row.status) <==> HandlerCancels(true) in ops)) &&
    (HandlerCancels(true) !in ops && s.fate == Pending ==> !Terminal(s.row.status)) &&
    (s.phase in {Opening, Tunnelling, Routing, Pooling} <==> s.fate == Pending)
  }

  lemma OtherIsTold(job: Job, s: State, ops: seq<Op>, op: Op)
    requires Told(s, ops) && Enabled(job, s, op) && !OfWorker(op)
    requires Cancel in ops + [op] <==> Cancel in ops || op == Cancel
    requires HandlerCancels(true) in ops + [op] <==> HandlerCancels(true) in ops || op == HandlerCancels(true)
    ensures Told(OtherNext(job, s, op), ops + [op])
  {
    hide Total, EndOf, Percent, AllExited;
  }

  lemma StepIsTold(job: Job, s: State, ops: seq<Op>, op: Op)
    requires Told(s, ops)
    ensures Told(Next(job, s, op), ops + [op])
  {
    hide WorkerNext, OtherNext, Clamp, Terminal;
    assert Cancel in ops + [op] <==> Cancel in ops || op == Cancel;
    assert HandlerCancels(true) in ops + [op] <==> HandlerCancels(true) in ops || op == HandlerCancels(true);
    if Enabled(job, s, op) {
      if OfWorker(op) {
        WorkerDecidesNothing(job, s, op);
      } else {
        OtherIsTold(job, s, ops, op);
      }
    } else {
      assert op != HandlerCancels(true);
    }
  }

  lemma {:induction false} RunIsTold(job: Job, ops: seq<Op>)
    ensures Told(After(job, ops), ops)
    decreases |ops|
  {
    hide Next, Taken, Run;
    if ops != [] {
      var before, op := Snoc(job, ops);
      RunIsTold(job, before);
      hide Told;
      StepIsTold(job, After(job, before), before, op);
    } else {
      NothingDone(job);
    }
  }

  lemma NothingDone(job: Job)
    ensures After(job, []) == Start(job) && Told(Start(job), [])
  {
  }

  lemma StepDecides(job: Job, s: State, ops: seq<Op>, op: Op)
    requires Told(s, ops)
    ensures Next(job, s, op).fate ==
            if Enabled(job, s, op) && Decides(ops, op) != Pending then Decides(ops, op) else s.fate
    ensures Enabled(job, s, op) && Decides(ops, op) != Pending ==> s.fate == Pending
  {
    hide Total, EndOf, Percent, AllExited;
  }

  /**
   The end of a run is decided by one of its steps.  It completes if and only if it finishes without having been
   cancelled before; it is canceled if and only if it was; it has failed if and only if the tunnel or its route
   did; and it does not begin if and only if its first write fails, or a cancellation came before it.
   */
  lemma {:induction false} EndsExactlyAsDecided(job: Job, ops: seq<Op>, fate: Fate)
    requires fate != Pending
    ensures After(job, ops).fate == fate <==> exists i: nat :: DecidedAt(job, ops, i, fate)
    decreases |ops|
  {
    hide Next, Enabled, Told, Decides, Run;
    if ops == [] {
      NothingDone(job);
    } else {
      var before, op := Snoc(job, ops);
      RunIsTold(job, before);
      StepDecides(job, After(job, before), before, op);
      EndsExactlyAsDecided(job, before, fate);
      if i: nat :| DecidedAt(job, before, i, fate) {
        assert DecidedAt(job, ops, i, fate);
      }
      if Enabled(job, After(job, before), op) && Decides(before, op) == fate {
        assert DecidedAt(job, ops, |before|, fate);
      }
      if i: nat :| DecidedAt(job, ops, i, fate) {
        if i < |before| {
          assert DecidedAt(job, before, i, fate);
        }
      }
    }
  }

  /***** What is written *****/

  predicate SaidLast(job: Job, s: State) {
    (s.phase in {Ended, Finished} <==> s.fate != Pending) &&
    match s.fate
    case Pending => true
    case NotBegun => true
    case Wrote(status) =>
      status in {Completed, Failed, Canceled} && s.writes != [] &&
      LastWrite(s) == StateWrite(status, if status == Completed then 100 else if status == Failed then 0
                                         else Percent(|s.collected|, Total(job.lens)))
  }

  lemma OtherSaysLast(job: Job, s: State, op: Op)
    requires SaidLast(job, s) && Enabled(job, s, op) && !OfWorker(op)
    ensures SaidLast(job, OtherNext(job, s, op))
  {
    hide Total, EndOf, Percent, AllExited;
  }

  lemma StepSaysLast(job: Job, s: State, op: Op)
    requires SaidLast(job, s)
    ensures SaidLast(job, Next(job, s, op))
  {
    hide WorkerNext, OtherNext;
    if Enabled(job, s, op) {
      if OfWorker(op) {
        WorkerDecidesNothing(job, s, op);
      } else {
        OtherSaysLast(job, s, op);
      }
    }
  }

  /** While probes are collected, the progress last reported is that of the results received, rounded down. */
  predicate Reported(job: Job, s: State) {
    (s.fate == Pending && Prelude(s.phase) ==> s.collected == []) && (s.collected == [] ==> s.lastProgress == -1) &&
    (s.fate == Pending && s.collected != [] ==>
       s.writes != [] && LastWrite(s) == StateWrite(Running, s.lastProgress) &&
       s.lastProgress == Percent(|s.collected|, Total(job.lens)))
  }

  lemma OtherReports(job: Job, s: State, op: Op)
    requires Reported(job, s) && Enabled(job, s, op) && !OfWorker(op)
    ensures Reported(job, OtherNext(job, s, op))
  {
    hide Total, EndOf, Percent, AllExited, SetState;
  }

  lemma StepReports(job: Job, s: State, op: Op)
    requires Reported(job, s)
    ensures Reported(job, Next(job, s, op))
  {
    hide WorkerNext, OtherNext;
    if Enabled(job, s, op) {
      if OfWorker(op) {
        WorkerDecidesNothing(job, s, op);
      } else {
        OtherReports(job, s, op);
      }
    }
  }

  lemma {:induction false} RunReports(job: Job, s: State, ops: seq<Op>)
    requires SaidLast(job, s) && Reported(job, s)
    ensures SaidLast(job, Run(job, s, ops)) && Reported(job, Run(job, s, ops))
    decreases |ops|
  {
    hide Next, SaidLast, Reported;
    if ops != [] {
      StepSaysLast(job, s, ops[0]);
      StepReports(job, s, ops[0]);
      RunReports(job, Next(job, s, ops[0]), ops[1..]);
    }
  }

  /**
   The last thing written is 100 percent for a completed run, 0 for a failed one, and for a canceled one the
   share of the results received; before the end, once something has been received, it is that share too.
   */
  lemma LastWriteTells(job: Job, ops: seq<Op>)
    ensures var s := After(job, ops); var total := Total(job.lens);
      (s.fate == Wrote(Completed) ==> s.writes != [] && LastWrite(s) == StateWrite(Completed, 100)) &&
      (s.fate == Wrote(Failed) ==> s.writes != [] && LastWrite(s) == StateWrite(Failed, 0)) &&
      ((s.fate == Pending && s.collected != []) || s.fate == Wrote(Canceled) ==>
         s.writes != [] &&
         LastWrite(s).status == (if s.fate == Pending then Running else Canceled) &&
         (total > 0 ==>
            LastWrite(s).progress * total <= 100 * |s.collected| < (LastWrite(s).progress + 1) * total))
  {
    hide Run, Total;
    NothingReported(job);
    RunReports(job, Start(job), ops);
    var s := After(job, ops);
    PercentIsShare(|s.collected|, Total(job.lens));
  }

  lemma NothingReported(job: Job)
    ensures SaidLast(job, Start(job)) && Reported(job, Start(job))
  {
    hide Total;
  }

  lemma PercentIsShare(n: nat, total: nat)
    ensures total > 0 ==> Percent(n, total) * total <= 100 * n < (Percent(n, total) + 1) * total
  {
  }

  /***** What the row shows *****/

  lemma FinishShows(job: Job, s: State)
    requires Enabled(job, s, Finish(true)) && !Terminal(s.row.status)
    ensures var s1 := Next(job, s, Finish(true));
      s1.row.status == (if s.cancelled then Canceled else Completed) && (!s.cancelled ==> s1.row.progress == 100)
  {
    hide Total, Percent, AllExited;
  }

  /** A run that finishes uncancelled, and can write, leaves its job shown as completed to 100 percent. */
  lemma CompletedIsShown(job: Job, before: seq<Op>, after: seq<Op>)
    requires Enabled(job, After(job, before), Finish(true))
    requires Cancel !in before && HandlerCancels(true) !in before
    ensures After(job, before + [Finish(true)] + after).row == Row(Completed, 100)
  {
    hide Next, Enabled, Run, Terminal;
    var s := After(job, before);
    RunIsTold(job, before);
    assert !Terminal(s.row.status) && !s.cancelled by { FinishIsPending(job, s, before); }
    FinishShows(job, s);
    RunSnoc(job, Start(job), before, Finish(true));
    RunJoins(job, Start(job), before + [Finish(true)], after);
    assert Terminal(Completed) by { CompletedIsTerminal(); }
    TerminalStays(job, Next(job, s, Finish(true)), after);
  }

  lemma CompletedIsTerminal()
    ensures Terminal(Completed)
  {
  }

  lemma FinishIsPending(job: Job, s: State, ops: seq<Op>)
    requires Told(s, ops) && Enabled(job, s, Finish(true)) && Cancel !in ops && HandlerCancels(true) !in ops
    ensures !Terminal(s.row.status) && !s.cancelled
  {
  }

  lemma {:induction false} RunJoins(job: Job, s: State, first: seq<Op>, second: seq<Op>)
    ensures Run(job, s, first + second) == Run(job, Run(job, s, first), second)
    decreases |first|
  {
    hide Next;
    if first == [] {
      assert first + second == second;
    } else {
      assert (first + second)[1..] == first[1..] + second;
      RunJoins(job, Next(job, s, first[0]), first[1..], second);
    }
  }

  /***** A run left alone completes *****/

  /** Nobody has cancelled the run or its job, and it has not been decided yet. */
  predicate Undisturbed(s: State) {
    s.fate == Pending && !s.cancelled && !Terminal(s.row.status)
  }

  predicate IsCompleted(s: State) {
    s.fate == Wrote(Completed) && s.row == Row(Completed, 100)
  }

  lemma OtherCompletes(job: Job, s: State, op: Op)
    requires Undisturbed(s) && Enabled(job, s, op) && !OfWorker(op) && !(s.phase in {Ended, Finished})
    requires op in {Begin(true), Tunnel(true, true), Route(true, true), Collect(true), CloseTasks, CloseResults,
                    Finish(true)}
    ensures var s1 := OtherNext(job, s, op);
      (Undisturbed(s1) && !(s1.phase in {Ended, Finished})) || (IsCompleted(s1) && s1.phase == Ended)
  {
    hide Total, EndOf, Percent, AllExited;
  }

  lemma HelpfulCompletes(job: Job, s: State)
    requires Undisturbed(s) && Enabled(job, s, Helpful(job, s)) && (s.phase in {Ended, Finished} <==> s.fate != Pending)
    ensures var s1 := Next(job, s, Helpful(job, s));
      (Undisturbed(s1) && !(s1.phase in {Ended, Finished})) || (IsCompleted(s1) && s1.phase == Ended)
  {
    hide Total, WorkerNext, OtherNext, Enabled, AllExited;
    var op := Helpful(job, s);
    if OfWorker(op) {
      WorkerDecidesNothing(job, s, op);
    } else {
      OtherCompletes(job, s, op);
    }
  }

  /** From every state of a run that nobody has disturbed there is a schedule after which the job is completed. */
  lemma {:induction false} CanComplete(job: Job, s: State) returns (ops: seq<Op>)
    requires Placed(job, s) && job.capacity > 0 && Undisturbed(s)
    ensures Run(job, s, ops).phase == Finished && IsCompleted(Run(job, s, ops))
    ensures Cancel !in ops && forall written :: HandlerCancels(written) !in ops
    decreases if s.next <= Total(job.lens) then Measure(job, s) else 0
  {
    hide Next, Measure, Enabled, Undisturbed, IsCompleted;
    PlacedBounds(job, s);
    PlacedPhase(job, s);
    NeverStuck(job, s);
    var op := Helpful(job, s);
    var s1 := Next(job, s, op);
    HelpfulCompletes(job, s);
    StepKeepsPlaced(job, s, op);
    StepDecreases(job, s, op);
    var rest := [CleanUp];
    if s1.phase == Ended {
      CleanUpLeavesFate(job, s1);
      assert rest[1..] == [];
      assert Run(job, s1, rest) == Run(job, Next(job, s1, CleanUp), []);
    } else {
      rest := CanComplete(job, s1);
    }
    ops := [op] + rest;
    assert ops[1..] == rest;
  }

  lemma PlacedPhase(job: Job, s: State)
    requires Placed(job, s) && Undisturbed(s)
    ensures !(s.phase in {Ended, Finished}) && s.fate == Pending
  {
  }

  lemma CleanUpLeavesFate(job: Job, s: State)
    requires s.phase == Ended && IsCompleted(s)
    ensures Next(job, s, CleanUp).phase == Finished && IsCompleted(Next(job, s, CleanUp))
  {
  }

  /** Every job has a schedule that completes it, and then every probe's result has been received. */
  lemma EveryJobCanComplete(job: Job) returns (ops: seq<Op>)
    requires job.capacity > 0
    ensures var s := After(job, ops); IsCompleted(s) && forall i: nat | i < Total(job.lens) :: i in s.collected
  {
    hide Next, Run, Total, Placed;
    StartIsPlaced(job);
    ops := CanComplete(job, Start(job));
    EveryProbeOnce(job, ops);
  }

  /***** What was found *****/

  /** The `k`th step is the end of probe `i`, which found something. */
  predicate FindsAt(job: Job, ops: seq<Op>, k: nat, i: nat) {
    Taken(job, ops, k) && ops[k].ProbeEnd? && ops[k].finds && After(job, ops[..k]).workers[ops[k].worker] == Probing(i)
  }

  lemma StepFinds(job: Job, s: State, op: Op, i: nat)
    ensures i in Next(job, s, op).found <==>
            i in s.found || (Enabled(job, s, op) && op.ProbeEnd? && op.finds && s.workers[op.worker] == Probing(i))
  {
    hide Total, EndOf, Percent, AllExited;
  }

  lemma {:induction false} FoundExactlyWhen(job: Job, ops: seq<Op>, i: nat)
    ensures i in After(job, ops).found <==> exists k: nat :: FindsAt(job, ops, k, i)
    decreases |ops|
  {
    hide Next, Run;
    if ops == [] {
      NothingDone(job);
    } else {
      var before, op := Snoc(job, ops);
      StepFinds(job, After(job, before), op, i);
      FoundExactlyWhen(job, before, i);
      if k: nat :| FindsAt(job, before, k, i) {
        assert FindsAt(job, ops, k, i);
      }
      if k: nat :| FindsAt(job, ops, k, i) {
        if k < |before| {
          assert FindsAt(job, before, k, i);
        } else {
          assert ops[..k] == before && ops[k] == op;
        }
      } else if Enabled(job, After(job, before), op) {
        assert ops[..|before|] == before && ops[|before|] == op;
        assert !FindsAt(job, ops, |before|, i);
      }
    }
  }

  /** In a completed run the results saved are exactly those of the probes that found something. */
  lemma SavedExactlyWhenFound(job: Job, ops: seq<Op>, i: nat)
    requires job.capacity > 0 && After(job, ops).fate == Wrote(Completed) && i < Total(job.lens)
    ensures i in After(job, ops).saved <==> exists k: nat :: FindsAt(job, ops, k, i)
  {
    hide Run, Total;
    EveryProbeOnce(job, ops);
    FoundExactlyWhen(job, ops, i);
  }
}
