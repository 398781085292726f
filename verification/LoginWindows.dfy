/**
 What the login limiter answers, told from the failures themselves: a window opens with a failure that finds
 none open, holds the failures that follow within its length, and is closed by time or by a success.
 */
module LoginWindows {
  import opened Outcomes
  import opened LoginLimiter

  /** Failures at these times, one after the other. */
  function Failures(times: seq<int>): (calls: seq<Call>)
    ensures |calls| == |times| && forall i | 0 <= i < |times| :: calls[i] == FailedAt(times[i])
  {
    seq(|times|, i requires 0 <= i < |times| => FailedAt(times[i]))
  }

  /** None of the failures comes as late as the end of a window that opens with the first. */
  predicate WithinOne(window: int, times: seq<int>) {
    times != [] && forall i | 0 < i < |times| :: times[i] - times[0] < window
  }

  /** The calls end with the failures at `times`, and no window was open when the first of these came. */
  ghost predicate EndsInWindow(window: int, calls: seq<Call>, times: seq<int>)
    decreases |calls|, 1
  {
    WithinOne(window, times) && |times| <= |calls| && calls[|calls| - |times|..] == Failures(times) &&
    Closed(window, calls[..|calls| - |times|], times[0])
  }

  /** No window is open at `time`: there was no failure since the last success, or the window is over. */
  ghost predicate Closed(window: int, calls: seq<Call>, time: int)
    decreases |calls|, 2
  {
    calls == [] || calls[|calls| - 1].Succeeded? ||
    exists earlier :: EndsInWindow(window, calls, earlier) && time - earlier[0] >= window
  }

  lemma {:induction false} FoldSnoc(window: int, a: Option<Attempt>, calls: seq<Call>, call: Call)
    ensures Fold(window, a, calls + [call]) ==
            match call
            case FailedAt(time) => Some(CountedFailure(Fold(window, a, calls), window, time))
            case Succeeded => None
    decreases |calls|
  {
    hide CountedFailure;
    if calls == [] {
      assert (calls + [call])[1..] == [];
    } else {
      assert (calls + [call])[1..] == calls[1..] + [call];
      var next := match calls[0]
        case FailedAt(time) => Some(CountedFailure(a, window, time))
        case Succeeded => None;
      FoldSnoc(window, next, calls[1..], call);
    }
  }

  /** Without its last failure, the window is that of the calls without theirs. */
  lemma WindowBefore(window: int, calls: seq<Call>, times: seq<int>)
    requires EndsInWindow(window, calls, times) && |times| > 1
    ensures var n := |calls| - 1; var front := times[..|times| - 1];
      n >= 0 && calls[n] == FailedAt(times[|times| - 1]) && EndsInWindow(window, calls[..n], front) &&
      times[|times| - 1] - times[0] < window
  {
    hide Closed;
    var n := |calls| - 1;
    var front := times[..|times| - 1];
    var k := |calls| - |times|;
    assert calls[n] == calls[k..][|times| - 1];
    assert calls[..n][..k] == calls[..k];
    assert calls[..n][k..] == calls[k..][..|front|] == Failures(front);
  }

  /** The attempt counted after the calls is the window they end in. */
  lemma {:induction false} WindowIsCounted(window: int, calls: seq<Call>, times: seq<int>)
    requires EndsInWindow(window, calls, times)
    ensures times != [] && Fold(window, None, calls) == Some(Attempt(|times|, times[0]))
    decreases |calls|, 1
  {
    hide Fold, Closed;
    var n := |calls| - 1;
    assert calls == calls[..n] + [calls[n]];
    FoldSnoc(window, None, calls[..n], calls[n]);
    if |times| == 1 {
      OneFailureIsCounted(window, calls, times);
    } else {
      WindowBefore(window, calls, times);
      hide EndsInWindow;
      WindowIsCounted(window, calls[..n], times[..|times| - 1]);
    }
  }

  lemma {:induction false} OneFailureIsCounted(window: int, calls: seq<Call>, times: seq<int>)
    requires EndsInWindow(window, calls, times) && |times| == 1
    ensures Fold(window, None, calls) == Some(Attempt(1, times[0]))
    decreases |calls|, 0
  {
    hide Fold, Closed;
    var n := |calls| - 1;
    var before := calls[..n];
    assert calls[n] == calls[n..][0] == FailedAt(times[0]);
    assert calls == before + [FailedAt(times[0])];
    FoldSnoc(window, None, before, FailedAt(times[0]));
    ClosedIsNotCounted(window, before, times[0]);
  }

  lemma {:induction false} ClosedIsNotCounted(window: int, calls: seq<Call>, time: int)
    requires Closed(window, calls, time)
    ensures var a := Fold(window, None, calls); a.None? || time - a.value.windowStart >= window
    decreases |calls|, 2
  {
    hide Fold;
    var n := |calls| - 1;
    if calls == [] {
      NothingCounted(window);
    } else if calls[n].Succeeded? {
      FoldSnoc(window, None, calls[..n], Succeeded);
      assert calls == calls[..n] + [Succeeded];
    } else {
      var earlier :| EndsInWindow(window, calls, earlier) && time - earlier[0] >= window;
      WindowIsCounted(window, calls, earlier);
    }
  }

  lemma NothingCounted(window: int)
    ensures Fold(window, None, []) == None
  {
  }

  /** A failure inside the window the calls end in belongs to it. */
  lemma FailureJoinsWindow(window: int, before: seq<Call>, earlier: seq<int>, time: int)
    requires EndsInWindow(window, before, earlier) && time - earlier[0] < window
    ensures EndsInWindow(window, before + [FailedAt(time)], earlier + [time])
  {
    hide Closed;
    var calls, times := before + [FailedAt(time)], earlier + [time];
    var k := |before| - |earlier|;
    assert calls[..k] == before[..k];
    assert calls[k..] == before[k..] + [FailedAt(time)];
    assert Failures(times) == Failures(earlier) + [FailedAt(time)];
  }

  /** Another failure opens a window of its own. */
  lemma FailureOpensWindow(window: int, before: seq<Call>, time: int)
    requires Closed(window, before, time)
    ensures EndsInWindow(window, before + [FailedAt(time)], [time])
  {
    hide Closed;
    var calls := before + [FailedAt(time)];
    assert calls[..|before|] == before && calls[|before|..] == Failures([time]);
  }

  /** Calls that do not end with a success end in a window. */
  lemma {:induction false} FailureIsInAWindow(window: int, calls: seq<Call>) returns (times: seq<int>)
    requires calls != [] && calls[|calls| - 1].FailedAt?
    ensures EndsInWindow(window, calls, times)
    decreases |calls|
  {
    hide EndsInWindow;
    var n := |calls| - 1;
    var before, time := calls[..n], calls[n].time;
    assert calls == before + [FailedAt(time)];
    if before != [] && before[n - 1].FailedAt? {
      var earlier := FailureIsInAWindow(window, before);
      WindowHasFailures(window, before, earlier);
      if time - earlier[0] < window {
        FailureJoinsWindow(window, before, earlier, time);
        return earlier + [time];
      }
    }
    assert Closed(window, before, time);
    FailureOpensWindow(window, before, time);
    return [time];
  }

  /**
   A key is blocked if and only if its calls end in a window that is not over and holds as many failures as the
   limit; it is then told to wait until the window is over, a second at least.
   */
  lemma BlocksExactlyWhen(s: Settings, calls: seq<Call>, now: int)
    ensures var (blocked, retry) := Verdict(Fold(s.window, None, calls), s, now);
      (blocked <==> exists times ::
         EndsInWindow(s.window, calls, times) && now - times[0] < s.window && |times| >= s.limit) &&
      (forall times | EndsInWindow(s.window, calls, times) && blocked ::
         retry >= SECOND && now + retry >= times[0] + s.window &&
         (retry == SECOND || now + retry == times[0] + s.window))
  {
    hide Fold, EndsInWindow;
    forall times | EndsInWindow(s.window, calls, times)
      ensures times != [] && Fold(s.window, None, calls) == Some(Attempt(|times|, times[0]))
    {
      WindowIsCounted(s.window, calls, times);
      WindowHasFailures(s.window, calls, times);
    }
    if calls == [] {
      NothingCounted(s.window);
    } else if calls[|calls| - 1].Succeeded? {
      FoldSnoc(s.window, None, calls[..|calls| - 1], Succeeded);
      assert calls == calls[..|calls| - 1] + [Succeeded];
    } else {
      var times := FailureIsInAWindow(s.window, calls);
    }
  }

  lemma WindowHasFailures(window: int, calls: seq<Call>, times: seq<int>)
    requires EndsInWindow(window, calls, times)
    ensures times != []
  {
    hide Closed;
  }

  /** The limiter's own answer after any run, for a key that was never given up. */
  lemma LimiterBlocksExactlyWhen(s: Settings, clock: int, steps: seq<Step>, key: string, tick: nat)
    requires forall i | 0 <= i < |steps| :: Spares(steps[i], key)
    ensures var w := Run(s, Start(clock), steps);
      var now := w.clock + tick;
      Verdict(Entry(Cleaned(w.attempts, s.window, now), key), s, now).0 <==>
      exists times :: EndsInWindow(s.window, HistoryOf(steps, clock, key), times) && now - times[0] < s.window &&
                      |times| >= s.limit
  {
    hide Run, Fold, EndsInWindow, Verdict, HistoryOf;
    AnswersLikeUnbounded(s, clock, steps, key, tick);
    BlocksExactlyWhen(s, HistoryOf(steps, clock, key), Run(s, Start(clock), steps).clock + tick);
  }
}
