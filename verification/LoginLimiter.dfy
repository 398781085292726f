/**
 The login limiter: a fixed-window failure counter per key in a map that never grows beyond a bound.
 Times are nanoseconds; a map is scanned in no particular order.
 */
module LoginLimiter {
  import opened ListFacts
  import opened Outcomes

  const SECOND: int := 1_000_000_000

  datatype Attempt = Attempt(count: int, windowStart: int)

  type Attempts = map<string, Attempt>

  datatype Settings = Settings(limit: int, window: int, maxKeys: nat)

  /***** One key, as if the map had no bound *****/

  function CountedFailure(a: Option<Attempt>, window: int, now: int): Attempt {
    if a.None? || now - a.value.windowStart >= window then Attempt(1, now) else a.value.(count := a.value.count + 1)
  }

  /** Whether the key is blocked, and for how long it should wait, at least a second. */
  function Verdict(a: Option<Attempt>, s: Settings, now: int): (bool, int) {
    if a.None? || now - a.value.windowStart >= s.window || a.value.count < s.limit then (false, 0)
    else
      var retry := s.window - (now - a.value.windowStart);
      (true, if retry < SECOND then SECOND else retry)
  }

  /***** The map *****/

  function Entry(m: Attempts, key: string): Option<Attempt> {
    if key in m then Some(m[key]) else None
  }

  function Cleaned(m: Attempts, window: int, now: int): Attempts {
    map k | k in m && !(now - m[k].windowStart >= window) :: m[k]
  }

  /** The map must give something up before the key can be entered. */
  predicate NeedsRoom(m: Attempts, s: Settings, key: string, now: int) {
    key !in m && |m| >= s.maxKeys && |Cleaned(m, s.window, now)| >= s.maxKeys
  }

  /** A failure counted; `evicted` is the key that was given up for it, if one was. */
  function Failed(m: Attempts, s: Settings, key: string, now: int, evicted: Option<string>): Attempts {
    var m1 := if key !in m && |m| >= s.maxKeys then Cleaned(m, s.window, now) else m;
    var m2 := if NeedsRoom(m, s, key, now) && evicted.Some? then m1 - {evicted.value} else m1;
    m2[key := CountedFailure(Entry(m, key), s.window, now)]
  }

  predicate Oldest(m: Attempts, key: string) {
    key in m && forall k | k in m :: m[key].windowStart <= m[k].windowStart
  }

  /** An eviction takes an entry with the oldest window, and only when there is no room. */
  predicate Legit(m: Attempts, s: Settings, key: string, now: int, evicted: Option<string>) {
    if NeedsRoom(m, s, key, now)
    then evicted.Some? && Oldest(Cleaned(m, s.window, now), evicted.value) else evicted.None?
  }

  /***** Runs *****/

  datatype Op = Blocked(key: string) | Failure(key: string, evicted: Option<string>) | Success(key: string)

  datatype Step = Step(tick: nat, op: Op)

  /** `plain` is the unbounded limiter fed with the same calls. */
  datatype World = World(attempts: Attempts, plain: Attempts, clock: int)

  function Next(s: Settings, w: World, step: Step): World {
    var now := w.clock + step.tick;
    match step.op
    case Blocked(_) => w.(attempts := Cleaned(w.attempts, s.window, now), clock := now)
    case Failure(key, evicted) =>
      World(Failed(w.attempts, s, key, now, evicted),
            w.plain[key := CountedFailure(Entry(w.plain, key), s.window, now)], now)
    case Success(key) => World(w.attempts - {key}, w.plain - {key}, now)
  }

  function Run(s: Settings, w: World, steps: seq<Step>): World
    decreases |steps|
  {
    if steps == [] then w else Run(s, Next(s, w, steps[0]), steps[1..])
  }

  function Start(clock: int): World {
    World(map[], map[], clock)
  }

  /** The entry of the bounded map is the unbounded one, or it is gone because that one has expired. */
  predicate Agrees(s: Settings, w: World, key: string) {
    if key in w.attempts then Entry(w.plain, key) == Some(w.attempts[key])
    else key in w.plain ==> w.clock - w.plain[key].windowStart >= s.window
  }

  predicate Spares(step: Step, key: string) {
    step.op.Failure? ==> step.op.evicted != Some(key) || step.op.key == key
  }

  lemma StepKeepsAgreement(s: Settings, w: World, step: Step, key: string)
    requires Agrees(s, w, key) && Spares(step, key)
    ensures Agrees(s, Next(s, w, step), key)
  {
  }

  lemma {:induction false} RunKeepsAgreement(s: Settings, w: World, steps: seq<Step>, key: string)
    requires Agrees(s, w, key) && forall i | 0 <= i < |steps| :: Spares(steps[i], key)
    ensures Agrees(s, Run(s, w, steps), key)
    decreases |steps|
  {
    hide Next, Agrees;
    if steps != [] {
      assert Spares(steps[0], key);
      StepKeepsAgreement(s, w, steps[0], key);
      assert forall i | 0 <= i < |steps[1..]| :: steps[1..][i] == steps[i + 1];
      RunKeepsAgreement(s, Next(s, w, steps[0]), steps[1..], key);
    }
  }

  /** The calls about one key, oldest first, with their times: what the unbounded limiter looks at. */
  datatype Call = FailedAt(time: int) | Succeeded

  function HistoryOf(steps: seq<Step>, clock: int, key: string): seq<Call>
    decreases |steps|
  {
    if steps == [] then []
    else
      var now := clock + steps[0].tick;
      CallsOf(steps[0], now, key) + HistoryOf(steps[1..], now, key)
  }

  function Fold(window: int, a: Option<Attempt>, calls: seq<Call>): Option<Attempt>
    decreases |calls|
  {
    if calls == [] then a
    else
      var next := match calls[0]
        case FailedAt(time) => Some(CountedFailure(a, window, time))
        case Succeeded => None;
      Fold(window, next, calls[1..])
  }

  function CallsOf(step: Step, now: int, key: string): seq<Call> {
    match step.op
    case Failure(k, _) => if k == key then [FailedAt(now)] else []
    case Success(k) => if k == key then [Succeeded] else []
    case Blocked(_) => []
  }

  lemma PlainStep(s: Settings, w: World, step: Step, key: string, rest: seq<Call>)
    ensures Fold(s.window, Entry(w.plain, key), CallsOf(step, w.clock + step.tick, key) + rest) ==
            Fold(s.window, Entry(Next(s, w, step).plain, key), rest)
  {
    hide Failed, Cleaned, CountedFailure;
    var calls := CallsOf(step, w.clock + step.tick, key);
    if calls == [] {
      assert calls + rest == rest;
    } else {
      assert (calls + rest)[1..] == rest;
    }
  }

  lemma {:induction false} PlainIsFold(s: Settings, w: World, steps: seq<Step>, key: string)
    ensures Entry(Run(s, w, steps).plain, key) == Fold(s.window, Entry(w.plain, key), HistoryOf(steps, w.clock, key))
    decreases |steps|
  {
    hide Failed, Cleaned, CountedFailure, Entry, CallsOf;
    if steps != [] {
      var w1 := Next(s, w, steps[0]);
      PlainIsFold(s, w1, steps[1..], key);
      PlainStep(s, w, steps[0], key, HistoryOf(steps[1..], w1.clock, key));
    }
  }

  /**
   For a key that was never given up, `Blocked` answers after any run what an unbounded fixed-window
   limiter answers that has seen every failure and success of that key and nothing else.
   */
  lemma AnswersLikeUnbounded(s: Settings, clock: int, steps: seq<Step>, key: string, tick: nat)
    requires forall i | 0 <= i < |steps| :: Spares(steps[i], key)
    ensures var w := Run(s, Start(clock), steps);
      var now := w.clock + tick;
      Verdict(Entry(Cleaned(w.attempts, s.window, now), key), s, now) ==
      Verdict(Fold(s.window, None, HistoryOf(steps, clock, key)), s, now)
  {
    hide Run, Fold;
    RunKeepsAgreement(s, Start(clock), steps, key);
    PlainIsFold(s, Start(clock), steps, key);
  }

  /***** The bound *****/

  lemma RemovalShrinks(m: Attempts, key: string)
    requires key in m
    ensures |m - {key}| == |m| - 1
  {
    assert (m - {key}).Keys == m.Keys - {key};
    assert |(m - {key}).Keys| == |m.Keys| - 1;
  }

  lemma EntryGrows(m: Attempts, key: string, a: Attempt)
    ensures |m[key := a]| == if key in m then |m| else |m| + 1
  {
    assert m[key := a].Keys == m.Keys + {key};
    if key in m {
      assert m.Keys + {key} == m.Keys;
    } else {
      assert |m.Keys + {key}| == |m.Keys| + 1;
    }
  }

  lemma {:induction false} SubsetIsSmaller(a: set<string>, b: set<string>)
    requires a <= b
    ensures |a| <= |b|
  {
    if a != {} {
      var x :| x in a;
      SubsetIsSmaller(a - {x}, b - {x});
    }
  }

  lemma FewerEntries(a: Attempts, b: Attempts)
    requires a.Keys <= b.Keys
    ensures |a| <= |b|
  {
    SubsetIsSmaller(a.Keys, b.Keys);
    assert |a| == |a.Keys| && |b| == |b.Keys|;
  }

  lemma FailedStaysBounded(m: Attempts, s: Settings, key: string, now: int, evicted: Option<string>)
    requires s.maxKeys > 0 && |m| <= s.maxKeys && Legit(m, s, key, now, evicted)
    ensures |Failed(m, s, key, now, evicted)| <= s.maxKeys
  {
    var cleaned := Cleaned(m, s.window, now);
    FewerEntries(cleaned, m);
    var m1 := if key !in m && |m| >= s.maxKeys then cleaned else m;
    var m2 := if NeedsRoom(m, s, key, now) then m1 - {evicted.value} else m1;
    if NeedsRoom(m, s, key, now) {
      RemovalShrinks(m1, evicted.value);
    }
    EntryGrows(m2, key, CountedFailure(Entry(m, key), s.window, now));
  }

  /** Every eviction in the schedule is a proper one. */
  predicate AllLegit(s: Settings, w: World, steps: seq<Step>)
    decreases |steps|
  {
    steps != [] ==>
      (steps[0].op.Failure? ==> Legit(w.attempts, s, steps[0].op.key, w.clock + steps[0].tick, steps[0].op.evicted)) &&
      AllLegit(s, Next(s, w, steps[0]), steps[1..])
  }

  lemma {:induction false} ProperEvictionsKeepTheBound(s: Settings, w: World, steps: seq<Step>)
    requires s.maxKeys > 0 && |w.attempts| <= s.maxKeys && AllLegit(s, w, steps)
    ensures |Run(s, w, steps).attempts| <= s.maxKeys
    decreases |steps|
  {
    hide Failed, Cleaned;
    if steps != [] {
      var now := w.clock + steps[0].tick;
      match steps[0].op {
        case Failure(key, evicted) => FailedStaysBounded(w.attempts, s, key, now, evicted);
        case Blocked(_) =>
          FewerEntries(Cleaned(w.attempts, s.window, now), w.attempts) by { CleanedKeys(w.attempts, s.window, now); }
        case Success(key) => FewerEntries(w.attempts - {key}, w.attempts);
      }
      ProperEvictionsKeepTheBound(s, Next(s, w, steps[0]), steps[1..]);
    }
  }

  lemma CleanedKeys(m: Attempts, window: int, now: int)
    ensures Cleaned(m, window, now).Keys <= m.Keys
  {
  }

  /***** The scan for an oldest entry *****/

  /** What the scan has found after the keys of `order`: the empty key also stands for nothing yet. */
  function Scanned(m: Attempts, order: seq<string>): (string, int)
    requires forall k | k in order :: k in m
  {
    if order == [] then ("", 0)
    else
      var n := |order| - 1;
      var (oldestKey, oldest) := Scanned(m, order[..n]);
      if oldestKey == "" || m[order[n]].windowStart < oldest then (order[n], m[order[n]].windowStart)
      else (oldestKey, oldest)
  }

  /** An order in which the map may be scanned. */
  predicate IsScan(m: Attempts, order: seq<string>) {
    NoRepeats(order) && (set k | k in order) == m.Keys
  }

  /** The key that a scan in this order gives up, if it does. */
  function EvictedBy(m: Attempts, order: seq<string>): Option<string>
    requires IsScan(m, order)
  {
    InScan(m, order);
    var key := Scanned(m, order).0;
    if key == "" then None else Some(key)
  }

  lemma InScan(m: Attempts, order: seq<string>)
    requires IsScan(m, order)
    ensures forall k :: k in order <==> k in m
  {
    assert forall k :: k in order <==> k in (set x | x in order);
  }

  /** An eviction that `Limiter.Failure` may make: any scan's if there is no room, and none otherwise. */
  ghost predicate MayEvict(m: Attempts, s: Settings, key: string, now: int, evicted: Option<string>) {
    if NeedsRoom(m, s, key, now) then
      exists order ::
        IsScan(Cleaned(m, s.window, now), order) && evicted == EvictedBy(Cleaned(m, s.window, now), order)
    else evicted.None?
  }

  /** Some other entry is as old as the one under the empty key, if there is one. */
  predicate EmptyKeyIsHarmless(m: Attempts) {
    "" in m ==> exists k :: k in m && k != "" && m[k].windowStart <= m[""].windowStart
  }

  /** No candidate: nothing was scanned, or the empty key was, and it is older than all else so far. */
  predicate OnlyOlderEmptyKey(m: Attempts, rest: set<string>, oldest: int) {
    forall k | k in m && k !in rest && k != "" ::
      "" in m && "" !in rest && oldest == m[""].windowStart < m[k].windowStart
  }

  /**
   With a candidate: no scanned entry is older that could make the empty key harmless, and if the empty
   key itself is older, then it is older than everything scanned.
   */
  predicate ScannedWell(m: Attempts, rest: set<string>, oldest: int) {
    forall k | k in m && k !in rest ::
      (k != "" && ("" !in m || "" in rest || m[k].windowStart <= m[""].windowStart) ==> oldest <= m[k].windowStart) &&
      (k == "" && m[k].windowStart < oldest ==>
         forall x | x in m && x !in rest && x != "" :: m[""].windowStart < m[x].windowStart)
  }

  lemma {:induction false} ScanInvariant(m: Attempts, order: seq<string>)
    requires NoRepeats(order) && forall k | k in order :: k in m
    ensures var (oldestKey, oldest) := Scanned(m, order);
      var rest := m.Keys - set k | k in order;
      if oldestKey == "" then OnlyOlderEmptyKey(m, rest, oldest)
      else oldestKey in order && oldest == m[oldestKey].windowStart && ScannedWell(m, rest, oldest)
  {
    if order != [] {
      var n := |order| - 1;
      ScanInvariant(m, order[..n]);
      assert order == order[..n] + [order[n]];
      assert (set k | k in order) == (set k | k in order[..n]) + {order[n]};
    }
  }

  /** Whatever the order: an oldest entry is found if and only if the empty key is not alone in being oldest. */
  lemma ScanFindsOldestExactlyWhen(m: Attempts, order: seq<string>)
    requires IsScan(m, order) && m != map[]
    ensures (EvictedBy(m, order).Some? && Oldest(m, EvictedBy(m, order).value)) <==> EmptyKeyIsHarmless(m)
    ensures EvictedBy(m, order).Some? ==> EvictedBy(m, order).value in m
  {
    InScan(m, order);
    ScanInvariant(m, order);
    NotEmpty(m);
    assert m.Keys - (set k | k in order) == {};
  }

  lemma NotEmpty(m: Attempts)
    ensures m != map[] ==> m.Keys != {} && exists k :: k in m
  {
    if m.Keys == {} {
      assert m == map[];
    }
  }

  lemma {:induction false} OrderOf(keys: set<string>) returns (order: seq<string>)
    ensures NoRepeats(order) && (set k | k in order) == keys
    decreases keys
  {
    if keys == {} {
      order := [];
    } else {
      var key :| key in keys;
      var rest := OrderOf(keys - {key});
      assert key !in (set k | k in rest);
      order := rest + [key];
      assert (set k | k in order) == (set k | k in rest) + {key};
    }
  }

  /** If the empty key alone is oldest, a scan that comes to it last gives up nothing. */
  lemma SomeScanFindsNothing(m: Attempts) returns (order: seq<string>)
    requires !EmptyKeyIsHarmless(m)
    ensures IsScan(m, order) && EvictedBy(m, order) == None
  {
    var others := OrderOf(m.Keys - {""});
    assert forall k :: k in others <==> k in (set x | x in others);
    order := others + [""];
    assert (set k | k in order) == (set k | k in others) + {""} == m.Keys;
    assert order[..|others|] == others;
    InScan(m, order);
    ScanInvariant(m, others);
  }

  /**
   A failure keeps the bound, whatever the order of its scan, exactly when it needs no room or the empty key
   is not alone in being oldest among what is left.
   */
  lemma FailureKeepsTheBoundExactlyWhen(m: Attempts, s: Settings, key: string, now: int)
    requires s.maxKeys > 0 && |m| <= s.maxKeys
    ensures (forall evicted | MayEvict(m, s, key, now, evicted) :: |Failed(m, s, key, now, evicted)| <= s.maxKeys) <==>
            !NeedsRoom(m, s, key, now) || EmptyKeyIsHarmless(Cleaned(m, s.window, now))
  {
    hide EmptyKeyIsHarmless, Cleaned, Failed;
    var cleaned := Cleaned(m, s.window, now);
    if !NeedsRoom(m, s, key, now) || EmptyKeyIsHarmless(cleaned) {
      forall evicted | MayEvict(m, s, key, now, evicted) ensures |Failed(m, s, key, now, evicted)| <= s.maxKeys {
        MadeIsProper(m, s, key, now, evicted);
        FailedStaysBounded(m, s, key, now, evicted);
      }
    } else {
      var order := SomeScanFindsNothing(cleaned);
      assert MayEvict(m, s, key, now, None);
      NothingEvicted(m, s, key, now);
    }
  }

  lemma NothingEvicted(m: Attempts, s: Settings, key: string, now: int)
    requires NeedsRoom(m, s, key, now)
    ensures |Failed(m, s, key, now, None)| > s.maxKeys
  {
    EntryGrows(Cleaned(m, s.window, now), key, CountedFailure(Entry(m, key), s.window, now));
  }

  lemma MadeIsProper(m: Attempts, s: Settings, key: string, now: int, evicted: Option<string>)
    requires s.maxKeys > 0 && MayEvict(m, s, key, now, evicted)
    requires NeedsRoom(m, s, key, now) ==> EmptyKeyIsHarmless(Cleaned(m, s.window, now))
    ensures Legit(m, s, key, now, evicted)
  {
    hide EmptyKeyIsHarmless, Cleaned, EvictedBy, IsScan;
    var cleaned := Cleaned(m, s.window, now);
    if NeedsRoom(m, s, key, now) {
      var order :| IsScan(cleaned, order) && evicted == EvictedBy(cleaned, order);
      assert cleaned != map[];
      ScanFindsOldestExactlyWhen(cleaned, order);
    }
  }

  /** The evictions in the schedule are ones that `Limiter.Failure` may make. */
  ghost predicate AsFailureEvicts(s: Settings, w: World, steps: seq<Step>)
    decreases |steps|
  {
    steps != [] ==>
      (steps[0].op.Failure? ==>
         MayEvict(w.attempts, s, steps[0].op.key, w.clock + steps[0].tick, steps[0].op.evicted)) &&
      AsFailureEvicts(s, Next(s, w, steps[0]), steps[1..])
  }

  predicate NoEmptyKey(steps: seq<Step>) {
    forall i | 0 <= i < |steps| :: steps[i].op.key != ""
  }

  /** Where the empty key is never used, every eviction that `Limiter.Failure` makes is a proper one. */
  lemma {:induction false} EvictionsAreProper(s: Settings, w: World, steps: seq<Step>)
    requires s.maxKeys > 0 && "" !in w.attempts && NoEmptyKey(steps) && AsFailureEvicts(s, w, steps)
    ensures AllLegit(s, w, steps)
    decreases |steps|
  {
    hide MayEvict, Legit;
    if steps != [] {
      assert forall i | 0 <= i < |steps[1..]| :: steps[1..][i] == steps[i + 1];
      assert steps[0].op.key != "";
      if steps[0].op.Failure? {
        MadeIsProper(w.attempts, s, steps[0].op.key, w.clock + steps[0].tick, steps[0].op.evicted);
      }
      EvictionsAreProper(s, Next(s, w, steps[0]), steps[1..]);
    }
  }

  /** Whatever keys but the empty one fail, succeed or are asked for: the map never holds more than `maxKeys`. */
  lemma NeverMoreThanMaxKeys(s: Settings, clock: int, steps: seq<Step>)
    requires s.maxKeys > 0 && NoEmptyKey(steps) && AsFailureEvicts(s, Start(clock), steps)
    ensures |Run(s, Start(clock), steps).attempts| <= s.maxKeys
  {
    EvictionsAreProper(s, Start(clock), steps);
    ProperEvictionsKeepTheBound(s, Start(clock), steps);
  }

  lemma LoneEmptyKeyIsKept(a: Attempt)
    ensures var m: Attempts := map["" := a]; IsScan(m, [""]) && EvictedBy(m, [""]) == None
  {
    var m: Attempts := map["" := a];
    assert [""][..0] == [] && (set k | k in [""]) == {""} == m.Keys;
    assert Scanned(m, []) == ("", 0);
  }

  /** With the empty key the bound can be passed: alone and oldest, it is not given up. */
  lemma EmptyKeyPassesTheBound(limit: int, clock: int)
    ensures var s := Settings(limit, 2, 1);
      var steps := [Step(0, Failure("", None)), Step(1, Failure("a", None))];
      AsFailureEvicts(s, Start(clock), steps) && |Run(s, Start(clock), steps).attempts| == 2
  {
    hide EvictedBy, IsScan;
    var s := Settings(limit, 2, 1);
    var steps := [Step(0, Failure("", None)), Step(1, Failure("a", None))];
    var w1 := Next(s, Start(clock), steps[0]);
    assert w1.attempts == map["" := Attempt(1, clock)];
    assert Cleaned(w1.attempts, 2, clock + 1) == w1.attempts;
    LoneEmptyKeyIsKept(Attempt(1, clock));
    assert MayEvict(w1.attempts, s, "a", clock + 1, None);
    var w2 := Next(s, w1, steps[1]);
    assert w2.attempts == w1.attempts["a" := Attempt(1, clock + 1)];
    EntryGrows(w1.attempts, "a", Attempt(1, clock + 1));
    assert steps[1..] == [steps[1]] && [steps[1]][1..] == [];
    assert Run(s, w2, []) == w2 && Run(s, w1, [steps[1]]) == w2;
  }

  /***** The limiter *****/

  class Limiter {
    const settings: Settings
    var attempts: Attempts

    constructor (limit: int, window: int, maxKeys: nat)
      ensures attempts == map[] && settings == Settings(limit, window, if maxKeys > 0 then maxKeys else 4096)
    {
      settings := Settings(limit, window, if maxKeys > 0 then maxKeys else 4096);
      attempts := map[];
    }

    method Cleanup(now: int)
      modifies this`attempts
      ensures attempts == Cleaned(old(attempts), settings.window, now)
    {
      var keys := attempts.Keys;
      while keys != {}
        invariant keys <= old(attempts).Keys
        invariant attempts == map k | k in old(attempts) &&
                                      (k in keys ||
                                       !(now - old(attempts)[k].windowStart >= settings.window)) :: old(attempts)[k]
        decreases keys
      {
        var key :| key in keys;
        keys := keys - {key};
        if now - attempts[key].windowStart >= settings.window {
          attempts := attempts - {key};
        }
      }
    }

    method Blocked(key: string, now: int) returns (blocked: bool, retry: int)
      modifies this`attempts
      ensures attempts == Cleaned(old(attempts), settings.window, now)
      ensures (blocked, retry) == Verdict(Entry(old(attempts), key), settings, now)
    {
      Cleanup(now);
      if key !in attempts || attempts[key].count < settings.limit {
        return false, 0;
      }
      retry := settings.window - (now - attempts[key].windowStart);
      if retry < SECOND {
        retry := SECOND;
      }
      return true, retry;
    }

    /**
     Whatever the order of the scan: the entry removed is an oldest one, if the empty key is not alone
     in being oldest; and if it is, then never - its text also marks that nothing has been found yet.
     */
    method EvictOldest() returns (evicted: Option<string>)
      modifies this`attempts
      ensures attempts == if evicted.Some? then old(attempts) - {evicted.value} else old(attempts)
      ensures exists order :: IsScan(old(attempts), order) && evicted == EvictedBy(old(attempts), order)
      ensures old(attempts) != map[] ==>
                ((evicted.Some? && Oldest(old(attempts), evicted.value)) <==> EmptyKeyIsHarmless(old(attempts)))
      ensures old(attempts) == map[] ==> evicted.None?
      ensures evicted.Some? ==> evicted.value in old(attempts)
    {
      hide Oldest, EmptyKeyIsHarmless;
      var oldestKey, oldest := "", 0;
      var keys := attempts.Keys;
      ghost var order: seq<string> := [];
      while keys != {}
        invariant NoRepeats(order) && (forall k :: k in order <==> k in attempts && k !in keys) && keys <= attempts.Keys
        invariant (oldestKey, oldest) == Scanned(attempts, order)
        decreases keys
      {
        var key :| key in keys;
        keys := keys - {key};
        assert (order + [key])[..|order|] == order;
        order := order + [key];
        if oldestKey == "" || attempts[key].windowStart < oldest {
          oldestKey, oldest := key, attempts[key].windowStart;
        }
      }
      assert (set k | k in order) == attempts.Keys;
      if attempts != map[] {
        ScanFindsOldestExactlyWhen(attempts, order);
      }
      evicted := if oldestKey != "" then Some(oldestKey) else None;
      assert IsScan(attempts, order) && evicted == EvictedBy(attempts, order);
      if oldestKey != "" {
        attempts := attempts - {oldestKey};
      }
    }

    /** `evicted` is reported for the specification; callers do not use it. */
    method Failure(key: string, now: int) returns (evicted: Option<string>)
      requires settings.maxKeys > 0
      modifies this`attempts
      ensures attempts == Failed(old(attempts), settings, key, now, evicted)
      ensures MayEvict(old(attempts), settings, key, now, evicted)
      ensures EmptyKeyIsHarmless(Cleaned(old(attempts), settings.window, now)) ==>
                Legit(old(attempts), settings, key, now, evicted)
      ensures |old(attempts)| <= settings.maxKeys &&
              EmptyKeyIsHarmless(Cleaned(old(attempts), settings.window, now)) ==>
                |attempts| <= settings.maxKeys
    {
      hide EmptyKeyIsHarmless, Legit, EvictedBy, IsScan;
      evicted := None;
      ghost var before := attempts;
      var isNew := key !in attempts;
      var counted := CountedFailure(Entry(attempts, key), settings.window, now);
      if isNew && |attempts| >= settings.maxKeys {
        Cleanup(now);
        if |attempts| >= settings.maxKeys {
          evicted := EvictOldest();
        }
      }
      if EmptyKeyIsHarmless(Cleaned(before, settings.window, now)) {
        MadeIsProper(before, settings, key, now, evicted);
        if |before| <= settings.maxKeys {
          FailedStaysBounded(before, settings, key, now, evicted);
        }
      }
      attempts := attempts[key := counted];
    }

    method Success(key: string)
      modifies this`attempts
      ensures attempts == old(attempts) - {key}
    {
      attempts := attempts - {key};
    }
  }
}
