/**
 What a single read is answered with.  A request is shared for exactly as long as it is under way and
 still current, so an expired read always fetches again; a body that arrived in time is served until it
 expires; and a read that began after a write was acknowledged shows that write.
 */
module ReadCacheSharing {
  import opened Outcomes
  import opened ReadCache
  import opened ReadCacheOrder

  /** The caller that began the fetch has resumed: nobody waits for it any more. */
  predicate Settled(stage: Stage) {
    (stage.Resolved? || stage.Rejected?) && stage.settled
  }

  /** A fetch of this path and kind that is under way, begun under the path's present pair. */
  predicate UnderWay(w: World, f: nat, path: string, kind: Kind) {
    f < |w.fetches| && w.fetches[f].path == path && w.fetches[f].kind == kind && !Settled(w.fetches[f].stage) &&
    Pair(w.fetches[f].generation, w.fetches[f].pathGeneration) == PairOf(w.cache, path)
  }

  predicate Registered(c: Cache, f: nat, path: string, kind: Kind) {
    match kind
    case Uncached => false
    case Plain => path in c.inFlightReads && c.inFlightReads[path] == f
    case Fresh => path in c.inFlightFreshReads && c.inFlightFreshReads[path] == f
  }

  /** What memory, or else session storage, has for a read of `path` at `now`. */
  function Kept(c: Cache, path: string, ttlMs: int, now: int, storage: bool): Option<Data> {
    if path in c.memoryReadCache && 0 <= now - c.memoryReadCache[path].storedAt < ttlMs
    then Some(c.memoryReadCache[path].data)
    else if storage && Readable(c, path) && 0 <= now - Copy(c, path).storedAt < ttlMs then Some(Copy(c, path).data)
    else None
  }

  /** The refresh may be answered from the cache: the last one ended less than two seconds ago. */
  predicate Throttled(c: Cache, path: string, now: int) {
    now - (if path in c.lastFreshReadAt then c.lastFreshReadAt[path] else 0) < 2_000
  }

  /** Where the last call of `Next(w, Read(..))` gets its data. */
  function ReadSource(w: World, path: string, kind: Kind, ttlMs: int, now: int, storage: bool): (source: Source)
    ensures var w1 := Next(w, Read(path, kind, ttlMs, now, storage));
      |w1.calls| == |w.calls| + 1 && w1.calls[..|w.calls|] == w.calls &&
      w1.calls[|w.calls|] == Call(path, w.floor, source)
  {
    Next(w, Read(path, kind, ttlMs, now, storage)).calls[|w.calls|].source
  }

  /***** The in-flight maps hold what is under way, and nothing else *****/

  ghost predicate SharesWhatIsUnderWay(w: World) {
    forall f: nat, path, kind :: Registered(w.cache, f, path, kind) <==> kind != Uncached && UnderWay(w, f, path, kind)
  }

  /** What a request does to the in-flight maps. */
  lemma RequestMovesReads(c: Cache, path: string, kind: Kind, ttlMs: int, now: int, storage: bool, id: nat)
    ensures var (c1, start) := Requested(c, path, kind, ttlMs, now, storage, id);
      if !start.Fetched? || kind == Uncached then
        c1.inFlightReads == c.inFlightReads && c1.inFlightFreshReads == c.inFlightFreshReads
      else if kind == Plain then
        path !in c.inFlightReads && c1.inFlightReads == c.inFlightReads[path := id] &&
        c1.inFlightFreshReads == c.inFlightFreshReads
      else
        path !in c.inFlightFreshReads && c1.inFlightFreshReads == c.inFlightFreshReads[path := id] &&
        c1.inFlightReads == c.inFlightReads - {path}
  {
    hide LookedUp, StorageKey, ReadCanPersist;
    LookupMovesNoRead(c, path, ttlMs, now, storage);
    LookupMovesNoRead(c, path, FRESH_READ_THROTTLE_MS, now, storage);
  }

  lemma ReadSharesWhatIsUnderWay(w: World, path: string, kind: Kind, ttlMs: int, now: int, storage: bool)
    requires SharesWhatIsUnderWay(w) && FetchesKnown(w)
    ensures SharesWhatIsUnderWay(ReadStep(w, path, kind, ttlMs, now, storage))
  {
    hide Requested;
    var id := |w.fetches|;
    var (c1, start) := Requested(w.cache, path, kind, ttlMs, now, storage, id);
    var w1 := ReadStep(w, path, kind, ttlMs, now, storage);
    RequestMovesReads(w.cache, path, kind, ttlMs, now, storage, id);
    RequestMovesPairs(w.cache, path, kind, ttlMs, now, storage, id, path);
    forall f: nat, p, k ensures Registered(w1.cache, f, p, k) <==> k != Uncached && UnderWay(w1, f, p, k) {
      RequestMovesPairs(w.cache, path, kind, ttlMs, now, storage, id, p);
      assert Registered(w.cache, f, p, k) <==> k != Uncached && UnderWay(w, f, p, k);
      if start.Fetched? && p == path && f < id {
        assert FetchKnown(w, w.fetches[f]);
        if kind == Fresh {
          assert Before(PairOf(w.cache, p), PairOf(c1, p));
          assert !UnderWay(w1, f, p, k);
        }
      } else if start.Fetched? && f == id {
        assert !UnderWay(w, id, p, k);
        assert UnderWay(w1, id, p, k) <==> p == path && k == kind;
      } else {
        assert UnderWay(w1, f, p, k) <==> UnderWay(w, f, p, k);
      }
    }
  }

  lemma LookupMovesNoRead(c: Cache, path: string, ttlMs: int, now: int, storage: bool)
    ensures var c1 := LookedUp(c, path, ttlMs, now, storage).0;
      c1.inFlightReads == c.inFlightReads && c1.inFlightFreshReads == c.inFlightFreshReads
  {
  }

  lemma ClearSharesWhatIsUnderWay(w: World, storage: bool)
    requires SharesWhatIsUnderWay(w) && FetchesKnown(w)
    ensures SharesWhatIsUnderWay(w.(cache := Cleared(w.cache, storage)))
  {
    hide IsCacheKey;
    var w1 := w.(cache := Cleared(w.cache, storage));
    forall f: nat, p, k ensures Registered(w1.cache, f, p, k) <==> k != Uncached && UnderWay(w1, f, p, k) {
      if f < |w.fetches| {
        assert FetchKnown(w, w.fetches[f]);
      }
    }
  }

  /** A fetch moves on without settling. */
  lemma StageSharesWhatIsUnderWay(w: World, f: nat, stage: Stage)
    requires SharesWhatIsUnderWay(w) && f < |w.fetches| && !Settled(stage) && !Settled(w.fetches[f].stage)
    ensures SharesWhatIsUnderWay(WithStage(w, f, stage))
  {
    var w1 := WithStage(w, f, stage);
    forall g: nat, p, k ensures Registered(w1.cache, g, p, k) <==> k != Uncached && UnderWay(w1, g, p, k) {
      assert Registered(w.cache, g, p, k) <==> k != Uncached && UnderWay(w, g, p, k);
    }
  }

  lemma ReceiveSharesWhatIsUnderWay(w: World, path: string, kind: Kind, g: nat, pg: nat, d: Data, storable: bool,
                                    now: int, storage: bool)
    requires SharesWhatIsUnderWay(w)
    ensures SharesWhatIsUnderWay(w.(cache := Received(w.cache, path, kind, g, pg, d, storable, now, storage)))
  {
    hide StorageKey, ReadCanPersist;
    var w1 := w.(cache := Received(w.cache, path, kind, g, pg, d, storable, now, storage));
    forall f: nat, p, k ensures Registered(w1.cache, f, p, k) <==> k != Uncached && UnderWay(w1, f, p, k) {
      assert Registered(w.cache, f, p, k) <==> k != Uncached && UnderWay(w, f, p, k);
    }
  }

  lemma ArriveSharesWhatIsUnderWay(w: World, f: nat, now: int, storage: bool, fits: bool)
    requires SharesWhatIsUnderWay(w) && FetchesKnown(w) && f < |w.fetches| && w.fetches[f].stage.Answered?
    ensures SharesWhatIsUnderWay(ArriveStep(w, f, now, storage, fits))
  {
    hide SharesWhatIsUnderWay, FetchesKnown, Received, Cleared;
    var fetch := w.fetches[f];
    match fetch.stage.reply
    case Body(v, storable) =>
      var d := Data(v, f);
      ReceiveSharesWhatIsUnderWay(w, fetch.path, fetch.kind, fetch.generation, fetch.pathGeneration, d, storable, now,
                                  storage && fits);
      StageSharesWhatIsUnderWay(
        w.(cache := Received(w.cache, fetch.path, fetch.kind, fetch.generation, fetch.pathGeneration, d, storable, now,
                             storage && fits)), f, Resolved(Some(d), false));
    case NoContent => StageSharesWhatIsUnderWay(w, f, Resolved(None, false));
    case Refused(status) =>
      if status == 401 {
        ClearSharesWhatIsUnderWay(w, storage);
        StageSharesWhatIsUnderWay(w.(cache := Cleared(w.cache, storage)), f, Rejected(false));
      } else {
        StageSharesWhatIsUnderWay(w, f, Rejected(false));
      }
  }

  lemma SettleSharesWhatIsUnderWay(w: World, f: nat, now: int)
    requires SharesWhatIsUnderWay(w) && f < |w.fetches|
    ensures SharesWhatIsUnderWay(SettleStep(w, f, now))
  {
    hide PairOf;
    var w1 := SettleStep(w, f, now);
    forall g: nat, p, k ensures Registered(w1.cache, g, p, k) <==> k != Uncached && UnderWay(w1, g, p, k) {
      ConcludeKeepsPairs(w.cache, w.fetches[f].path, w.fetches[f].kind, f, true, now, p);
      ConcludeKeepsPairs(w.cache, w.fetches[f].path, w.fetches[f].kind, f, false, now, p);
      assert Registered(w.cache, g, p, k) <==> k != Uncached && UnderWay(w, g, p, k);
      assert Registered(w.cache, f, p, k) <==> k != Uncached && UnderWay(w, f, p, k);
    }
  }

  lemma SameReadsShareTheSame(w: World, w1: World)
    requires SharesWhatIsUnderWay(w) && w1.fetches == w.fetches && w1.cache == w.cache
    ensures SharesWhatIsUnderWay(w1)
  {
    forall g: nat, p, k ensures Registered(w1.cache, g, p, k) <==> k != Uncached && UnderWay(w1, g, p, k) {
      assert Registered(w.cache, g, p, k) <==> k != Uncached && UnderWay(w, g, p, k);
    }
  }

  lemma StepSharesWhatIsUnderWay(w: World, s: Step)
    requires SharesWhatIsUnderWay(w) && FetchesKnown(w)
    ensures SharesWhatIsUnderWay(Next(w, s))
  {
    hide SharesWhatIsUnderWay, FetchesKnown, ReadStep, ArriveStep, SettleStep, Cleared;
    var w1 := Next(w, s);
    match s
    case Read(path, kind, ttlMs, now, storage) => ReadSharesWhatIsUnderWay(w, path, kind, ttlMs, now, storage);
    case Answer(f, shape) =>
      if f < |w.fetches| && w.fetches[f].stage.Travelling? {
        StageSharesWhatIsUnderWay(w, f, w1.fetches[f].stage);
      }
    case Arrive(f, now, storage, fits) =>
      if f < |w.fetches| && w.fetches[f].stage.Answered? {
        ArriveSharesWhatIsUnderWay(w, f, now, storage, fits);
      }
    case Settle(f, now) => if f < |w.fetches| { SettleSharesWhatIsUnderWay(w, f, now); }
    case Return(m, status, readable, storage) =>
      if w1.cache == w.cache {
        SameReadsShareTheSame(w, w1);
      } else {
        ClearSharesWhatIsUnderWay(w, storage);
        SameReadsShareTheSame(w.(cache := Cleared(w.cache, storage)), w1);
      }
    case Clear(storage) => ClearSharesWhatIsUnderWay(w, storage);
    case _ => SameReadsShareTheSame(w, w1);
  }

  lemma {:induction false} RunSharesWhatIsUnderWay(w: World, steps: seq<Step>)
    requires SharesWhatIsUnderWay(w) && Orderly(w, false)
    ensures SharesWhatIsUnderWay(Run(w, steps)) && Orderly(Run(w, steps), false)
    decreases |steps|
  {
    hide SharesWhatIsUnderWay, Next;
    if steps != [] {
      StepSharesWhatIsUnderWay(w, steps[0]);
      StepIsOrderly(w, steps[0], false);
      RunSharesWhatIsUnderWay(Next(w, steps[0]), steps[1..]);
    }
  }

  /**
   In every run a read shares an earlier request if and only if that request is of its own path and kind,
   has not settled, began under the path's present pair of generations, and the cache has nothing to serve.
   */
  lemma SharesExactlyWhen(steps: seq<Step>, path: string, kind: Kind, ttlMs: int, now: int, storage: bool, f: nat)
    requires f != |Run(START, steps).fetches|
    ensures var w := Run(START, steps);
      ReadSource(w, path, kind, ttlMs, now, storage) == FromFetch(f) <==>
      kind != Uncached && UnderWay(w, f, path, kind) &&
      (kind == Plain ==> Kept(w.cache, path, ttlMs, now, storage).None?)
  {
    hide Run, LookedUp, StorageKey, ReadCanPersist;
    var w := Run(START, steps);
    RunSharesWhatIsUnderWay(START, steps);
    LookupFindsWhatIsKept(w.cache, path, ttlMs, now, storage);
    LookupFindsWhatIsKept(w.cache, path, FRESH_READ_THROTTLE_MS, now, storage);
    assert Registered(w.cache, f, path, kind) <==> kind != Uncached && UnderWay(w, f, path, kind);
  }

  /** There is nothing to share and nothing to be served. */
  ghost predicate MustFetch(w: World, path: string, kind: Kind, ttlMs: int, now: int, storage: bool) {
    match kind
    case Uncached => true
    case Plain =>
      Kept(w.cache, path, ttlMs, now, storage).None? && !(exists f: nat :: UnderWay(w, f, path, Plain))
    case Fresh =>
      !(Throttled(w.cache, path, now) && Kept(w.cache, path, 2_000, now, storage).Some?) &&
      !(exists f: nat :: UnderWay(w, f, path, Fresh))
  }

  /** In every run a read begins a new request, under the path's present pair, if and only if it must. */
  lemma FetchesExactlyWhen(steps: seq<Step>, path: string, kind: Kind, ttlMs: int, now: int, storage: bool)
    ensures var w := Run(START, steps); var w1 := Next(w, Read(path, kind, ttlMs, now, storage));
      if MustFetch(w, path, kind, ttlMs, now, storage) then
        ReadSource(w, path, kind, ttlMs, now, storage) == FromFetch(|w.fetches|) &&
        |w1.fetches| == |w.fetches| + 1 && UnderWay(w1, |w.fetches|, path, kind) &&
        w1.fetches[|w.fetches|].stage == Travelling
      else
        w1.fetches == w.fetches && ReadSource(w, path, kind, ttlMs, now, storage) != FromFetch(|w.fetches|)
  {
    hide Run, LookedUp, StorageKey, ReadCanPersist, PairOf;
    var w := Run(START, steps);
    RunSharesWhatIsUnderWay(START, steps);
    LookupFindsWhatIsKept(w.cache, path, ttlMs, now, storage);
    LookupFindsWhatIsKept(w.cache, path, FRESH_READ_THROTTLE_MS, now, storage);
    RequestMovesPairs(w.cache, path, kind, ttlMs, now, storage, |w.fetches|, path);
    forall f: nat ensures Registered(w.cache, f, path, kind) <==> kind != Uncached && UnderWay(w, f, path, kind) {}
    if kind == Plain && path in w.cache.inFlightReads {
      assert Registered(w.cache, w.cache.inFlightReads[path], path, Plain);
    } else if kind == Fresh && path in w.cache.inFlightFreshReads {
      assert Registered(w.cache, w.cache.inFlightFreshReads[path], path, Fresh);
    }
  }

  /** In every run a read is answered at once from what is kept, a refresh only while it is throttled. */
  lemma ServedExactlyWhen(steps: seq<Step>, path: string, kind: Kind, ttlMs: int, now: int, storage: bool, d: Data)
    ensures var w := Run(START, steps);
      ReadSource(w, path, kind, ttlMs, now, storage) == FromCache(d) <==>
      match kind
      case Uncached => false
      case Plain => Kept(w.cache, path, ttlMs, now, storage) == Some(d)
      case Fresh =>
        Throttled(w.cache, path, now) && Kept(w.cache, path, 2_000, now, storage) == Some(d) &&
        !(exists f: nat :: UnderWay(w, f, path, Fresh))
  {
    hide Run, LookedUp, StorageKey, ReadCanPersist;
    var w := Run(START, steps);
    RunSharesWhatIsUnderWay(START, steps);
    LookupFindsWhatIsKept(w.cache, path, ttlMs, now, storage);
    LookupFindsWhatIsKept(w.cache, path, FRESH_READ_THROTTLE_MS, now, storage);
    forall f: nat ensures Registered(w.cache, f, path, kind) <==> kind != Uncached && UnderWay(w, f, path, kind) {}
    if path in w.cache.inFlightFreshReads { assert Registered(w.cache, w.cache.inFlightFreshReads[path], path, Fresh); }
  }

  lemma LookupFindsWhatIsKept(c: Cache, path: string, ttlMs: int, now: int, storage: bool)
    ensures var (c1, hit) := LookedUp(c, path, ttlMs, now, storage);
      hit == Kept(c, path, ttlMs, now, storage) &&
      c1.inFlightReads == c.inFlightReads && c1.inFlightFreshReads == c.inFlightFreshReads
  {
  }

  /***** What a body leaves behind *****/

  /** A body sent by the server reaches every caller that waits for it. */
  lemma BodyIsDelivered(w: World, f: nat, storable: bool, now: int, storage: bool, fits: bool, i: nat)
    requires f < |w.fetches| && w.fetches[f].stage.Travelling?
    requires i < |w.calls| && w.calls[i].source == FromFetch(f)
    ensures var w1 := Run(w, [Answer(f, WithBody(storable)), Arrive(f, now, storage, fits)]);
      w1.calls == w.calls && Delivered(w1, w1.calls[i]) == Some(Data(w.version, f))
  {
    hide Received;
    RunTwo(w, Answer(f, WithBody(storable)), Arrive(f, now, storage, fits));
  }

  lemma RunTwo(w: World, s: Step, t: Step)
    ensures Run(w, [s, t]) == Next(Next(w, s), t)
  {
    hide Next;
    assert [s, t][1..] == [t];
    RunOne(Next(w, s), t);
  }

  /**
   The body is kept, for the path of its request alone, if and only if the pair has not moved since the
   request began and the reply allows it; otherwise what is kept for any path stays the same.
   */
  lemma BodyIsKept(w: World, f: nat, storable: bool, now: int, storage: bool, fits: bool, path: string, ttlMs: int,
                   later: int, usable: bool)
    requires f < |w.fetches| && w.fetches[f].stage.Travelling?
    ensures var w1 := Run(w, [Answer(f, WithBody(storable)), Arrive(f, now, storage, fits)]);
      var fetch := w.fetches[f];
      if storable && UnderWay(w, f, path, fetch.kind) && fetch.kind != Uncached then
        (0 <= later - now < ttlMs ==> Kept(w1.cache, path, ttlMs, later, usable) == Some(Data(w.version, f))) &&
        (storage && fits && ReadCanPersist(path) ==>
           Readable(w1.cache, path) && Copy(w1.cache, path) == CachedRead(now, Data(w.version, f)))
      else
        Kept(w1.cache, path, ttlMs, later, usable) == Kept(w.cache, path, ttlMs, later, usable)
  {
    hide ReadCanPersist, StorageKey;
    var answer := Answer(f, WithBody(storable));
    var fetch := w.fetches[f];
    var d := Data(w.version, f);
    RunTwo(w, answer, Arrive(f, now, storage, fits));
    ReceivedIsKept(w.cache, fetch.path, fetch.kind, fetch.generation, fetch.pathGeneration, d, storable, now,
                   storage && fits, path, ttlMs, later, usable);
    assert Next(Next(w, answer), Arrive(f, now, storage, fits)).cache ==
           Received(w.cache, fetch.path, fetch.kind, fetch.generation, fetch.pathGeneration, d, storable, now,
                    storage && fits);
  }

  lemma ReceivedIsKept(c: Cache, own: string, kind: Kind, g: nat, pg: nat, d: Data, storable: bool, now: int,
                       storage: bool, path: string, ttlMs: int, later: int, usable: bool)
    ensures var c1 := Received(c, own, kind, g, pg, d, storable, now, storage);
      if storable && own == path && Pair(g, pg) == PairOf(c, path) && kind != Uncached then
        (0 <= later - now < ttlMs ==> Kept(c1, path, ttlMs, later, usable) == Some(d)) &&
        (storage && ReadCanPersist(path) ==> Readable(c1, path) && Copy(c1, path) == CachedRead(now, d))
      else
        Kept(c1, path, ttlMs, later, usable) == Kept(c, path, ttlMs, later, usable)
  {
    hide ReadCanPersist, StorageKey;
    StorageKeyIsInjective(path, own);
  }

  /** An error reply to a read leaves everything kept as it is, except 401, which leaves nothing. */
  lemma ErrorForgetsExactlyWhen(w: World, f: nat, status: nat, now: int, storage: bool, fits: bool, path: string,
                                ttlMs: int, later: int, usable: bool)
    requires f < |w.fetches| && w.fetches[f].stage == Answered(Refused(status)) && storage
    ensures var w1 := Next(w, Arrive(f, now, storage, fits));
      if status == 401 then
        Kept(w1.cache, path, ttlMs, later, usable).None? && Before(PairOf(w.cache, path), PairOf(w1.cache, path))
      else
        Kept(w1.cache, path, ttlMs, later, usable) == Kept(w.cache, path, ttlMs, later, usable)
  {
    hide ReadCanPersist;
    assert IsCacheKey(StorageKey(path));
  }

  /** The client forgets everything: when it is told to, and when a write comes back acknowledged or with 401. */
  predicate Forgets(w: World, s: Step) {
    match s
    case Clear(_) => true
    case Return(m, status, readable, _) =>
      m < |w.mutations| &&
      if 200 <= status < 300 && (status == 204 || readable) then w.mutations[m].Applied?
      else status == 401 && !w.mutations[m].Returned?
    case _ => false
  }

  /** Afterwards nothing is kept, shared or throttled, and what was under way will not be kept either. */
  lemma ForgettingIsComplete(steps: seq<Step>, s: Step, path: string, kind: Kind, f: nat, ttlMs: int, later: int,
                             usable: bool)
    requires Forgets(Run(START, steps), s) && s.storage && later >= 2_000
    ensures var w1 := Next(Run(START, steps), s);
      Kept(w1.cache, path, ttlMs, later, usable).None? && !Throttled(w1.cache, path, later) &&
      !UnderWay(w1, f, path, kind)
  {
    hide Run, ReadCanPersist;
    var w := Run(START, steps);
    assert SharesWhatIsUnderWay(START) && Orderly(START, false);
    RunSharesWhatIsUnderWay(START, steps);
    assert IsCacheKey(StorageKey(path));
    if f < |w.fetches| {
      assert FetchKnown(w, w.fetches[f]);
    }
  }

  /** A refresh that succeeded holds further ones off for two seconds; one that failed does not. */
  lemma RefreshThrottles(w: World, f: nat, now: int, later: int)
    requires f < |w.fetches| && w.fetches[f].kind == Fresh
    requires (w.fetches[f].stage.Resolved? || w.fetches[f].stage.Rejected?) && !Settled(w.fetches[f].stage)
    ensures var w1 := Next(w, Settle(f, now)); var path := w.fetches[f].path;
      Settled(w1.fetches[f].stage) &&
      (Throttled(w1.cache, path, later) <==>
       if w.fetches[f].stage.Resolved? then later - now < 2_000 else Throttled(w.cache, path, later))
  {
  }

  /***** Writes *****/

  lemma {:induction false} RunOnlyAdds(w: World, steps: seq<Step>)
    ensures var w1 := Run(w, steps); w.floor <= w1.floor && |w.calls| <= |w1.calls| && w1.calls[..|w.calls|] == w.calls
    decreases |steps|
  {
    if steps != [] {
      RunOnlyAdds(Next(w, steps[0]), steps[1..]);
    }
  }

  /** The write stays applied, at its version, until it returns. */
  lemma {:induction false} WriteStaysApplied(w: World, m: nat, steps: seq<Step>)
    requires m < |w.mutations| && w.mutations[m].Applied?
    requires forall i | 0 <= i < |steps| :: steps[i].Return? ==> steps[i].mutation != m
    ensures m < |Run(w, steps).mutations| && Run(w, steps).mutations[m] == w.mutations[m]
    decreases |steps|
  {
    if steps != [] {
      assert Next(w, steps[0]).mutations[m] == w.mutations[m];
      WriteStaysApplied(Next(w, steps[0]), m, steps[1..]);
    }
  }

  /**
   The promise in terms of the steps alone: a write takes effect, its success is reported, and a read begins.
   Whatever else happens before, between and after, what the read delivers is newer than anything the server
   had when the write took effect.
   */
  lemma WriteIsSeen(first: seq<Step>, m: nat, sent: seq<Step>, status: nat, readable: bool, between: seq<Step>,
                    path: string, kind: Kind, ttlMs: int, now: int, storage: bool, rest: seq<Step>)
    requires m < |Run(START, first).mutations| && Run(START, first).mutations[m] == Sent
    requires forall i | 0 <= i < |sent| :: sent[i].Return? ==> sent[i].mutation != m
    requires Acknowledges(status, readable)
    requires forall s | s in first || s in sent || s in between || s in rest :: Dependable(s)
    ensures var w := Run(START, first + [Apply(m)] + sent + [Return(m, status, readable, true)] + between);
      var w1 := Run(w, [Read(path, kind, ttlMs, now, storage)] + rest);
      |w.calls| < |w1.calls| && w1.calls[|w.calls|].path == path &&
      (Delivered(w1, w1.calls[|w.calls|]).Some? ==>
         Run(START, first).version < Delivered(w1, w1.calls[|w.calls|]).value.version)
  {
    hide Delivered, Dependable, Requested, Cleared;
    var w0 := Run(START, first);
    var apply, back, read := Apply(m), Return(m, status, readable, true), Read(path, kind, ttlMs, now, storage);
    var wa := Next(w0, apply);
    var ws := Run(wa, sent);
    WriteStaysApplied(wa, m, sent);
    var wr := Next(ws, back);
    assert w0.version < wr.floor;
    var w := Run(wr, between);
    RunOnlyAdds(wr, between);
    var w2 := Next(w, read);
    var source := ReadSource(w, path, kind, ttlMs, now, storage);
    var w1 := Run(w2, rest);
    RunOnlyAdds(w2, rest);
    var all := first + [apply] + sent + [back] + between;
    JoinedRun(first, apply, sent, back, between);
    assert Run(w, [read] + rest) == w1 by {
      assert ([read] + rest)[1..] == rest;
    }
    assert w1.calls[|w.calls|] == w2.calls[|w.calls|] by {
      assert w1.calls[..|w2.calls|][|w.calls|] == w1.calls[|w.calls|];
    }
    RunConcat(START, all, [read] + rest);
    assert Dependable(apply) && Dependable(back) && Dependable(read) by { DependableSteps(m, status, readable, read); }
    forall s | s in all + ([read] + rest) ensures Dependable(s) {}
    ReadYourWritesAlways(all + ([read] + rest));
  }

  lemma DependableSteps(m: nat, status: nat, readable: bool, read: Step)
    requires read.Read?
    ensures Dependable(Apply(m)) && Dependable(Return(m, status, readable, true)) && Dependable(read)
  {
  }

  lemma JoinedRun(a: seq<Step>, s: Step, b: seq<Step>, t: Step, c: seq<Step>)
    ensures Run(START, a + [s] + b + [t] + c) == Run(Next(Run(Next(Run(START, a), s), b), t), c)
  {
    hide Next;
    RunConcat(START, a + [s] + b + [t], c);
    RunConcat(START, a + [s] + b, [t]);
    RunConcat(START, a + [s], b);
    RunConcat(START, a, [s]);
    RunOne(Run(START, a), s);
    RunOne(Run(Next(Run(START, a), s), b), t);
  }

  lemma RunOne(w: World, s: Step)
    ensures Run(w, [s]) == Next(w, s)
  {
    hide Next;
    assert [s][1..] == [];
    assert Run(w, [s]) == Run(Next(w, s), []);
  }
}
