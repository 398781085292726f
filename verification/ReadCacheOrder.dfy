/**
 The (global, path) generation pair of the read cache.  Path generations are forgotten on every
 clear, so the same path number comes back; the pair does not, and that is what keeps the body of
 an old read out of a cache that has been refreshed or cleared since.
 */
module ReadCacheOrder {
  import opened Outcomes
  import opened ReadCache

  datatype Pair = Pair(global: nat, path: nat)

  function PairOf(c: Cache, path: string): Pair {
    Pair(c.readCacheGeneration, PathGeneration(c, path))
  }

  predicate Before(a: Pair, b: Pair) {
    a.global < b.global || (a.global == b.global && a.path < b.path)
  }

  predicate AtMost(a: Pair, b: Pair) {
    a == b || Before(a, b)
  }

  /** The step is a fresh read that drops what is cached for `path` and starts a fetch. */
  predicate Refreshes(w: World, s: Step, path: string) {
    s.Read? && s.kind == Fresh && s.path == path &&
    Requested(w.cache, path, Fresh, s.ttlMs, s.now, s.storage, |w.fetches|).1.Fetched?
  }

  lemma LookupKeepsPairs(c: Cache, path: string, ttlMs: int, now: int, storage: bool, p: string)
    ensures PairOf(LookedUp(c, path, ttlMs, now, storage).0, p) == PairOf(c, p)
  {
  }

  lemma RequestMovesPairs(c: Cache, path: string, kind: Kind, ttlMs: int, now: int, storage: bool, id: nat, p: string)
    ensures var (c1, start) := Requested(c, path, kind, ttlMs, now, storage, id);
      if kind == Fresh && start.Fetched? && p == path
      then PairOf(c1, p) == Pair(c.readCacheGeneration, PathGeneration(c, p) + 1)
      else PairOf(c1, p) == PairOf(c, p)
    ensures var (c1, start) := Requested(c, path, kind, ttlMs, now, storage, id);
      start.Fetched? ==> Pair(start.generation, start.pathGeneration) == PairOf(c1, path)
  {
    hide LookedUp, StorageKey;
    LookupKeepsPairs(c, path, ttlMs, now, storage, p);
    LookupKeepsPairs(c, path, ttlMs, now, storage, path);
    LookupKeepsPairs(c, path, FRESH_READ_THROTTLE_MS, now, storage, path);
    LookupKeepsPairs(c, path, FRESH_READ_THROTTLE_MS, now, storage, p);
  }

  lemma ReceiveKeepsPairs(c: Cache, path: string, kind: Kind, g: nat, pg: nat, data: Data, storable: bool, now: int,
                          storage: bool, p: string)
    ensures PairOf(Received(c, path, kind, g, pg, data, storable, now, storage), p) == PairOf(c, p)
  {
  }

  lemma ConcludeKeepsPairs(c: Cache, path: string, kind: Kind, id: nat, success: bool, now: int, p: string)
    ensures PairOf(Concluded(c, path, kind, id, success, now), p) == PairOf(c, p)
  {
  }

  /** The pair only ever moves up, and a refresh moves it. */
  lemma StepMovesPairUp(w: World, s: Step, p: string)
    ensures AtMost(PairOf(w.cache, p), PairOf(Next(w, s).cache, p))
    ensures Refreshes(w, s, p) || s.Clear? ==> Before(PairOf(w.cache, p), PairOf(Next(w, s).cache, p))
  {
    match s
    case Read(path, kind, ttlMs, now, storage) =>
      RequestMovesPairs(w.cache, path, kind, ttlMs, now, storage, |w.fetches|, p);
    case Arrive(f, now, storage, fits) =>
      if f < |w.fetches| && w.fetches[f].stage.Answered? && w.fetches[f].stage.reply.Body? {
        var fetch := w.fetches[f];
        var data := Data(fetch.stage.reply.version, f);
        ReceiveKeepsPairs(w.cache, fetch.path, fetch.kind, fetch.generation, fetch.pathGeneration, data,
                          fetch.stage.reply.storable, now, storage && fits, p);
      }
    case Settle(f, now) =>
      if f < |w.fetches| {
        ConcludeKeepsPairs(w.cache, w.fetches[f].path, w.fetches[f].kind, f, true, now, p);
        ConcludeKeepsPairs(w.cache, w.fetches[f].path, w.fetches[f].kind, f, false, now, p);
      }
    case _ =>
  }

  lemma {:induction false} RunMovesPairUp(w: World, steps: seq<Step>, p: string)
    ensures AtMost(PairOf(w.cache, p), PairOf(Run(w, steps).cache, p))
    decreases |steps|
  {
    if steps != [] {
      StepMovesPairUp(w, steps[0], p);
      RunMovesPairUp(Next(w, steps[0]), steps[1..], p);
    }
  }

  /** Once the pair of a path has moved on from a value it never has that value again. */
  lemma PairNeverRecurs(w: World, first: seq<Step>, second: seq<Step>, p: string)
    requires PairOf(Run(w, first).cache, p) != PairOf(w.cache, p)
    ensures PairOf(Run(w, first + second).cache, p) != PairOf(w.cache, p)
  {
    RunMovesPairUp(w, first, p);
    RunMovesPairUp(Run(w, first), second, p);
    RunConcat(w, first, second);
  }

  /***** What is cached was fetched under the current pair *****/

  predicate FromCurrentPair(w: World, path: string, d: Data) {
    d.fetchId < |w.fetches| &&
    w.fetches[d.fetchId].path == path &&
    Pair(w.fetches[d.fetchId].generation, w.fetches[d.fetchId].pathGeneration) == PairOf(w.cache, path) &&
    w.fetches[d.fetchId].issuedVersion <= d.version
  }

  predicate MemoryCurrent(w: World) {
    forall path | path in w.cache.memoryReadCache :: FromCurrentPair(w, path, w.cache.memoryReadCache[path].data)
  }

  ghost predicate SessionCurrent(w: World) {
    forall path | StorageKey(path) in w.cache.session && w.cache.session[StorageKey(path)].Entry? ::
      FromCurrentPair(w, path, w.cache.session[StorageKey(path)].cached.data)
  }

  predicate FetchKnown(w: World, f: Fetch) {
    AtMost(Pair(f.generation, f.pathGeneration), PairOf(w.cache, f.path)) &&
    f.issuedVersion <= w.version && AtLeast(f, f.issuedVersion)
  }

  predicate FetchesKnown(w: World) {
    (forall i | 0 <= i < |w.fetches| :: FetchKnown(w, w.fetches[i])) &&
    (forall i, j | 0 <= i < j < |w.fetches| :: w.fetches[i].issuedVersion <= w.fetches[j].issuedVersion)
  }

  /** Memory holds nothing of an earlier pair; with `stored`, neither does session storage. */
  ghost predicate Orderly(w: World, stored: bool) {
    MemoryCurrent(w) && (stored ==> SessionCurrent(w)) && FetchesKnown(w)
  }

  /** Session storage can be used if this step refreshes or clears. */
  predicate StorageWorks(w: World, s: Step) {
    match s
    case Read(_, kind, _, _, storage) => kind == Fresh ==> storage
    case Arrive(f, _, storage, _) =>
      f < |w.fetches| && w.fetches[f].stage == Answered(Refused(401)) ==> storage
    case Return(_, status, readable, storage) => Clears(status, readable) ==> storage
    case Clear(storage) => storage
    case _ => true
  }

  /** In no step of the run does session storage fail when it should give something up. */
  predicate AlwaysWorks(w: World, steps: seq<Step>)
    decreases |steps|
  {
    steps != [] ==> StorageWorks(w, steps[0]) && AlwaysWorks(Next(w, steps[0]), steps[1..])
  }

  /** Everything the second cache keeps for a path, the first kept too. */
  ghost predicate KeepsNoMore(c: Cache, c1: Cache, path: string, stored: bool) {
    (path in c1.memoryReadCache ==>
       path in c.memoryReadCache && c1.memoryReadCache[path] == c.memoryReadCache[path]) &&
    (stored && StorageKey(path) in c1.session ==>
       StorageKey(path) in c.session && c1.session[StorageKey(path)] == c.session[StorageKey(path)])
  }

  lemma LookupKeepsNoMore(c: Cache, path: string, ttlMs: int, now: int, storage: bool, p: string)
    ensures KeepsNoMore(c, LookedUp(c, path, ttlMs, now, storage).0, p, true)
  {
    hide StorageKey, ReadCanPersist;
  }

  lemma RequestKeepsNoMore(c: Cache, path: string, kind: Kind, ttlMs: int, now: int, storage: bool, id: nat, p: string,
                           stored: bool)
    requires stored && kind == Fresh ==> storage
    ensures var (c1, start) := Requested(c, path, kind, ttlMs, now, storage, id);
      KeepsNoMore(c, c1, p, stored) &&
      (kind == Fresh && start.Fetched? && p == path ==>
         p !in c1.memoryReadCache && (stored ==> StorageKey(p) !in c1.session))
  {
    hide LookedUp, StorageKey, ReadCanPersist;
    StorageKeyIsInjective(path, p);
    LookupKeepsNoMore(c, path, ttlMs, now, storage, p);
    LookupKeepsNoMore(c, path, FRESH_READ_THROTTLE_MS, now, storage, p);
  }

  predicate NewFetch(w: World, c1: Cache, f: Fetch) {
    f.stage == Travelling && f.issuedVersion == w.version && Pair(f.generation, f.pathGeneration) == PairOf(c1, f.path)
  }

  /** A step that keeps no more and leaves fetches alone, or only adds one, keeps the order. */
  lemma KeepingNoMoreIsOrderly(w: World, c1: Cache, added: seq<Fetch>, stored: bool)
    requires Orderly(w, stored) && |added| <= 1
    requires forall p :: KeepsNoMore(w.cache, c1, p, stored)
    requires forall p :: AtMost(PairOf(w.cache, p), PairOf(c1, p))
    requires forall p | p in c1.memoryReadCache || (stored && StorageKey(p) in c1.session) ::
      PairOf(c1, p) == PairOf(w.cache, p)
    requires forall f | f in added :: NewFetch(w, c1, f)
    ensures Orderly(w.(cache := c1, fetches := w.fetches + added), stored)
  {
    var w1 := w.(cache := c1, fetches := w.fetches + added);
    forall p | p in c1.memoryReadCache ensures FromCurrentPair(w1, p, c1.memoryReadCache[p].data) {
      assert KeepsNoMore(w.cache, c1, p, stored);
      assert FromCurrentPair(w, p, w.cache.memoryReadCache[p].data);
    }
    forall p | stored && StorageKey(p) in c1.session && c1.session[StorageKey(p)].Entry?
      ensures FromCurrentPair(w1, p, c1.session[StorageKey(p)].cached.data)
    {
      assert KeepsNoMore(w.cache, c1, p, stored);
      assert FromCurrentPair(w, p, w.cache.session[StorageKey(p)].cached.data);
    }
    forall i | 0 <= i < |w1.fetches| ensures FetchKnown(w1, w1.fetches[i]) {
      if i < |w.fetches| {
        assert FetchKnown(w, w.fetches[i]);
      } else {
        assert w1.fetches[i] in added;
      }
    }
    forall i, j | 0 <= i < j < |w1.fetches| ensures w1.fetches[i].issuedVersion <= w1.fetches[j].issuedVersion {
      assert FetchKnown(w, w.fetches[i]);
      if j == |w.fetches| {
        assert w1.fetches[j] in added;
      }
    }
  }

  lemma ReadIsOrderly(w: World, path: string, kind: Kind, ttlMs: int, now: int, storage: bool, stored: bool)
    requires Orderly(w, stored) && (stored && kind == Fresh ==> storage)
    ensures Orderly(ReadStep(w, path, kind, ttlMs, now, storage), stored)
  {
    var (c1, start) := Requested(w.cache, path, kind, ttlMs, now, storage, |w.fetches|);
    forall p ensures KeepsNoMore(w.cache, c1, p, stored) && AtMost(PairOf(w.cache, p), PairOf(c1, p)) {
      RequestKeepsNoMore(w.cache, path, kind, ttlMs, now, storage, |w.fetches|, p, stored);
      RequestMovesPairs(w.cache, path, kind, ttlMs, now, storage, |w.fetches|, p);
    }
    forall p | p in c1.memoryReadCache || (stored && StorageKey(p) in c1.session)
      ensures PairOf(c1, p) == PairOf(w.cache, p)
    {
      RequestKeepsNoMore(w.cache, path, kind, ttlMs, now, storage, |w.fetches|, p, stored);
      RequestMovesPairs(w.cache, path, kind, ttlMs, now, storage, |w.fetches|, p);
    }
    RequestMovesPairs(w.cache, path, kind, ttlMs, now, storage, |w.fetches|, path);
    var added := match start
      case Fetched(g, pg) => [Fetch(path, kind, g, pg, w.version, Travelling)]
      case _ => [];
    KeepingNoMoreIsOrderly(w, c1, added, stored);
    if !start.Fetched? {
      assert w.fetches + added == w.fetches;
    }
  }

  lemma ClearIsOrderly(w: World, storage: bool, stored: bool)
    requires Orderly(w, stored) && (stored ==> storage)
    ensures Orderly(w.(cache := Cleared(w.cache, storage)), stored)
  {
    var c1 := Cleared(w.cache, storage);
    forall p ensures stored ==> StorageKey(p) !in c1.session {
      assert IsCacheKey(StorageKey(p));
    }
    KeepingNoMoreIsOrderly(w, c1, [], stored);
    assert w.fetches + [] == w.fetches;
  }

  lemma StageIsOrderly(w: World, f: nat, stage: Stage, stored: bool)
    requires Orderly(w, stored) && f < |w.fetches|
    requires AtLeast(w.fetches[f].(stage := stage), w.fetches[f].issuedVersion)
    ensures Orderly(WithStage(w, f, stage), stored)
  {
    var w1 := WithStage(w, f, stage);
    forall i | 0 <= i < |w1.fetches| ensures FetchKnown(w1, w1.fetches[i]) {
      assert FetchKnown(w, w.fetches[i]);
    }
  }

  lemma StoreIsOrderly(w: World, path: string, d: Data, now: int, storage: bool, stored: bool)
    requires Orderly(w, stored) && FromCurrentPair(w, path, d)
    ensures Orderly(w.(cache := Stored(w.cache, path, d, now, storage)), stored)
  {
    var c1 := Stored(w.cache, path, d, now, storage);
    var w1 := w.(cache := c1);
    assert forall p :: PairOf(c1, p) == PairOf(w.cache, p);
    forall p | stored && StorageKey(p) in c1.session && c1.session[StorageKey(p)].Entry?
      ensures FromCurrentPair(w1, p, c1.session[StorageKey(p)].cached.data)
    {
      StorageKeyIsInjective(path, p);
      if p != path {
        assert FromCurrentPair(w, p, w.cache.session[StorageKey(p)].cached.data);
      }
    }
    forall p | p in c1.memoryReadCache ensures FromCurrentPair(w1, p, c1.memoryReadCache[p].data) {
      if p != path {
        assert FromCurrentPair(w, p, w.cache.memoryReadCache[p].data);
      }
    }
    forall i | 0 <= i < |w1.fetches| ensures FetchKnown(w1, w1.fetches[i]) {
      assert FetchKnown(w, w.fetches[i]);
    }
  }

  lemma ReceiveIsOrderly(w: World, f: nat, now: int, storage: bool, stored: bool)
    requires Orderly(w, stored) && f < |w.fetches| && w.fetches[f].stage.Answered? && w.fetches[f].stage.reply.Body?
    ensures var fetch := w.fetches[f]; var reply := fetch.stage.reply;
      Orderly(w.(cache := Received(w.cache, fetch.path, fetch.kind, fetch.generation, fetch.pathGeneration,
                                   Data(reply.version, f), reply.storable, now, storage)), stored)
  {
    var fetch := w.fetches[f];
    var d := Data(fetch.stage.reply.version, f);
    assert FetchKnown(w, fetch);
    if Pair(fetch.generation, fetch.pathGeneration) == PairOf(w.cache, fetch.path) {
      StoreIsOrderly(w, fetch.path, d, now, storage, stored);
    }
  }

  lemma ConcludeIsOrderly(w: World, path: string, kind: Kind, id: nat, success: bool, now: int, stored: bool)
    requires Orderly(w, stored)
    ensures Orderly(w.(cache := Concluded(w.cache, path, kind, id, success, now)), stored)
  {
    var c1 := Concluded(w.cache, path, kind, id, success, now);
    KeepingNoMoreIsOrderly(w, c1, [], stored);
    assert w.fetches + [] == w.fetches;
  }

  lemma ArriveIsOrderly(w: World, f: nat, now: int, storage: bool, fits: bool, stored: bool)
    requires Orderly(w, stored) && f < |w.fetches| && w.fetches[f].stage.Answered?
    requires stored && w.fetches[f].stage.reply == Refused(401) ==> storage
    ensures Orderly(ArriveStep(w, f, now, storage, fits), stored)
  {
    var fetch := w.fetches[f];
    assert FetchKnown(w, fetch);
    match fetch.stage.reply
    case Body(v, storable) =>
      ReceiveIsOrderly(w, f, now, storage && fits, stored);
      var c := Received(w.cache, fetch.path, fetch.kind, fetch.generation, fetch.pathGeneration, Data(v, f), storable,
                        now, storage && fits);
      StageIsOrderly(w.(cache := c), f, Resolved(Some(Data(v, f)), false), stored);
    case NoContent => StageIsOrderly(w, f, Resolved(None, false), stored);
    case Refused(status) =>
      if status == 401 {
        ClearIsOrderly(w, storage, stored);
      }
      StageIsOrderly(w.(cache := if status == 401 then Cleared(w.cache, storage) else w.cache), f, Rejected(false),
                     stored);
  }

  lemma SettleIsOrderly(w: World, f: nat, now: int, stored: bool)
    requires Orderly(w, stored) && f < |w.fetches|
    ensures Orderly(SettleStep(w, f, now), stored)
  {
    var fetch := w.fetches[f];
    assert FetchKnown(w, fetch);
    match fetch.stage
    case Resolved(r, false) =>
      ConcludeIsOrderly(w, fetch.path, fetch.kind, f, true, now, stored);
      StageIsOrderly(w.(cache := Concluded(w.cache, fetch.path, fetch.kind, f, true, now)),
                     f, Resolved(r, true), stored);
    case Rejected(false) =>
      ConcludeIsOrderly(w, fetch.path, fetch.kind, f, false, now, stored);
      StageIsOrderly(w.(cache := Concluded(w.cache, fetch.path, fetch.kind, f, false, now)), f, Rejected(true), stored);
    case _ =>
  }

  lemma LaterVersionIsOrderly(w: World, version: nat, floor: nat, mutations: seq<Mutation>, stored: bool)
    requires Orderly(w, stored) && w.version <= version
    ensures Orderly(w.(version := version, floor := floor, mutations := mutations), stored)
  {
    var w1 := w.(version := version, floor := floor, mutations := mutations);
    forall i | 0 <= i < |w1.fetches| ensures FetchKnown(w1, w1.fetches[i]) {
      assert FetchKnown(w, w.fetches[i]);
    }
  }

  lemma ReturnIsOrderly(w: World, m: nat, status: nat, readable: bool, storage: bool, stored: bool)
    requires Orderly(w, stored) && m < |w.mutations| && (stored && Clears(status, readable) ==> storage)
    ensures Orderly(ReturnStep(w, m, status, readable, storage), stored)
  {
    hide Orderly, Cleared;
    var w1 := ReturnStep(w, m, status, readable, storage);
    if Clears(status, readable) {
      ClearIsOrderly(w, storage, stored);
    }
    LaterVersionIsOrderly(w.(cache := w1.cache), w.version, w1.floor, w1.mutations, stored);
  }

  lemma StepIsOrderly(w: World, s: Step, stored: bool)
    requires Orderly(w, stored) && (stored ==> StorageWorks(w, s))
    ensures Orderly(Next(w, s), stored)
  {
    var w1 := Next(w, s);
    match s
    case Read(path, kind, ttlMs, now, storage) => ReadIsOrderly(w, path, kind, ttlMs, now, storage, stored);
    case Answer(f, shape) =>
      if f < |w.fetches| && w.fetches[f].stage.Travelling? {
        assert FetchKnown(w, w.fetches[f]);
        StageIsOrderly(w, f, w1.fetches[f].stage, stored);
      }
    case Arrive(f, now, storage, fits) =>
      if f < |w.fetches| && w.fetches[f].stage.Answered? {
        ArriveIsOrderly(w, f, now, storage, fits, stored);
      }
    case Settle(f, now) => if f < |w.fetches| { SettleIsOrderly(w, f, now, stored); }
    case Return(m, status, readable, storage) =>
      if m < |w.mutations| { ReturnIsOrderly(w, m, status, readable, storage, stored); }
    case Clear(storage) => ClearIsOrderly(w, storage, stored);
    case _ => LaterVersionIsOrderly(w, w1.version, w1.floor, w1.mutations, stored);
  }

  lemma {:induction false} RunIsOrderly(w: World, steps: seq<Step>, stored: bool)
    requires Orderly(w, stored) && (stored ==> AlwaysWorks(w, steps))
    ensures Orderly(Run(w, steps), stored)
    decreases |steps|
  {
    if steps != [] {
      StepIsOrderly(w, steps[0], stored);
      RunIsOrderly(Next(w, steps[0]), steps[1..], stored);
    }
  }

  /** Fetches stay on record, and the server's version never goes back. */
  predicate Extends(w: World, w1: World) {
    w.version <= w1.version && |w.fetches| <= |w1.fetches| &&
    forall i | 0 <= i < |w.fetches| :: w1.fetches[i].(stage := w.fetches[i].stage) == w.fetches[i]
  }

  lemma StepExtends(w: World, s: Step)
    ensures Extends(w, Next(w, s))
  {
  }

  lemma {:induction false} RunExtends(w: World, steps: seq<Step>)
    ensures Extends(w, Run(w, steps))
    decreases |steps|
  {
    if steps != [] {
      StepExtends(w, steps[0]);
      RunExtends(Next(w, steps[0]), steps[1..]);
    }
  }

  /** The data is at least as new as the refresh `refresh` that left when the server was at `version`. */
  predicate SinceRefresh(d: Data, refresh: nat, version: nat) {
    refresh <= d.fetchId && version <= d.version
  }

  lemma CurrentDataIsSinceRefresh(w: World, s: Step, path: string, w3: World, d: Data)
    requires FetchesKnown(w) && FetchesKnown(w3) && Refreshes(w, s, path)
    requires Extends(Next(w, s), w3) && AtMost(PairOf(Next(w, s).cache, path), PairOf(w3.cache, path))
    requires FromCurrentPair(w3, path, d)
    ensures SinceRefresh(d, |w.fetches|, w.version)
  {
    StepMovesPairUp(w, s, path);
    StepExtends(w, s);
    assert forall i | 0 <= i < |w.fetches| :: FetchKnown(w, w.fetches[i]);
    assert Next(w, s).fetches[|w.fetches|].issuedVersion == w.version;
  }

  /**
   A refresh is never undone: whatever runs after it, data cached in memory for its path was fetched by the
   refresh itself or by a read started later, and is no older than the server was at the refresh.
   */
  lemma RefreshIsNeverUndone(first: seq<Step>, s: Step, second: seq<Step>, path: string)
    requires Refreshes(Run(START, first), s, path)
    ensures var w := Run(START, first); var w3 := Run(Next(w, s), second);
      path in w3.cache.memoryReadCache ==> SinceRefresh(w3.cache.memoryReadCache[path].data, |w.fetches|, w.version)
  {
    hide Next, Refreshes, SinceRefresh;
    var w := Run(START, first);
    var w3 := Run(Next(w, s), second);
    RunAroundRefresh(first, s, second, path, false);
    if path in w3.cache.memoryReadCache {
      CurrentDataIsSinceRefresh(w, s, path, w3, w3.cache.memoryReadCache[path].data);
    }
  }

  /** The same for session storage, if it works whenever the run refreshes or clears. */
  lemma StoredRefreshIsNeverUndone(first: seq<Step>, s: Step, second: seq<Step>, path: string)
    requires AlwaysWorks(START, first) && AlwaysWorks(Next(Run(START, first), s), second)
    requires StorageWorks(Run(START, first), s) && Refreshes(Run(START, first), s, path)
    ensures var w := Run(START, first); var w3 := Run(Next(w, s), second);
      StorageKey(path) in w3.cache.session && w3.cache.session[StorageKey(path)].Entry? ==>
        SinceRefresh(w3.cache.session[StorageKey(path)].cached.data, |w.fetches|, w.version)
  {
    hide Next, Refreshes, SinceRefresh;
    var w := Run(START, first);
    var w3 := Run(Next(w, s), second);
    RunAroundRefresh(first, s, second, path, true);
    if StorageKey(path) in w3.cache.session && w3.cache.session[StorageKey(path)].Entry? {
      CurrentDataIsSinceRefresh(w, s, path, w3, w3.cache.session[StorageKey(path)].cached.data);
    }
  }

  lemma RunAroundRefresh(first: seq<Step>, s: Step, second: seq<Step>, path: string, stored: bool)
    requires stored ==> AlwaysWorks(START, first) && StorageWorks(Run(START, first), s)
    requires stored ==> AlwaysWorks(Next(Run(START, first), s), second)
    ensures var w := Run(START, first); var w3 := Run(Next(w, s), second);
      Orderly(w, stored) && Orderly(w3, stored) && Extends(Next(w, s), w3) &&
      AtMost(PairOf(Next(w, s).cache, path), PairOf(w3.cache, path))
  {
    hide Next;
    var w := Run(START, first);
    assert Orderly(START, stored);
    RunIsOrderly(START, first, stored);
    StepIsOrderly(w, s, stored);
    RunIsOrderly(Next(w, s), second, stored);
    RunExtends(Next(w, s), second);
    RunMovesPairUp(Next(w, s), second, path);
  }
}
