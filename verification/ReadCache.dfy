/**
 The browser client's read cache: what `frontend/lib/api.ts` keeps in module-level maps and
 counters, and what each synchronous stretch of `request` does to them.  JavaScript runs such a
 stretch without interruption, so a run is a sequence of stretches ("steps") in any order the
 event loop and the network allow.
 */
module ReadCache {
  import opened Outcomes

  const READ_CACHE_PREFIX := "dmp.read-cache.v1:"
  const FRESH_READ_THROTTLE_MS := 2_000

  /** The body of one reply: the server version it shows and the fetch that carried it. */
  datatype Data = Data(version: nat, fetchId: nat)

  datatype CachedRead = CachedRead(storedAt: int, data: Data)

  /** A session-storage value: a cached read, or text that does not parse as one. */
  datatype Raw = Entry(cached: CachedRead) | Unreadable

  datatype Kind = Plain | Fresh | Uncached

  datatype Cache = Cache(
    inFlightReads: map<string, nat>,
    inFlightFreshReads: map<string, nat>,
    memoryReadCache: map<string, CachedRead>,
    lastFreshReadAt: map<string, int>,
    readPathGenerations: map<string, nat>,
    readCacheGeneration: nat,
    session: map<string, Raw>)

  /** What a call to `request` ends in before it first waits. */
  datatype Start = Hit(data: Data) | Join(fetchId: nat) | Fetched(generation: nat, pathGeneration: nat)

  /***** Helpers *****/

  function StorageKey(path: string): string {
    READ_CACHE_PREFIX + path
  }

  lemma StorageKeyIsInjective(a: string, b: string)
    ensures StorageKey(a) == StorageKey(b) ==> a == b
  {
    assert StorageKey(a)[|READ_CACHE_PREFIX|..] == a;
    assert StorageKey(b)[|READ_CACHE_PREFIX|..] == b;
  }

  predicate IsCacheKey(key: string) {
    READ_CACHE_PREFIX <= key
  }

  predicate OccursAt(s: string, part: string, i: int) {
    0 <= i <= |s| - |part| && s[i..i + |part|] == part
  }

  predicate Includes(s: string, part: string) {
    exists i | 0 <= i <= |s| :: OccursAt(s, part, i)
  }

  predicate ReadCanPersist(path: string) {
    !Includes(path, "/credentials") &&
    (path == "/api/v1/setup/status" ||
     path == "/api/v1/meta" ||
     path == "/api/v1/nodes" ||
     "/api/v1/nodes/" <= path ||
     path == "/api/v1/projects" ||
     "/api/v1/projects/" <= path ||
     "/api/v1/discovery-jobs/" <= path ||
     path == "/api/v1/monitor/snapshot")
  }

  function PathGeneration(c: Cache, path: string): nat {
    if path in c.readPathGenerations then c.readPathGenerations[path] else 0
  }

  /** Is an entry of this age still inside its time to live?  The clock may have gone back. */
  predicate Valid(cached: CachedRead, ttlMs: int, now: int) {
    0 <= now - cached.storedAt < ttlMs
  }

  /***** The stretches, as functions of the cache *****/

  // In all of these `storage` says whether the browser's session storage can be used at that
  // moment; every access to it is wrapped in a handler that ignores a failure.  A write can also
  // fail alone, when the text is too long or the quota is used up (`fits` below).

  function Cleared(c: Cache, storage: bool): Cache {
    Cache(map[], map[], map[], map[], map[], c.readCacheGeneration + 1,
          if storage then map key | key in c.session && !IsCacheKey(key) :: c.session[key] else c.session)
  }

  function Invalidated(c: Cache, path: string, storage: bool): Cache {
    c.(inFlightReads := c.inFlightReads - {path},
       memoryReadCache := c.memoryReadCache - {path},
       readPathGenerations := c.readPathGenerations[path := PathGeneration(c, path) + 1],
       session := if storage then c.session - {StorageKey(path)} else c.session)
  }

  function LookedUp(c: Cache, path: string, ttlMs: int, now: int, storage: bool): (Cache, Option<Data>) {
    if path in c.memoryReadCache && Valid(c.memoryReadCache[path], ttlMs, now) then
      (c, Some(c.memoryReadCache[path].data))
    else
      var c1 := c.(memoryReadCache := c.memoryReadCache - {path});
      var key := StorageKey(path);
      if !ReadCanPersist(path) || !storage || key !in c1.session then (c1, None)
      else if c1.session[key].Entry? && Valid(c1.session[key].cached, ttlMs, now) then
        (c1, Some(c1.session[key].cached.data))
      else (c1.(session := c1.session - {key}), None)
  }

  function Stored(c: Cache, path: string, data: Data, now: int, storage: bool): Cache {
    var cached := CachedRead(now, data);
    var c1 := c.(memoryReadCache := c.memoryReadCache[path := cached]);
    if !ReadCanPersist(path) || !storage then c1
    else c1.(session := c1.session[StorageKey(path) := Entry(cached)])
  }

  function Launched(c: Cache, path: string, kind: Kind, id: nat): (Cache, Start) {
    var start := Fetched(c.readCacheGeneration, PathGeneration(c, path));
    match kind
    case Uncached => (c, start)
    case Plain => (c.(inFlightReads := c.inFlightReads[path := id]), start)
    case Fresh => (c.(inFlightFreshReads := c.inFlightFreshReads[path := id]), start)
  }

  /** `request` for a GET, up to its first wait; `id` names the fetch it would start. */
  function Requested(c: Cache, path: string, kind: Kind, ttlMs: int, now: int, storage: bool, id: nat): (Cache, Start) {
    match kind
    case Uncached => Launched(c, path, kind, id)
    case Plain =>
      var (c1, hit) := LookedUp(c, path, ttlMs, now, storage);
      if hit.Some? then (c1, Hit(hit.value))
      else if path in c1.inFlightReads then (c1, Join(c1.inFlightReads[path]))
      else Launched(c1, path, kind, id)
    case Fresh =>
      if path in c.inFlightFreshReads then (c, Join(c.inFlightFreshReads[path]))
      else
        var last := if path in c.lastFreshReadAt then c.lastFreshReadAt[path] else 0;
        var (c1, hit) := if now - last < FRESH_READ_THROTTLE_MS
                         then LookedUp(c, path, FRESH_READ_THROTTLE_MS, now, storage) else (c, None);
        if hit.Some? then (c1, Hit(hit.value))
        else Launched(Invalidated(c1, path, storage), path, kind, id)
  }

  /** A GET's body has arrived: keep it if neither generation moved since the fetch began. */
  function Received(c: Cache, path: string, kind: Kind, generation: nat, pathGeneration: nat,
                    data: Data, storable: bool, now: int, storage: bool): Cache {
    if kind != Uncached && generation == c.readCacheGeneration && pathGeneration == PathGeneration(c, path) && storable
    then Stored(c, path, data, now, storage) else c
  }

  /** The starter of a fetch resumes: note the time of a fresh success, leave the in-flight map. */
  function Concluded(c: Cache, path: string, kind: Kind, id: nat, success: bool, now: int): Cache {
    match kind
    case Uncached => c
    case Plain =>
      if path in c.inFlightReads && c.inFlightReads[path] == id
      then c.(inFlightReads := c.inFlightReads - {path}) else c
    case Fresh =>
      var c1 := if success then c.(lastFreshReadAt := c.lastFreshReadAt[path := now]) else c;
      if path in c1.inFlightFreshReads && c1.inFlightFreshReads[path] == id
      then c1.(inFlightFreshReads := c1.inFlightFreshReads - {path}) else c1
  }

  /***** The client together with a server that has a version number *****/

  datatype Reply = Body(version: nat, storable: bool) | NoContent | Refused(status: nat)

  datatype Stage =
    | Travelling
    | Answered(reply: Reply)
    | Resolved(result: Option<Data>, settled: bool)
    | Rejected(settled: bool)

  /** One network read: the generations it began under and the server version at that moment. */
  datatype Fetch = Fetch(path: string, kind: Kind, generation: nat, pathGeneration: nat, issuedVersion: nat,
                         stage: Stage)

  datatype Source = FromCache(data: Data) | FromFetch(fetchId: nat)

  /** One call of `request`, with the newest acknowledged write at the moment of the call. */
  datatype Call = Call(path: string, floor: nat, source: Source)

  datatype Mutation = Sent | Applied(version: nat) | Returned

  datatype World = World(cache: Cache, version: nat, floor: nat, fetches: seq<Fetch>, calls: seq<Call>,
                         mutations: seq<Mutation>)

  datatype Step =
    | Read(path: string, kind: Kind, ttlMs: int, now: int, storage: bool)
    | Answer(fetchId: nat, reply: ReplyShape)
    | Arrive(fetchId: nat, now: int, storage: bool, fits: bool)
    | Settle(fetchId: nat, now: int)
    | OtherWrite
    | SendMutation
    | Apply(mutation: nat)
    | Return(mutation: nat, status: nat, readable: bool, storage: bool)
    | Clear(storage: bool)

  datatype ReplyShape = WithBody(storable: bool) | Empty | WithStatus(status: nat)

  const EMPTY_CACHE := Cache(map[], map[], map[], map[], map[], 0, map[])
  const START := World(EMPTY_CACHE, 0, 0, [], [], [])

  /**
   Does the promise of a write resolve, so that its caller is told that it succeeded?  Other than with 204
   the body has to be read first, and it must be JSON.
   */
  predicate Acknowledges(status: nat, readable: bool) {
    200 <= status < 300 && (status == 204 || readable)
  }

  /** Does the reply to a write make the client forget everything cached? */
  predicate Clears(status: nat, readable: bool) {
    status == 401 || Acknowledges(status, readable)
  }

  function ReadStep(w: World, path: string, kind: Kind, ttlMs: int, now: int, storage: bool): World {
    var (c, start) := Requested(w.cache, path, kind, ttlMs, now, storage, |w.fetches|);
    match start
    case Hit(data) => w.(cache := c, calls := w.calls + [Call(path, w.floor, FromCache(data))])
    case Join(f) => w.(cache := c, calls := w.calls + [Call(path, w.floor, FromFetch(f))])
    case Fetched(g, pg) =>
      w.(cache := c,
         calls := w.calls + [Call(path, w.floor, FromFetch(|w.fetches|))],
         fetches := w.fetches + [Fetch(path, kind, g, pg, w.version, Travelling)])
  }

  function WithStage(w: World, f: nat, stage: Stage): World
    requires f < |w.fetches|
  {
    w.(fetches := w.fetches[f := w.fetches[f].(stage := stage)])
  }

  function ArriveStep(w: World, f: nat, now: int, storage: bool, fits: bool): World
    requires f < |w.fetches| && w.fetches[f].stage.Answered?
  {
    var fetch := w.fetches[f];
    match fetch.stage.reply
    case Body(v, storable) =>
      var data := Data(v, f);
      var c := Received(w.cache, fetch.path, fetch.kind, fetch.generation, fetch.pathGeneration, data, storable, now,
                        storage && fits);
      WithStage(w.(cache := c), f, Resolved(Some(data), false))
    case NoContent => WithStage(w, f, Resolved(None, false))
    case Refused(status) =>
      WithStage(w.(cache := if status == 401 then Cleared(w.cache, storage) else w.cache), f, Rejected(false))
  }

  function SettleStep(w: World, f: nat, now: int): World
    requires f < |w.fetches|
  {
    var fetch := w.fetches[f];
    match fetch.stage
    case Resolved(r, false) =>
      WithStage(w.(cache := Concluded(w.cache, fetch.path, fetch.kind, f, true, now)), f, Resolved(r, true))
    case Rejected(false) =>
      WithStage(w.(cache := Concluded(w.cache, fetch.path, fetch.kind, f, false, now)), f, Rejected(true))
    case _ => w
  }

  /** A write comes back: a reply that acknowledges it clears the cache, 401 does so too, others do not. */
  function ReturnStep(w: World, m: nat, status: nat, readable: bool, storage: bool): World
    requires m < |w.mutations|
  {
    if Acknowledges(status, readable) then
      if w.mutations[m].Applied? then
        w.(cache := Cleared(w.cache, storage),
           floor := if w.floor < w.mutations[m].version then w.mutations[m].version else w.floor,
           mutations := w.mutations[m := Returned])
      else w
    else if w.mutations[m].Returned? then w
    else w.(cache := if Clears(status, readable) then Cleared(w.cache, storage) else w.cache,
            mutations := w.mutations[m := Returned])
  }

  /** One step; a step that is not possible in `w` changes nothing. */
  function Next(w: World, s: Step): World {
    match s
    case Read(path, kind, ttlMs, now, storage) => ReadStep(w, path, kind, ttlMs, now, storage)
    case Answer(f, shape) =>
      if f < |w.fetches| && w.fetches[f].stage.Travelling? then
        WithStage(w, f, Answered(match shape
                                 case WithBody(storable) => Body(w.version, storable)
                                 case Empty => NoContent
                                 case WithStatus(status) => Refused(status)))
      else w
    case Arrive(f, now, storage, fits) =>
      if f < |w.fetches| && w.fetches[f].stage.Answered? then ArriveStep(w, f, now, storage, fits) else w
    case Settle(f, now) => if f < |w.fetches| then SettleStep(w, f, now) else w
    case OtherWrite => w.(version := w.version + 1)
    case SendMutation => w.(mutations := w.mutations + [Sent])
    case Apply(m) =>
      if m < |w.mutations| && w.mutations[m].Sent?
      then w.(version := w.version + 1, mutations := w.mutations[m := Applied(w.version + 1)]) else w
    case Return(m, status, readable, storage) =>
      if m < |w.mutations| then ReturnStep(w, m, status, readable, storage) else w
    case Clear(storage) => w.(cache := Cleared(w.cache, storage))
  }

  function Run(w: World, steps: seq<Step>): World
    decreases |steps|
  {
    if steps == [] then w else Run(Next(w, steps[0]), steps[1..])
  }

  /***** Read your writes *****/

  /** The data a call has received so far, if any. */
  function Delivered(w: World, c: Call): Option<Data> {
    match c.source
    case FromCache(d) => Some(d)
    case FromFetch(f) =>
      if f < |w.fetches| && w.fetches[f].stage.Resolved? then w.fetches[f].stage.result else None
  }

  /** No call received data older than a write acknowledged before the call was made. */
  predicate ReadYourWrites(w: World) {
    forall i | 0 <= i < |w.calls| ::
      Delivered(w, w.calls[i]).Some? ==> w.calls[i].floor <= Delivered(w, w.calls[i]).value.version
  }

  /** Whatever this fetch delivers, now or later, is at least at version `bound`. */
  predicate AtLeast(f: Fetch, bound: nat) {
    match f.stage
    case Answered(Body(v, _)) => bound <= v
    case Resolved(Some(d), _) => bound <= d.version
    case _ => true
  }

  /** Session storage holds an entry that a read of `path` can return. */
  predicate Readable(c: Cache, path: string) {
    ReadCanPersist(path) && StorageKey(path) in c.session && c.session[StorageKey(path)].Entry?
  }

  function Copy(c: Cache, path: string): CachedRead
    requires Readable(c, path)
  {
    c.session[StorageKey(path)].cached
  }

  /** Nothing that a read can return from session storage is older than version `bound`. */
  ghost predicate StorageAtLeast(c: Cache, bound: nat) {
    forall path | Readable(c, path) :: bound <= Copy(c, path).data.version
  }

  predicate MemoryAtLeast(c: Cache, bound: nat) {
    forall path | path in c.memoryReadCache :: bound <= c.memoryReadCache[path].data.version
  }

  /** A fetch that may still be shared began in the current generation. */
  predicate Current(w: World, inFlight: map<string, nat>) {
    forall path | path in inFlight ::
      inFlight[path] < |w.fetches| && w.fetches[inFlight[path]].generation == w.cache.readCacheGeneration
  }

  predicate FetchesSound(w: World) {
    forall f | 0 <= f < |w.fetches| ::
      w.fetches[f].generation <= w.cache.readCacheGeneration &&
      (w.fetches[f].generation == w.cache.readCacheGeneration ==> AtLeast(w.fetches[f], w.floor))
  }

  predicate CallsSound(w: World) {
    forall i | 0 <= i < |w.calls| ::
      w.calls[i].floor <= w.floor &&
      match w.calls[i].source
      case FromCache(d) => w.calls[i].floor <= d.version
      case FromFetch(f) => f < |w.fetches| && AtLeast(w.fetches[f], w.calls[i].floor)
  }

  predicate MutationsSound(w: World) {
    forall m | 0 <= m < |w.mutations| :: w.mutations[m].Applied? ==> w.mutations[m].version <= w.version
  }

  /** Everything except what session storage holds. */
  predicate SoundInMemory(w: World) {
    w.floor <= w.version &&
    MemoryAtLeast(w.cache, w.floor) &&
    Current(w, w.cache.inFlightReads) && Current(w, w.cache.inFlightFreshReads) &&
    FetchesSound(w) && CallsSound(w) && MutationsSound(w)
  }

  ghost predicate Sound(w: World) {
    SoundInMemory(w) && StorageAtLeast(w.cache, w.floor)
  }

  /** Session storage could be emptied whenever a write was acknowledged. */
  predicate Dependable(s: Step) {
    s.Return? && Acknowledges(s.status, s.readable) ==> s.storage
  }

  lemma DropKeepsStorage(c: Cache, c1: Cache, bound: nat)
    requires StorageAtLeast(c, bound)
    requires forall key | key in c1.session :: key in c.session && c1.session[key] == c.session[key]
    ensures StorageAtLeast(c1, bound)
  {
    forall path | Readable(c1, path) ensures bound <= Copy(c1, path).data.version {
      assert Readable(c, path);
    }
  }

  lemma StoreKeepsStorage(c: Cache, path: string, data: Data, now: int, storage: bool, bound: nat)
    requires StorageAtLeast(c, bound) && bound <= data.version
    ensures StorageAtLeast(Stored(c, path, data, now, storage), bound)
  {
    var c1 := Stored(c, path, data, now, storage);
    forall p | Readable(c1, p) ensures bound <= Copy(c1, p).data.version {
      StorageKeyIsInjective(path, p);
      if p != path {
        assert Readable(c, p);
      }
    }
  }

  lemma ClearKeepsStorage(c: Cache, storage: bool, bound: nat)
    requires storage || StorageAtLeast(c, bound)
    ensures StorageAtLeast(Cleared(c, storage), bound)
  {
    if storage {
      forall path ensures !Readable(Cleared(c, true), path) {
        assert IsCacheKey(StorageKey(path));
      }
    } else {
      DropKeepsStorage(c, Cleared(c, false), bound);
    }
  }

  lemma LookupKeepsSound(c: Cache, path: string, ttlMs: int, now: int, storage: bool, bound: nat)
    requires MemoryAtLeast(c, bound) && StorageAtLeast(c, bound)
    ensures var (c1, hit) := LookedUp(c, path, ttlMs, now, storage);
      MemoryAtLeast(c1, bound) && StorageAtLeast(c1, bound) &&
      (hit.Some? ==> bound <= hit.value.version) &&
      c1.inFlightReads == c.inFlightReads && c1.inFlightFreshReads == c.inFlightFreshReads &&
      c1.readPathGenerations == c.readPathGenerations && c1.readCacheGeneration == c.readCacheGeneration
  {
    var (c1, hit) := LookedUp(c, path, ttlMs, now, storage);
    DropKeepsStorage(c, c1, bound);
    if hit.Some? && !(path in c.memoryReadCache && Valid(c.memoryReadCache[path], ttlMs, now)) {
      assert Readable(c, path);
    }
  }

  lemma LaunchKeepsStorage(c: Cache, path: string, kind: Kind, id: nat, bound: nat)
    requires StorageAtLeast(c, bound)
    ensures StorageAtLeast(Launched(c, path, kind, id).0, bound)
  {
    DropKeepsStorage(c, Launched(c, path, kind, id).0, bound);
  }

  lemma InvalidateKeepsSound(c: Cache, path: string, storage: bool, bound: nat)
    requires MemoryAtLeast(c, bound) && StorageAtLeast(c, bound)
    ensures MemoryAtLeast(Invalidated(c, path, storage), bound) && StorageAtLeast(Invalidated(c, path, storage), bound)
  {
    DropKeepsStorage(c, Invalidated(c, path, storage), bound);
  }

  /** In-flight entries come from before the call, except for the fetch it starts. */
  predicate Grown(before: map<string, nat>, after: map<string, nat>, id: nat) {
    forall path | path in after :: after[path] == id || (path in before && after[path] == before[path])
  }

  /** What a request may leave in the cache `c`, and what it may end in before it first waits. */
  ghost predicate StartsSound(c: Cache, c1: Cache, start: Start, id: nat, bound: nat) {
    MemoryAtLeast(c1, bound) && StorageAtLeast(c1, bound) && c1.readCacheGeneration == c.readCacheGeneration &&
    match start
    case Hit(data) =>
      bound <= data.version && c1.inFlightReads == c.inFlightReads && c1.inFlightFreshReads == c.inFlightFreshReads
    case Join(f) =>
      c1.inFlightReads == c.inFlightReads && c1.inFlightFreshReads == c.inFlightFreshReads &&
      (f in c.inFlightReads.Values || f in c.inFlightFreshReads.Values)
    case Fetched(g, _) =>
      g == c.readCacheGeneration && Grown(c.inFlightReads, c1.inFlightReads, id) &&
      Grown(c.inFlightFreshReads, c1.inFlightFreshReads, id)
  }

  lemma LaunchStartsSound(c: Cache, c0: Cache, path: string, kind: Kind, id: nat, bound: nat)
    requires MemoryAtLeast(c0, bound) && StorageAtLeast(c0, bound) && c0.readCacheGeneration == c.readCacheGeneration
    requires Grown(c.inFlightReads, c0.inFlightReads, id) && Grown(c.inFlightFreshReads, c0.inFlightFreshReads, id)
    ensures var (c1, start) := Launched(c0, path, kind, id); StartsSound(c, c1, start, id, bound)
  {
    hide Readable, StorageKey;
    LaunchKeepsStorage(c0, path, kind, id, bound);
  }

  lemma PlainStartsSound(c: Cache, path: string, ttlMs: int, now: int, storage: bool, id: nat, bound: nat)
    requires MemoryAtLeast(c, bound) && StorageAtLeast(c, bound)
    ensures var (c1, start) := Requested(c, path, Plain, ttlMs, now, storage, id); StartsSound(c, c1, start, id, bound)
  {
    hide LookedUp, StorageKey, Launched, StorageAtLeast, MemoryAtLeast;
    var c1 := LookedUp(c, path, ttlMs, now, storage).0;
    LookupKeepsSound(c, path, ttlMs, now, storage, bound);
    LaunchStartsSound(c, c1, path, Plain, id, bound);
    assert path in c1.inFlightReads ==> c1.inFlightReads[path] in c.inFlightReads.Values;
  }

  lemma FreshStartsSound(c: Cache, path: string, ttlMs: int, now: int, storage: bool, id: nat, bound: nat)
    requires MemoryAtLeast(c, bound) && StorageAtLeast(c, bound)
    ensures var (c1, start) := Requested(c, path, Fresh, ttlMs, now, storage, id); StartsSound(c, c1, start, id, bound)
  {
    hide LookedUp, StorageKey, Launched, StorageAtLeast, MemoryAtLeast;
    var c1 := LookedUp(c, path, FRESH_READ_THROTTLE_MS, now, storage).0;
    LookupKeepsSound(c, path, FRESH_READ_THROTTLE_MS, now, storage, bound);
    InvalidateKeepsSound(c, path, storage, bound);
    InvalidateKeepsSound(c1, path, storage, bound);
    LaunchStartsSound(c, Invalidated(c, path, storage), path, Fresh, id, bound);
    LaunchStartsSound(c, Invalidated(c1, path, storage), path, Fresh, id, bound);
  }

  lemma RequestKeepsSound(c: Cache, path: string, kind: Kind, ttlMs: int, now: int, storage: bool, id: nat, bound: nat)
    requires MemoryAtLeast(c, bound) && StorageAtLeast(c, bound)
    ensures var (c1, start) := Requested(c, path, kind, ttlMs, now, storage, id); StartsSound(c, c1, start, id, bound)
  {
    hide LookedUp, StorageKey, StorageAtLeast, MemoryAtLeast, StartsSound;
    match kind
    case Uncached => LaunchStartsSound(c, c, path, kind, id, bound);
    case Plain => PlainStartsSound(c, path, ttlMs, now, storage, id, bound);
    case Fresh => FreshStartsSound(c, path, ttlMs, now, storage, id, bound);
  }

  lemma ReadKeepsSound(w: World, path: string, kind: Kind, ttlMs: int, now: int, storage: bool)
    requires Sound(w)
    ensures Sound(ReadStep(w, path, kind, ttlMs, now, storage))
  {
    hide Requested, StorageAtLeast, MemoryAtLeast;
    RequestKeepsSound(w.cache, path, kind, ttlMs, now, storage, |w.fetches|, w.floor);
    var (c, start) := Requested(w.cache, path, kind, ttlMs, now, storage, |w.fetches|);
    var w' := ReadStep(w, path, kind, ttlMs, now, storage);
    if start.Join? {
      assert start.fetchId < |w.fetches| && w.fetches[start.fetchId].generation == w.cache.readCacheGeneration;
    }
    assert CallsSound(w');
  }

  /** Moving a fetch on, with data at least as new as it may have delivered, keeps calls sound. */
  lemma StageKeepsSound(w: World, f: nat, stage: Stage)
    requires Sound(w) && f < |w.fetches|
    requires forall bound: nat | AtLeast(w.fetches[f], bound) && bound <= w.version ::
      AtLeast(w.fetches[f].(stage := stage), bound)
    ensures Sound(WithStage(w, f, stage))
  {
  }

  lemma ClearKeepsSound(w: World, storage: bool, floor: nat, mutations: seq<Mutation>)
    requires SoundInMemory(w) && w.floor <= floor <= w.version
    requires storage || StorageAtLeast(w.cache, floor)
    requires MutationsSound(w.(mutations := mutations))
    ensures Sound(w.(cache := Cleared(w.cache, storage), floor := floor, mutations := mutations))
  {
    ClearKeepsStorage(w.cache, storage, floor);
  }

  lemma ReceiveKeepsSound(w: World, f: nat, now: int, storage: bool)
    requires Sound(w) && f < |w.fetches| && w.fetches[f].stage.Answered? && w.fetches[f].stage.reply.Body?
    ensures var fetch := w.fetches[f]; var reply := fetch.stage.reply;
      Sound(w.(cache := Received(w.cache, fetch.path, fetch.kind, fetch.generation, fetch.pathGeneration,
                                 Data(reply.version, f), reply.storable, now, storage)))
  {
    var fetch := w.fetches[f];
    if fetch.generation == w.cache.readCacheGeneration {
      StoreKeepsStorage(w.cache, fetch.path, Data(fetch.stage.reply.version, f), now, storage, w.floor);
    }
  }

  lemma ArriveKeepsSound(w: World, f: nat, now: int, storage: bool, fits: bool)
    requires Sound(w) && f < |w.fetches| && w.fetches[f].stage.Answered?
    ensures Sound(ArriveStep(w, f, now, storage, fits))
  {
    match w.fetches[f].stage.reply
    case Body(v, storable) =>
      ReceiveKeepsSound(w, f, now, storage && fits);
      var fetch := w.fetches[f];
      var c := Received(w.cache, fetch.path, fetch.kind, fetch.generation, fetch.pathGeneration, Data(v, f), storable,
                        now, storage && fits);
      StageKeepsSound(w.(cache := c), f, Resolved(Some(Data(v, f)), false));
    case NoContent => StageKeepsSound(w, f, Resolved(None, false));
    case Refused(status) =>
      if status == 401 {
        ClearKeepsSound(w, storage, w.floor, w.mutations);
      }
      StageKeepsSound(w.(cache := if status == 401 then Cleared(w.cache, storage) else w.cache), f, Rejected(false));
  }

  lemma ConcludeKeepsSound(w: World, path: string, kind: Kind, id: nat, success: bool, now: int)
    requires Sound(w)
    ensures Sound(w.(cache := Concluded(w.cache, path, kind, id, success, now)))
  {
    DropKeepsStorage(w.cache, Concluded(w.cache, path, kind, id, success, now), w.floor);
  }

  lemma SettleKeepsSound(w: World, f: nat, now: int)
    requires Sound(w) && f < |w.fetches|
    ensures Sound(SettleStep(w, f, now))
  {
    var fetch := w.fetches[f];
    match fetch.stage
    case Resolved(r, false) =>
      ConcludeKeepsSound(w, fetch.path, fetch.kind, f, true, now);
      StageKeepsSound(w.(cache := Concluded(w.cache, fetch.path, fetch.kind, f, true, now)), f, Resolved(r, true));
    case Rejected(false) =>
      ConcludeKeepsSound(w, fetch.path, fetch.kind, f, false, now);
      StageKeepsSound(w.(cache := Concluded(w.cache, fetch.path, fetch.kind, f, false, now)), f, Rejected(true));
    case _ =>
  }

  lemma ReturnKeepsSound(w: World, m: nat, status: nat, readable: bool, storage: bool)
    requires Sound(w) && m < |w.mutations| && (Acknowledges(status, readable) ==> storage)
    ensures Sound(ReturnStep(w, m, status, readable, storage))
  {
    if Acknowledges(status, readable) {
      if w.mutations[m].Applied? {
        var floor := if w.floor < w.mutations[m].version then w.mutations[m].version else w.floor;
        ClearKeepsSound(w, storage, floor, w.mutations[m := Returned]);
      }
    } else if Clears(status, readable) {
      ClearKeepsSound(w, storage, w.floor, w.mutations[m := Returned]);
    }
  }

  lemma StepKeepsSound(w: World, s: Step)
    requires Sound(w) && Dependable(s)
    ensures Sound(Next(w, s))
  {
    match s
    case Read(path, kind, ttlMs, now, storage) => ReadKeepsSound(w, path, kind, ttlMs, now, storage);
    case Answer(f, shape) =>
      if f < |w.fetches| && w.fetches[f].stage.Travelling? {
        var w' := Next(w, s);
        StageKeepsSound(w, f, w'.fetches[f].stage);
      }
    case Arrive(f, now, storage, fits) =>
      if f < |w.fetches| && w.fetches[f].stage.Answered? {
        ArriveKeepsSound(w, f, now, storage, fits);
      }
    case Settle(f, now) => if f < |w.fetches| { SettleKeepsSound(w, f, now); }
    case Return(m, status, readable, storage) =>
      if m < |w.mutations| { ReturnKeepsSound(w, m, status, readable, storage); }
    case Clear(storage) => ClearKeepsSound(w, storage, w.floor, w.mutations);
    case _ =>
  }

  lemma {:induction false} RunKeepsSound(w: World, steps: seq<Step>)
    requires Sound(w) && forall i | 0 <= i < |steps| :: Dependable(steps[i])
    ensures Sound(Run(w, steps))
    decreases |steps|
  {
    if steps != [] {
      StepKeepsSound(w, steps[0]);
      RunKeepsSound(Next(w, steps[0]), steps[1..]);
    }
  }

  lemma StartIsSound()
    ensures Sound(START)
  {
  }

  lemma SoundReadsItsWrites(w: World)
    requires CallsSound(w)
    ensures ReadYourWrites(w)
  {
  }

  /** In every run in which storage works when a write is acknowledged, reads see the write. */
  lemma ReadYourWritesAlways(steps: seq<Step>)
    requires forall i | 0 <= i < |steps| :: Dependable(steps[i])
    ensures ReadYourWrites(Run(START, steps))
  {
    hide Run;
    StartIsSound();
    RunKeepsSound(START, steps);
    SoundReadsItsWrites(Run(START, steps));
  }

  /***** What the conditions are for *****/

  /** Whatever follows, as long as storage works when later writes are acknowledged, reads see their writes. */
  ghost predicate KeepsReadYourWrites(w: World) {
    forall steps: seq<Step> | (forall i | 0 <= i < |steps| :: Dependable(steps[i])) :: ReadYourWrites(Run(w, steps))
  }

  lemma SoundKeepsReadYourWrites(w: World)
    requires Sound(w)
    ensures KeepsReadYourWrites(w)
  {
    forall steps: seq<Step> | (forall i | 0 <= i < |steps| :: Dependable(steps[i]))
      ensures ReadYourWrites(Run(w, steps)) {
      RunKeepsSound(w, steps);
      SoundReadsItsWrites(Run(w, steps));
    }
  }

  /** With nothing in memory, an old copy that can be read is what a read at its own time returns. */
  lemma OldCopyIsServed(w: World, path: string)
    requires path !in w.cache.memoryReadCache && Readable(w.cache, path)
    requires Copy(w.cache, path).data.version < w.floor
    ensures !KeepsReadYourWrites(w)
  {
    var s := Read(path, Plain, 1, Copy(w.cache, path).storedAt, true);
    var w1 := Next(w, s);
    var call := w1.calls[|w.calls|];
    assert call == Call(path, w.floor, FromCache(Copy(w.cache, path).data));
    assert Delivered(w1, call) == Some(Copy(w.cache, path).data);
    assert Run(w, [s]) == w1;
  }

  /**
   Exactly when an acknowledged write whose storage clean-up failed is still harmless: when nothing that a
   read could return from storage is older than the newest acknowledged write.
   */
  lemma FailedCleanUpIsHarmlessExactlyWhen(w: World, m: nat, status: nat, readable: bool)
    requires Sound(w) && m < |w.mutations| && w.mutations[m].Applied? && Acknowledges(status, readable)
    ensures var w' := Next(w, Return(m, status, readable, false));
      KeepsReadYourWrites(w') <==>
      forall path | Readable(w.cache, path) :: w'.floor <= Copy(w.cache, path).data.version
  {
    var w' := Next(w, Return(m, status, readable, false));
    assert w'.cache.session == w.cache.session;
    if path :| Readable(w.cache, path) && Copy(w.cache, path).data.version < w'.floor {
      assert Readable(w'.cache, path);
      OldCopyIsServed(w', path);
    } else {
      ClearKeepsSound(w, false, w'.floor, w.mutations[m := Returned]);
      SoundKeepsReadYourWrites(w');
    }
  }

  /** Does session storage hold a copy of `data` that a read at `now` would return? */
  predicate HasCopy(c: Cache, path: string, ttlMs: int, now: int, data: Data) {
    Readable(c, path) && Valid(Copy(c, path), ttlMs, now) && Copy(c, path).data == data
  }

  /**
   Data from before a write that took effect: a read is still answered with it after the reply if and only if
   the reply was an error other than 401 or an answer whose body could not be read, or the clean-up failed and
   session storage has a copy.
   */
  lemma OldDataIsServedExactlyWhen(w: World, m: nat, status: nat, readable: bool, cleaned: bool, path: string,
                                   ttlMs: int, now: int, storage: bool)
    requires m < |w.mutations| && w.mutations[m].Applied? && LookedUp(w.cache, path, ttlMs, now, storage).1.Some?
    ensures var data := LookedUp(w.cache, path, ttlMs, now, storage).1.value;
      var w' := Next(Next(w, Return(m, status, readable, cleaned)), Read(path, Plain, ttlMs, now, storage));
      Delivered(w', w'.calls[|w'.calls| - 1]) == Some(data) <==>
      !Clears(status, readable) || (!cleaned && storage && HasCopy(w.cache, path, ttlMs, now, data))
  {
    hide StorageKey, ReadCanPersist, Acknowledges;
    var w1 := Next(w, Return(m, status, readable, cleaned));
    var w' := Next(w1, Read(path, Plain, ttlMs, now, storage));
    if Clears(status, readable) {
      ClearedLookup(w.cache, path, ttlMs, now, cleaned, storage);
      assert w1.cache == Cleared(w.cache, cleaned);
    } else {
      assert w1.cache == w.cache;
    }
    var start := Requested(w1.cache, path, Plain, ttlMs, now, storage, |w1.fetches|).1;
    assert w'.calls[|w'.calls| - 1].source == match start
      case Hit(data) => FromCache(data)
      case Join(f) => FromFetch(f)
      case Fetched(_, _) => FromFetch(|w1.fetches|);
  }

  lemma ClearedLookup(c: Cache, path: string, ttlMs: int, now: int, cleaned: bool, storage: bool)
    ensures LookedUp(Cleared(c, cleaned), path, ttlMs, now, storage).1 ==
            if !cleaned && storage && Readable(c, path) && Valid(Copy(c, path), ttlMs, now)
            then Some(Copy(c, path).data) else None
    ensures LookedUp(Cleared(c, cleaned), path, ttlMs, now, storage).0.inFlightReads == map[]
  {
    assert IsCacheKey(StorageKey(path));
  }

  const NODES := "/api/v1/nodes"
  const NODES_ENTRY := CachedRead(5_001, Data(0, 0))
  const READ_KEPT: seq<Step> :=
    [Read(NODES, Plain, 10_000, 5_000, true), Answer(0, WithBody(true)), Arrive(0, 5_001, true, true)]
  const WRITE_UNCLEANED: seq<Step> :=
    [SendMutation, Apply(0), Return(0, 200, true, false), Read(NODES, Plain, 10_000, 5_002, true)]

  lemma {:induction false} RunConcat(w: World, first: seq<Step>, second: seq<Step>)
    ensures Run(w, first + second) == Run(Run(w, first), second)
    decreases |first|
  {
    if first == [] {
      assert first + second == second;
    } else {
      assert (first + second)[1..] == first[1..] + second;
      RunConcat(Next(w, first[0]), first[1..], second);
    }
  }

  lemma NodesPersist()
    ensures ReadCanPersist(NODES)
  {
    forall i | 0 <= i <= |NODES| ensures !OccursAt(NODES, "/credentials", i) {
      if i <= |NODES| - 12 {
        assert NODES[i..i + 12][1] == NODES[i + 1] && i <= 1;
        assert NODES[i..i + 12][2] == NODES[i + 2];
      }
    }
  }

  lemma ReadIsKept()
    ensures var w := Run(START, READ_KEPT);
      w.cache.session == map[StorageKey(NODES) := Entry(NODES_ENTRY)] &&
      w.floor == 0 && w.version == 0 && w.mutations == []
  {
    NodesPersist();
    var w1 := Next(START, READ_KEPT[0]);
    assert w1.fetches == [Fetch(NODES, Plain, 0, 0, 0, Travelling)];
    var w2 := Next(w1, READ_KEPT[1]);
    assert w2.cache == w1.cache;
    assert w2.fetches == [Fetch(NODES, Plain, 0, 0, 0, Answered(Body(0, true)))];
    var w3 := Next(w2, READ_KEPT[2]);
    assert READ_KEPT[1..][0] == READ_KEPT[1] && READ_KEPT[1..][1..][0] == READ_KEPT[2];
    assert Run(START, READ_KEPT) == Run(w1, READ_KEPT[1..]) == Run(w2, READ_KEPT[1..][1..]) == w3;
  }

  /** A run in which storage fails as a write is acknowledged, and the next read is stale. */
  lemma FailedCleanUpBreaksReadYourWrites()
    ensures !ReadYourWrites(Run(START, READ_KEPT + WRITE_UNCLEANED))
  {
    ReadIsKept();
    NodesPersist();
    var w := Run(START, READ_KEPT);
    RunConcat(START, READ_KEPT, WRITE_UNCLEANED);
    var w1 := Next(w, WRITE_UNCLEANED[0]);
    var w2 := Next(w1, WRITE_UNCLEANED[1]);
    var w3 := Next(w2, WRITE_UNCLEANED[2]);
    var w4 := Next(w3, WRITE_UNCLEANED[3]);
    assert w3.floor == 1 && w3.cache.session == w.cache.session;
    var call := w4.calls[|w4.calls| - 1];
    assert call == Call(NODES, 1, FromCache(Data(0, 0)));
    assert Delivered(w4, call) == Some(Data(0, 0));
    var rest := WRITE_UNCLEANED;
    assert rest[1..][0] == rest[1] && rest[1..][1..][0] == rest[2] && rest[1..][1..][1..][0] == rest[3];
    assert Run(w, rest) == Run(w1, rest[1..]) == Run(w2, rest[1..][1..]) == Run(w3, rest[1..][1..][1..]) == w4;
  }
}
