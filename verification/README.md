# Verified model of the device management platform

This project models the parts of the platform whose correctness depends on the order of events, on
exact text or on exact arithmetic, and proves what they promise.  `dafny verify dfyconfig.toml` checks
all of it.

- **The client's read cache** (`ReadCache`, `ReadCacheOrder`, `ReadCacheSharing`, `ReadCacheClient`): in-flight
  requests, a memory and a storage cache, a global generation and per-path generations that are reset with it.
- **Access sessions** (`AccessStore`, `AccessGrants`, `AccessRows`): guarded row updates, the triggers that
  feed the access log, cascading deletions.  **Revocation** (`Gateway`, `Revocations`) adds the registries and
  tombstones of the two gateways, **Activity** (with `LiveTraffic`) the trackers that ask the database at most
  every 30 seconds, and **Terminal** the goroutines of one WebSSH terminal.  They run on top of the session
  store: any of its operations may happen between their steps.
- **Discovery** (`Prefixes`, `NetworkLists`, `DiscoveryPool`, `DiscoveryEnds`, `DiscoveryJob`): IPv4 networks as
  text and as ranges, the worker pool with its channels and cancellation, and the two together.
- **Second factor** (`MfaStore`, `MfaCodes`, `MfaRows`, `MfaStatements`): challenges driven by the login handlers,
  one handler call a step, the transactions behind them, and first logins statement by statement.
- **Settings** (`Durations`, `SettingsFile`, `Settings`, `SettingsPage`): the override file character by character,
  environment locks, `Save` and `Current`.
- **Reconciliation and compensation** (`Endpoints`, `CredentialVault`, `StoredSecrets`): replacing a device's
  endpoints in one transaction; sealing credentials with undo steps.
- **Supporting parts** (`LoginLimiter`, `LoginWindows`, `Socks`, `TimeText`).

Protocols are state machines: a total `Next` in which a step that is not possible changes nothing, and
`Run` over any sequence of steps; lemmas about runs hold for every schedule.  Code that changes things
in place is a class whose methods are proved against the functions that those lemmas are about.  Safety comes
with its other half: what is refused is matched by what is granted, and what ends by runs that end well.  Time is
an explicit clock in nanoseconds that does not go back; the client's is in milliseconds and may.

Where the code does not do what one would expect, the model follows the code and states exactly when it
does:

- A write answered with an error, or with a body that cannot be read, does not clear the read cache, and a
  failed clean-up of session storage can leave stale data (`OldDataIsServedExactlyWhen`, `FailedCleanUpIsHarmlessExactlyWhen`).
- A tombstone lasts ten minutes; a dial that takes longer is let in after the revocation
  (`LateRequestIsAdmittedExactlyWhen`).
- An idle session may be revived by a call whose clock was read before the cutoff and that arrives
  later (`LateCallRevivesExactlyWhen`); the bound on traffic holds from the moment from which a session
  stays without authority (`TrafficIsBounded`), and two corollaries say when it does.
- A terminal passes on first and asks afterwards: what its monitor refuses may already have been sent
  (`RefusedMessageStillArrives`, `CancelledTerminalIsCut`).
- A grant is spent even if its session ends between the two statements of an exchange
  (`ExchangeAccessGrant`).
- A start of the second factor by mail that is overtaken by another delivery can put its code on the new
  address (`OwnCodeExactlyWhen`, `OvertakenStartBindsUnmatchedAddress`).
- A discovery run cancelled before its first write, or whose first write fails, writes no terminal
  state; the cancelling handler does if its write succeeds (`OneTerminalWrite`, `CancelEndsTerminal`).  A cancelled producer
  drops only the rest of the current network and goes on with the next.
- An endpoint with an id given beforehand is never inserted by a replacement (`PregeneratedIdIsLost`);
  saving SSH credentials for a new endpoint of an existing device gives it such an id.  Entries are
  applied in their order, so two endpoints cannot exchange targets (`ReplacementSucceedsExactlyWhen`).
- A credential row that cannot be read just before it is overwritten is deleted by the undo steps
  (`FailureRestoresExactlyWhen`, `UnreadRowIsLost`).
- Texts wrapped in quotes and access ports out of range do not survive the settings file, and some
  changes pass the check of locked fields but are not kept (`PrintedSettingsReadBackExactlyWhen`,
  `AcceptedIsFixedExactlyWhen`, `SavedIsShownExactlyWhen`).
- Clearing the mail password leaves the running one pending until a restart, and the next save protects
  it again (`ClearedPasswordComesBack`).
- The limiter's eviction uses the empty key as a marker (`EvictOldest`, `EmptyKeyPassesTheBound`).
- Trimmed fractions make whole seconds sort after every fraction of theirs (`FractionsDecideExactlyWhen`).

## Model

| member | source | states |
|---|---|---|
| ReadCache.ReadYourWritesAlways | frontend/lib/api.ts:43-206 | In every interleaving of reads, fresh reads, responses, writes and clears in which storage works when a write is acknowledged, a read started after an acknowledged write is never answered with data fetched before it, from memory, session storage or a shared request. |
| ReadCache.RunKeepsSound | frontend/lib/api.ts:43-206 | Every step keeps the invariant behind it: data that a read can return from a cache, and shared requests, are at least as new as the last acknowledged write, and a response with an old pair of generations is not stored. |
| ReadCache.FailedCleanUpIsHarmlessExactlyWhen | frontend/lib/api.ts:51-58 | If clearing session storage fails silently when a write is acknowledged, every continuation in which later clean-ups work still reads its writes if and only if no copy that a read can return from storage is older than the newest acknowledged write. |
| ReadCache.FailedCleanUpBreaksReadYourWrites | frontend/lib/api.ts:51-58 | A concrete run in which that failure makes the next read stale. |
| ReadCache.OldDataIsServedExactlyWhen | frontend/lib/api.ts:165-183 | Data that memory or storage would serve for a write that took effect: after the reply a read is still answered with it if and only if the reply was an error other than 401 or an answer whose body could not be read, or the clean-up failed and storage has a copy. |
| ReadCacheOrder.RunMovesPairUp | frontend/lib/api.ts:43-67 | The pair of global and per-path generation only moves up, although the per-path part is reset. |
| ReadCacheOrder.PairNeverRecurs | frontend/lib/api.ts:43-67 | Once a path has been invalidated or the cache cleared, the pair it had before never comes back. |
| ReadCacheOrder.RefreshIsNeverUndone | frontend/lib/api.ts:143-206 | After a refresh, data cached in memory for its path was fetched by it or by a later read, in every run: an older plain read never overwrites it. |
| ReadCacheOrder.StoredRefreshIsNeverUndone | frontend/lib/api.ts:61-67 | The same for session storage, for runs in which storage works whenever they refresh or clear. |
| ReadCacheSharing.SharesExactlyWhen | frontend/lib/api.ts:143-206 | In every run a read shares an earlier request if and only if that request is of its own path and kind, has not settled, began under the present generations, and nothing cached can be served. |
| ReadCacheSharing.FetchesExactlyWhen | frontend/lib/api.ts:143-206 | A read begins a new request if and only if there is nothing to share and nothing to serve - for a refresh, unless the last one is under two seconds old. |
| ReadCacheSharing.ServedExactlyWhen | frontend/lib/api.ts:143-206 | And it is served from the cache if and only if memory, or else storage, has an entry of the right age, a refresh only while it is throttled and none is under way. |
| ReadCacheSharing.BodyIsDelivered | frontend/lib/api.ts:165-193 | The body of a reply reaches every caller that waits for its request. |
| ReadCacheSharing.BodyIsKept | frontend/lib/api.ts:183-193 | It is kept, for the path of the request alone, if and only if the generations have not moved and the reply allows it. |
| ReadCacheSharing.ForgettingIsComplete | frontend/lib/api.ts:43-59 | After a clear, an acknowledged write or a 401, in every run, nothing is kept or throttled and no earlier request is shared. |
| ReadCacheSharing.RefreshThrottles | frontend/lib/api.ts:197-205 | A refresh holds further ones off for two seconds if it succeeded, and not if it failed. |
| ReadCacheSharing.WriteIsSeen | frontend/lib/api.ts:165-206 | The promise on the steps alone: what a read delivers that began after a write was acknowledged is newer than anything the server had when the write took effect. |
| ReadCacheClient.Client.ClearReadCache | frontend/lib/api.ts:43-59 | All maps and the cache entries in storage are emptied and the generation raised. |
| ReadCacheClient.Client.RemoveCachedItems | frontend/lib/api.ts:51-55 | The loop over the storage keys, from the end while removing, drops exactly the cache entries. |
| ReadCacheClient.Client.InvalidateReadPath | frontend/lib/api.ts:61-67 | One path is dropped everywhere and its generation raised; all other paths keep theirs. |
| ReadCacheClient.Client.CachedReadOf | frontend/lib/api.ts:69-92 | Memory first, then storage; expired or unreadable entries are removed on the way. |
| ReadCacheClient.Client.StoreCachedRead | frontend/lib/api.ts:94-105 | Data is kept in memory and, for the persistent paths, in storage when it fits. |
| ReadCacheClient.Client.Request | frontend/lib/api.ts:143-206 | The part of a request before its first wait: throttled refresh, cache hit, joining, or a new fetch with the generations it must find again. |
| ReadCacheClient.Client.Receive | frontend/lib/api.ts:183-193 | A body is stored only if neither generation has moved since its request. |
| ReadCacheClient.Client.Conclude | frontend/lib/api.ts:197-205 | The shared request is forgotten by the request that is registered, and by no other, so that a later read fetches again (`ReadCacheSharing.SharesExactlyWhen`); a refresh leaves its time. |
| AccessStore.DeadStaysDead | backend/internal/store/access_sessions.go:79-224 | A session that is gone, ended, past its end, idle past the cutoff, or whose login has ended is never again accepted by exchange, resolve or touch, in any run with a clock that does not go back. |
| AccessStore.ResolveFollowsOneExchange | backend/internal/store/access_sessions.go:79-178 | Every resolve granted in a run follows exactly one exchange of that session. |
| AccessStore.NoSessionOutlivesItsLogin | backend/internal/api/api.go:1667-1677 | Whatever a session is granted, its end and the end of the login that created it are both ahead. |
| AccessStore.RunKeepsGood | backend/internal/store/access_sessions.go:40-352 | Every operation keeps rows and log rows consistent, tokens unique and exchanges single. |
| AccessStore.LogMirrorsSessions | backend/internal/store/migrations.go:409-432 | After every run the log row of a live session agrees with it on status, times of access, activity and end, and expiry. |
| AccessStore.LogRowsStay | backend/internal/store/migrations.go:409-432 | A log row outlives its session, no longer changes without it, and keeps its first access time for good. |
| AccessGrants.GrantWasCreated | backend/internal/store/access_sessions.go:76-178 | Whatever token and grant an exchange or resolve is granted for were created together, for that session, and no operation since has ended it - a revocation, or the end of its login, user or endpoint. |
| AccessGrants.DisabledUserIsGrantedNothing | backend/internal/store/access_sessions.go:85-90 | Whoever is granted anything was added or enabled and has not been disabled or deleted since. |
| AccessGrants.UsableStaysGranted | backend/internal/store/access_sessions.go:79-224 | A session that could be used, and was used within the idle limit, is still granted touches, its one exchange, and resolves after it, until its end, whatever harmless operations come between. |
| AccessGrants.NewSessionIsUsable | backend/internal/store/access_sessions.go:40-74 | A session just asked for by a live login can be used, until the end of that login. |
| AccessGrants.UseIsRecorded | backend/internal/store/access_sessions.go:101-224 | A touch moves session, log and login to its time, a resolve does so when the last record is 30 seconds old and changes nothing before; an exchange leaves its time. |
| AccessRows.Store.CreateAccessSession | backend/internal/store/access_sessions.go:40-77 | The row and its log row are inserted, or a constraint refuses both. |
| AccessRows.Store.ExchangeAccessGrant | backend/internal/store/access_sessions.go:79-99 | One exchangeable session is marked and resolved in a second statement: it is returned if and only if by then neither end has come and its endpoint is in its project; otherwise the grant is spent. If none matches nothing changes. That token and grant are the session's own is `AccessGrants.GrantWasCreated`. |
| AccessRows.Store.ResolveAccessGrant | backend/internal/store/access_sessions.go:101-178 | Returns the session that token and grant belong to (`AccessGrants.GrantWasCreated`); activity is written at most every 30 seconds, for session and login together. |
| AccessRows.Store.TouchAccessSession | backend/internal/store/access_sessions.go:180-224 | Both rows are touched exactly when session, login and user are live, else neither. |
| AccessRows.Store.RevokeAccessSession | backend/internal/store/access_sessions.go:306-333 | Only an active session is revoked; the log follows. |
| AccessRows.Store.RevokeResourceSessions | backend/internal/store/access_sessions.go:255-273 | Exactly the active sessions of the resource are revoked and returned. |
| AccessRows.Store.ExpireAccessSessions | backend/internal/store/access_sessions.go:335-352 | Exactly the active sessions that could not act any more are expired. |
| AccessRows.Store.ListActiveAccessSessions | backend/internal/store/access_sessions.go:226-253 | Each session that could act now and whose endpoint exists, once, latest activity first. |
| AccessRows.ListedIsWhatASweepLeaves | backend/internal/store/access_sessions.go:226-253 | In every reachable database the listing is exactly what a sweep at that moment would leave active, and exactly what a touch would be granted to. |
| AccessRows.SweepIsExact | backend/internal/store/access_sessions.go:335-352 | After a sweep a session is active if and only if it was and can still act. |
| Gateway.OnlySlowDialsSurvive | backend/internal/access/gateway.go:84-97 | In every interleaving of transactions, registry sections, dials and closes: once the revoking handler has returned, a connection of the session that is still live was resolved before the revocation and registered more than ten minutes after it. |
| Gateway.RevocationIsComplete | backend/internal/api/api.go:1822-1837 | If dials take at most ten minutes, then no Web connection of the session is left once the handler has returned, none can come, and every SSH one is cancelled. |
| Gateway.LateRequestIsAdmittedExactlyWhen | backend/internal/access/gateway.go:522-564 | A request that resolved before the revocation is admitted if and only if more than ten minutes have passed since the tombstone was set. |
| Gateway.SlowDialSlipsThrough | backend/internal/access/gateway.go:557-564 | For every usable session the slow run exists: its connection ends registered and open. |
| Gateway.NoGrantAfterRevocation | backend/internal/store/access_sessions.go:101-178 | After the row is revoked no request is granted the session again. |
| Gateway.RunKeepsGood | backend/internal/access/gateway.go:84-97 | Registry and connections agree, tombstones last ten minutes and belong to the one handler that revoked the row, in every run of either gateway. |
| Revocations.ConnectionStays | backend/internal/access/gateway.go:84-97 | However many sessions are revoked meanwhile, a connection that nobody closes stays open and registered. |
| Revocations.RequestIsAdmittedExactlyWhen | backend/internal/access/gateway.go:522-546 | In every run a request gets an open, registered connection of its own if and only if its session has no tombstone younger than ten minutes; nothing else changes. |
| Revocations.RevocationCanFinish | backend/internal/api/api.go:1822-1837 | From every reachable state the revoking handler can return by closing the connections it found, and no other session's are touched. |
| Gateway.WebGateway.Revoke | backend/internal/access/gateway.go:84-97 | Undisturbed, a fresh tombstone is left and every connection of the session is closed and unregistered. |
| Gateway.WebGateway.TrackWebActivityConn | backend/internal/access/gateway.go:522-546 | Refused if and only if a tombstone of the session is not yet ten minutes old, otherwise registered under the next number; expired tombstones go. |
| Gateway.WebGateway.UnregisterWebActivityConn | backend/internal/access/gateway.go:548-555 | The connection leaves, and the session with its last one. |
| Gateway.WebGateway.PruneRevokedLocked | backend/internal/access/gateway.go:557-564 | Exactly the tombstones older than ten minutes are removed. |
| Gateway.WebGateway.Close | backend/internal/access/gateway.go:602-610 | Closing twice is closing once. |
| Activity.TrafficIsBounded | backend/internal/access/gateway.go:485-501 | Once a session stops being touchable, for whatever reason, and stays so, no tracked connection of it moves a byte on a clock reading 30 seconds later or more - across all connections sharing trackers and with calls that arrive late. |
| Activity.TrafficOfEndedSessionIsBounded | backend/internal/access/gateway.go:485-501 | So, whatever calls arrive late, for every session that has ended or whose end or login's end has come. |
| Activity.TrafficOfDeadSessionIsBounded | backend/internal/access/gateway.go:485-501 | So for every session that is dead at some moment - ended, past an end, idle past the cutoff - unless one of its own calls read the clock before that moment and arrives after it. |
| Activity.FirstLateCallCloses | backend/internal/access/gateway.go:566-600 | The first read or write of a Web connection after those 30 seconds closes it and moves nothing. |
| Activity.LateTerminalIsPending | backend/internal/access/ssh_gateway.go:342-380 | A terminal asks after the fact: once anything received 30 seconds after that moment, or after its start, has been passed on in either direction, it is cancelled, or its monitor has a signal or a question before it that will be refused. |
| Activity.ThreeTurnsCancel | backend/internal/access/ssh_gateway.go:342-380 | From then on at most three turns of its monitor cancel it, whatever else happens between them. |
| Activity.CancelledShellIsCut | backend/internal/access/ssh_gateway.go:286-340 | In every run of everything together a cancelled terminal still sends one message at most and shows one chunk. |
| LiveTraffic.CallPassesExactlyWhen | backend/internal/access/gateway.go:566-600 | A read or write with bytes moves all of them and closes nothing if and only if nobody is to be asked, the last record is under 30 seconds old, or the database can be reached and the session touched; otherwise it moves nothing and is closed. |
| LiveTraffic.CallIsRecordedExactlyWhen | backend/internal/access/gateway.go:485-501 | The reading is left with tracker, session and login if and only if the database was asked and agreed. |
| LiveTraffic.AnswerCancelsExactlyWhen | backend/internal/access/ssh_gateway.go:366-379 | An answer cancels a terminal if and only if its session cannot be touched; otherwise it is recorded. |
| LiveTraffic.CancelledExactlyWhen | backend/internal/access/ssh_gateway.go:342-380 | Nothing else cancels a terminal but its idle timer, the end of its loop or somebody outside. |
| LiveTraffic.MessageIsSent | backend/internal/access/ssh_gateway.go:303-315 | A message that arrives is sent to the shell, whatever the monitor does meanwhile. |
| LiveTraffic.OutputIsShown | backend/internal/access/ssh_gateway.go:268-340 | Output that finds room in the channel can be shown, behind what was queued before it. |
| Terminal.CancelledTerminalIsCut | backend/internal/access/ssh_gateway.go:286-340 | Once a terminal is cancelled, at most one message is still written to the shell - the one in hand, or one whose read is under way - and at most one chunk of output to the browser, the one being written. |
| Terminal.RefusedMessageStillArrives | backend/internal/access/ssh_gateway.go:303-315 | The message whose own signal brings the refusal is written to the shell all the same. |
| Terminal.EverythingInOrder | backend/internal/access/ssh_gateway.go:268-340 | Each message reaches the shell once and in order, and so does the output that reaches the browser. |
| Activity.PassesExactlyWhen | backend/internal/access/gateway.go:485-501 | A tracker of a session that is not touchable lets bytes pass if and only if its last record is less than 30 seconds old. |
| Activity.LateCallRevivesExactlyWhen | backend/internal/store/access_sessions.go:180-224 | A call that read its clock while its session could act and arrives when it could no longer gives it back its authority if and only if the reading is within the idle limit and neither end has come by then. |
| Activity.RunKeepsBounded | backend/internal/access/gateway.go:485-501 | The bound on Web connections, and what terminals owe, hold step by step. |
| Activity.WebSessionActivityTracker.Touch | backend/internal/access/gateway.go:485-501 | Passes if and only if there is nobody to ask, the last record is under 30 seconds old or the session can be touched; in the last case the reading is recorded. |
| Activity.WebActivityConn.Read | backend/internal/access/gateway.go:566-581 | Bytes read are handed over if and only if the tracker may let them pass; refusal or the end closes the connection. |
| Activity.WebActivityConn.Write | backend/internal/access/gateway.go:583-600 | Bytes are sent if and only if the tracker may let them pass; refusal or an error closes the connection. |
| Prefixes.HostsAreExact | backend/internal/discovery/manager.go:494-509 | A network visits each of its addresses once, in ascending order, and no other; the number of visits is the count. |
| Prefixes.LastAddressIsVisited | backend/internal/discovery/manager.go:494-509 | 255.255.255.255 is reached. |
| Prefixes.ForEachHost | backend/internal/discovery/manager.go:494-509 | The loop visits the addresses in order, as text, up to the visit that asks to stop. |
| Prefixes.CountHosts | backend/internal/discovery/manager.go:480-492 | The sum of the sizes, or an error if any network does not parse. |
| Prefixes.MaskedIsRange | backend/internal/discovery/manager.go:511-521 | Masking gives one run of addresses below 2^32, the ones that share the leading bits. |
| Prefixes.PrefixRoundTrip | backend/internal/discovery/manager.go:511-521 | A printed IPv4 network parses to itself and is no plain address. |
| Prefixes.AddrRoundTrip | backend/internal/discovery/manager.go:511-521 | A printed IPv4 address parses to itself. |
| Prefixes.CanonicalCIDRs | backend/internal/api/api.go:2302-2323 | The loop with its set of seen texts computes the canonical list. |
| Prefixes.CanonicalForm | backend/internal/api/api.go:2302-2323 | No entry of the canonical list occurs twice or would be rewritten again. |
| Prefixes.CanonicalTwice | backend/internal/api/api.go:2302-2323 | Canonicalising twice is canonicalising once. |
| Prefixes.CanonicalKeepsCoverage | backend/internal/api/api.go:2302-2323 | The canonical list stands for the same addresses. |
| NetworkLists.NetworksAreListedOnce | backend/internal/api/api.go:2302-2323 | No two entries of the canonical list stand for the same addresses, however they were spelled. |
| NetworkLists.CanonicalHoldsExactly | backend/internal/api/api.go:2302-2323 | The list holds exactly the spelling of each entry that is not blank: first address and length, or the text itself if it is no network. |
| Prefixes.ValidateDiscoveryNetworks | backend/internal/api/api.go:2148-2176 | A request is accepted if and only if every network lies inside an allowed one; otherwise the first offence decides the message. |
| Prefixes.ScopeIsContained | backend/internal/api/api.go:2148-2176 | An accepted request only visits addresses of allowed networks. |
| DiscoveryPool.EveryProbeOnce | backend/internal/discovery/manager.go:151-225 | In every schedule no result is received twice, what probes found is saved exactly when received, and a run that ends as completed has received all results. That such runs exist for every job is `DiscoveryEnds.EveryJobCanComplete`. |
| DiscoveryPool.OneTerminalWrite | backend/internal/store/discovery.go:168-198 | Reported progress never decreases and stays in 0..100; exactly one terminal state is written, last - unless the very first write failed, and then none. Which state, and when, is `DiscoveryEnds.EndsExactlyAsDecided`. |
| DiscoveryPool.NothingAfterCancelReturns | backend/internal/discovery/manager.go:76-88 | Once `Cancel` has returned, the run saves, writes, starts and probes nothing more. |
| DiscoveryPool.SchedulesAreFinite | backend/internal/discovery/manager.go:151-225 | With or without cancellation every schedule ends, within a number of steps known beforehand. |
| DiscoveryPool.NeverStuck | backend/internal/discovery/manager.go:151-225 | Until the run is over some step other than cancelling can be taken. |
| DiscoveryPool.CanFinish | backend/internal/discovery/manager.go:151-225 | From any reachable state the run can be brought to its end without cancelling it; if nobody has cancelled it before, it then completes. |
| DiscoveryEnds.EndsExactlyAsDecided | backend/internal/discovery/manager.go:151-225 | A run completes if and only if it finishes without a cancellation before, is canceled if and only if it finishes after one, has failed if and only if tunnel or route did, and does not begin if and only if its first write fails or a cancellation came before it. |
| DiscoveryEnds.LastWriteTells | backend/internal/discovery/manager.go:203-224 | The last write is 100 percent for a completed run, 0 for a failed one, and for a canceled or unfinished one the share of the results received, rounded down. |
| DiscoveryEnds.CompletedIsShown | backend/internal/discovery/manager.go:224 | A run that finishes uncancelled and can write leaves its job shown as completed to 100 percent, for good. |
| DiscoveryEnds.CanComplete | backend/internal/discovery/manager.go:151-225 | From every reachable state that nobody has disturbed there is a schedule after which the job is completed. |
| DiscoveryEnds.EveryJobCanComplete | backend/internal/discovery/manager.go:151-225 | Every job has a run that completes it, with every probe's result received. |
| DiscoveryEnds.SavedExactlyWhenFound | backend/internal/discovery/manager.go:203-214 | A completed run has saved exactly the results of the probes that ended by finding something. |
| DiscoveryPool.TerminalStays | backend/internal/store/discovery.go:168-198 | A terminal state in the database is never replaced. |
| DiscoveryPool.CancelEndsTerminal | backend/internal/api/api.go:2091-2108 | A cancelling handler whose write succeeds leaves the job terminal, whether it comes before the run begins, in the middle of it or after it; once the run is over, the row is terminal if and only if it was or such a write succeeds. |
| DiscoveryPool.EarlyCancelPreventsTheRun | backend/internal/discovery/manager.go:151-161 | If that write comes before the run begins, no tunnel is started, nothing is probed and nothing saved. |
| DiscoveryPool.RunKeepsPlaced | backend/internal/discovery/manager.go:167-210 | Every probe is in exactly one place, in every schedule. |
| DiscoveryJob.EveryAddressOnEveryPortOnce | backend/internal/discovery/manager.go:151-225 | A completed run has received the result of every address of every network on every port exactly once, `total` results in all; every job has such a run (`DiscoveryEnds.EveryJobCanComplete`). |
| DiscoveryJob.TotalIsHostsTimesPorts | backend/internal/discovery/manager.go:48-74 | The total that progress is measured against is the number of probes. |
| DiscoveryJob.NumberOfProbe | backend/internal/discovery/manager.go:185-199 | Every host and port of every network is handed out. |
| DiscoveryJob.NumbersDiffer | backend/internal/discovery/manager.go:185-199 | No two of them under one number. |
| DiscoveryJob.Manager.Start | backend/internal/discovery/manager.go:48-74 | Starts exactly jobs with a client, parsable networks, at least one and at most 2,000,000 probes and no run of that name; the first obstacle is reported. |
| MfaStore.EnrolmentBindsVerifiedAddress | backend/internal/store/mfa.go:198-244 | For every order of handler calls: an enrolment binds the address of the latest delivery on that challenge, whose code was matched since, and a new password had been set before it. |
| MfaStatements.EnrolmentBindsDeliveredAddress | backend/internal/store/mfa.go:99-140 | For every order of the handlers' reads and writes, statement by statement: an enrolment binds the address of the latest delivery on its challenge, after which a code was matched and before which a new password was kept. |
| MfaStatements.OwnCodeExactlyWhen | backend/internal/store/mfa.go:111-134 | That code is the one delivered to the address if and only if no start of the second factor takes effect between delivery and match; otherwise it is the latest start's. |
| MfaStatements.OvertakenStartBindsUnmatchedAddress | backend/internal/api/api.go:2753-2823 | A run in which a start overtaken by a delivery leads to an address no code of which was ever matched. |
| MfaStore.NoCodeTwice | backend/internal/store/mfa.go:245-262 | Within one enrolment accepted counters strictly increase from the enrolment's own (section 5.2 of RFC 6238), and no recovery code is accepted twice. |
| MfaStore.FiveFailuresOneSuccess | backend/internal/store/mfa.go:179-188 | A challenge counts at most five failures and succeeds at most once. |
| MfaStore.AtMostOneActiveChallenge | backend/internal/store/mfa.go:12-33 | A user never has two active challenges. |
| MfaStore.SuccessLeavesOneLogin | backend/internal/store/mfa.go:264-290 | A completed challenge leaves its user one active login, the new one, touches nobody else's, and is consumed; an enrolment writes the verified address and the chosen password. |
| MfaStore.FailureRollsBack | backend/internal/api/api.go:2857-2955 | A failed completion changes nothing but the count of attempts, by at most one; which completions fail is `MfaCodes.MailedCodeIsRightExactlyWhen` and `MfaCodes.OfflineCodeIsRightExactlyWhen`. |
| MfaCodes.MailedCodeIsRightExactlyWhen | backend/internal/api/api.go:2887-2894 | Where the mailed code is the factor, a completion succeeds if and only if the number typed is the one mailed last for the challenge, by a start or a delivery, and not matched, replaced or withdrawn since; otherwise exactly an attempt is lost. |
| MfaCodes.OnlyTheMailedCodeSucceeds | backend/internal/api/api.go:2857-2955 | The same without any condition on the rest: other than by a recovery code, no other number ever succeeds. |
| MfaCodes.AddressIsVerifiedExactlyWhen | backend/internal/api/api.go:2722-2743 | An address is verified if and only if the code typed is the one mailed last for the challenge; otherwise an attempt is lost. |
| MfaCodes.OfflineCodeIsRightExactlyWhen | backend/internal/api/api.go:2883-2944 | With a recovery or time code a completion succeeds if and only if the code is unused, or right and later than the last accepted, and a first login has all else it needs. |
| MfaCodes.SuccessIsRecorded | backend/internal/store/mfa.go:198-262 | A completion records the factor it was made with and nothing else: the counter accepted, the recovery code spent, or the new enrolment. |
| MfaCodes.NextMailWaits | backend/internal/store/mfa.go:99-140 | After a mail was sent for a challenge the next one waits a minute. |
| MfaCodes.LoginsComeFromSuccess | backend/internal/api/api.go:2485-2608 | A login begins only with a completed challenge, or by password alone where no second factor and no new password is due; no step revives one. |
| MfaCodes.LogInLeadsTo | backend/internal/api/api.go:2485-2608 | What a password leads to otherwise: the only active challenge of its user, for what the user lacks. |
| MfaCodes.PasswordIsChangedExactlyWhen | backend/internal/api/api.go:2610-2676 | A password is changed, or kept for a first login, if and only if the challenge is open and made for it and the password is a new one. |
| MfaCodes.OpenChallengeIsLeftAlone | backend/internal/store/mfa.go:12-33 | Steps about other challenges and other users, clean-ups included, leave an open challenge as it is. |
| MfaRows.Store.CompleteMFAEnrollment | backend/internal/store/mfa.go:198-290 | Statement by statement, rolled back on any error: the whole enrolment or nothing. |
| MfaRows.Store.CompleteMFAAuthentication | backend/internal/store/mfa.go:198-290 | The same for a later login with a time code, a recovery code or a mailed code. |
| MfaRows.Store.CompletePasswordChange | backend/internal/store/mfa.go:46-97 | The forced change of a password without a second factor: all of it or nothing. |
| MfaRows.Store.ResetUserMFA | backend/internal/store/mfa.go:306-343 | The second factor, its codes, the open challenges and the logins of the user go; a new password is due. |
| MfaRows.Store.InsertRecoveryCodes | backend/internal/store/mfa.go:236-244 | The loop succeeds exactly when the codes are distinct, and then all are stored unused. |
| MfaRows.Store.CreateMFAChallenge | backend/internal/store/mfa.go:12-33 | The user's active challenges are revoked and a new one begins. |
| MfaRows.Store.FailMFAChallenge | backend/internal/store/mfa.go:179-188 | Counts one attempt of an active challenge; the fifth revokes it. |
| MfaRows.ValidateTOTP | backend/internal/auth/mfa.go:146-164 | Accepts the least non-negative counter within one step of the clock whose code was typed, if any. |
| Settings.PrintedSettingsReadBackExactlyWhen | backend/internal/config/settings.go:346-453 | Printing a configuration and reading it over any other gives it back, up to the password, if and only if every text is trimmed and not wrapped in matching quotes, the access ports are in 0..65535 and the transport mode is that of the mail port. |
| Settings.AcceptedIsFixedExactlyWhen | backend/internal/config/settings.go:235-300 | What the page asks for, accepted by the check of locked fields, is a fixed point of the preserve step if and only if, under its locks, the running methods are the sorted list of the page, the other access port is the running one, the scheme is that of the domain and the running mode that of the mail port. |
| Settings.CandidateIsUnique | backend/internal/config/settings.go:112-180 | A page, what is running and what is pending determine the configuration asked for. |
| Settings.SavedIsShownExactlyWhen | backend/internal/config/settings.go:82-300 | After a save the settings read next are the ones saved, up to the password, if and only if that holds and every text that no lock replaces is trimmed and not wrapped in quotes and the access ports are in range. |
| Settings.OtherAccessPortIsLost | backend/internal/config/settings.go:565-589 | With one access port set by the environment, a valid change of the other is accepted and then lost. |
| Settings.PreserveTwice | backend/internal/config/settings.go:235-300 | Preserving twice is preserving once. |
| Settings.SettingsManager.Save | backend/internal/config/settings.go:82-220 | Answers with the first complaint in the order of the code, or with the one configuration asked for, valid and within the locks, which is printed; read back exactly under the conditions above. A typed password is read back trimmed, a cleared one stays that of the running configuration. An error changes nothing. |
| Settings.ClearedPasswordComesBack | backend/internal/config/settings.go:112-204 | After a save that cleared the password, the next save takes the running one over again. |
| SettingsPage.ShownPageAsksForItselfExactlyWhen | backend/internal/config/settings.go:82-180 | The page of the pending settings, saved unchanged, asks for exactly these settings if and only if their texts are trimmed, their domains bare and in lower case, the life of mailed codes in whole minutes, the methods in order, and mode, addresses and scheme the ones the page leads to. |
| SettingsPage.SavedAgainIsTheSame | backend/internal/config/settings.go:82-180 | What was saved and is shown again does not change by being saved again. |
| SettingsPage.SessionLifeReadsBack | backend/internal/config/settings.go:336-344 | The life of a session is shown without loss, in hours, in minutes or in full. |
| SettingsPage.CodeLifeReadsBackExactlyWhen | backend/internal/config/settings.go:332-334 | The life of a mailed code is shown in minutes and read back if and only if it is a whole number of them. |
| SettingsPage.AcceptedPortsAreApart | backend/internal/config/config.go:170-266 | On an accepted page the panel's two ports and, unless they are shared, the two access ports are different, if the library finds a port in the address it was put in. |
| SettingsPage.AcceptedPanelIsNoSessionHost | backend/internal/config/config.go:170-266 | The panel is served neither under the access domain nor under any host below it. |
| SettingsPage.SchemeFollowsDomain | backend/internal/config/config.go:268-270 | Sessions are reached without TLS if and only if their domain is on the machine itself. |
| SettingsPage.RestartIsNeededExactlyWhen | backend/internal/config/settings.go:512-533 | No restart is asked for if and only if pending and running settings are the same up to the order of the methods. |
| Settings.SettingsManager.CandidateOf | backend/internal/config/settings.go:82-180 | Succeeds if and only if there is no line break, the durations parse, the panel's ports are in range and differ, and a password is not both typed and cleared; the first of these complaints is reported. Then every editable setting comes from the page as the form describes, the rest from what is pending. |
| Settings.SettingsManager.DesiredConfig | backend/internal/config/settings.go:222-228 | The running configuration with the override over it and the environment over both. |
| Settings.SettingsManager.KeepPassword | backend/internal/config/settings.go:188-205 | Which file the override names for the password in each case, and what is written into it. |
| Settings.SettingsManager.ConfiguredPasswordFile | backend/internal/config/settings.go:483-496 | The first of environment, override and main configuration file that names a file. |
| Settings.NormalizedMethods | backend/internal/config/settings.go:498-510 | Exactly the trimmed, lowered, non-empty names of the input, ascending and without repeats. |
| SettingsFile.ReadConfigFile | backend/internal/config/config.go:272-302 | The line loop reads every setting, later lines replacing earlier ones, or stops at the first bad line. |
| SettingsFile.ReadsBackExactlyWhen | backend/internal/config/config.go:292-295 | A value is read back as it is if and only if it is trimmed and not wrapped in one pair of matching quotes. |
| SettingsFile.ReadOfLines | backend/internal/config/settings.go:424-453 | Every printed key is read back under its own name, and no other key of ours appears. |
| SettingsFile.PortReadsBackExactlyWhen | backend/internal/config/config.go:401-414 | A printed access port comes back if it is in 0..65535; otherwise zero does. |
| SettingsFile.MethodsReadBack | backend/internal/config/config.go:311-314 | A list of method names survives, in order. |
| Durations.ParseOfShow | backend/internal/config/settings.go:424-453 | Every duration, of either sign and to the nanosecond, is parsed back from its text. |
| Endpoints.ReplacementIsExact | backend/internal/store/devices.go:304-384 | On success the device has exactly one row for each entry that does not carry an id given beforehand, kept ones under their ids, each as its entry asks; other devices are untouched. |
| Endpoints.InUseIsUntouched | backend/internal/store/devices.go:332-365 | An endpoint in use is neither deleted nor pointed elsewhere. |
| Endpoints.VerificationSurvivesExactlyWhen | backend/internal/store/devices.go:366-372 | The status of a verification, and its time with it, is kept if and only if protocol and port are unchanged. |
| Endpoints.RowsCarryTheirEntries | backend/internal/store/devices.go:366-380 | Field by field: an update takes the entry's values but keeps a reference, method, user or key path that the entry leaves empty; an insert takes all and is unverified. |
| Endpoints.SameListChangesNothing | backend/internal/store/devices.go:304-384 | Replacing the endpoints of a device by what they are, fields left empty included, changes nothing, verifications included. |
| Endpoints.ReplacementKeepsTargetsUnique | backend/internal/store/migrations.go:68-80 | No device ends with two endpoints on one protocol and port. |
| Endpoints.PregeneratedIdIsLost | backend/internal/store/devices.go:370-371 | An entry with an id given beforehand takes the UPDATE branch without effect: leaving it out of any list gives the same result. |
| Endpoints.ReplacementSucceedsExactlyWhen | backend/internal/store/devices.go:304-384 | A list is accepted if and only if every id names an endpoint of the device, nothing in use is pointed elsewhere or left out, and each entry that has effect has a permitted protocol and port that no earlier one asks for and no later entry's endpoint still has. |
| Endpoints.ExchangeIsRefused | backend/internal/store/devices.go:366-372 | Two endpoints cannot exchange their targets in one replacement, whatever else the list holds. |
| Endpoints.Store.ReplaceDeviceEndpoints | backend/internal/store/devices.go:304-384 | The loops over the list and the rows compute that, or an error and the old table. |
| Endpoints.Store.VerifyDeviceEndpoints | backend/internal/store/devices.go:80-146 | Succeeds exactly when the statuses name exactly the device's endpoints; then all are set, otherwise none. |
| CredentialVault.FailureRestoresExactlyWhen | backend/internal/api/api.go:1361-1426 | If preparing fails at some position, the vault is what it was, also when an endpoint occurs several times, if and only if no row that existed could not be read at its first save before that position. |
| CredentialVault.RollbacksRestoreTheirRows | backend/internal/api/api.go:1355-1359 | Run later, the rollbacks make every row that was written what it was, or delete it if it could not be read at its first save, and leave the others as they are by then. |
| CredentialVault.UndoingRestoresExactlyWhen | backend/internal/api/api.go:1355-1359 | Any list of undo steps restores a vault if and only if the first step of each row carries the row as it was. |
| CredentialVault.ForwardOrderIsWrong | backend/internal/api/api.go:1355-1359 | From first to last they would leave the first of two saves of one row behind. |
| CredentialVault.UnreadRowIsLost | backend/internal/secrets/node_credentials.go:152-164 | A failing preparation that loses a row: it could not be read when it was overwritten, and the next endpoint is refused. |
| CredentialVault.Server.PrepareSSHCredentials | backend/internal/api/api.go:1361-1426 | The loop over the endpoints does what the recursive description says, and unwinds itself on a failure. |
| CredentialVault.Server.RunRollbacks | backend/internal/api/api.go:1355-1359 | The undo steps run from the last to the first. |
| CredentialVault.Server.SaveSSH | backend/internal/secrets/node_credentials.go:127-166 | Seals what is given or stored, overwrites the row and returns the undo step for the old one. |
| StoredSecrets.PreparedReferenceOpens | backend/internal/api/api.go:1361-1426 | After a preparation the reference that an endpoint comes out with opens to the user name and password typed for it, unless a later entry typed over the same row. |
| StoredSecrets.PasswordSurvivesAnEmptyOne | backend/internal/secrets/node_credentials.go:127-166 | Saving again under another user name with the password left empty keeps the password. |
| StoredSecrets.ListIsPreparedExactlyWhen | backend/internal/api/api.go:1361-1426 | A list is prepared if and only if each login is complete and its password typed or stored and the vault can be written, or its key an absolute path to a file. |
| StoredSecrets.EndpointsComeOut | backend/internal/api/api.go:1361-1426 | How each endpoint comes out: as it was without a login of its own, else with id, method, user, key path and reference in its place. |
| LoginLimiter.AnswersLikeUnbounded | backend/internal/auth/login_limiter.go:32-63 | For a key never evicted, `Blocked` answers what an unbounded fixed-window limiter answers after that key's failures and successes alone. |
| LoginWindows.LimiterBlocksExactlyWhen | backend/internal/auth/login_limiter.go:32-63 | For a key never evicted: it is blocked if and only if its calls end in a window that is not over and holds as many failures as the limit - a window opened by a failure that found none open, and closed by time or a success. |
| LoginWindows.BlocksExactlyWhen | backend/internal/auth/login_limiter.go:32-63 | The same for any list of calls, with the time to wait: until the window is over, a second at least. |
| LoginLimiter.NeverMoreThanMaxKeys | backend/internal/auth/login_limiter.go:47-63 | With evictions as `Failure` makes them, the map never holds more than its bound in any run that does not use the empty key. |
| LoginLimiter.FailureKeepsTheBoundExactlyWhen | backend/internal/auth/login_limiter.go:47-63 | A failure keeps the bound, whatever the order of its scan, if and only if it needs no room or the empty key is not alone in being oldest among what is left. |
| LoginLimiter.EmptyKeyPassesTheBound | backend/internal/auth/login_limiter.go:65-76 | A run with the empty key that passes it. |
| LoginLimiter.Limiter.EvictOldest | backend/internal/auth/login_limiter.go:65-76 | Gives up what a scan in some order gives up: whatever the order, an oldest entry if and only if the empty key is not alone in being oldest. |
| LoginLimiter.Limiter.Failure | backend/internal/auth/login_limiter.go:47-63 | Counts within the window or opens a new one; room is made by a proper eviction and the bound kept, unless the empty key alone is oldest then. |
| LoginLimiter.Limiter.Blocked | backend/internal/auth/login_limiter.go:32-45 | Expired entries go; the verdict and the waiting time follow from the rest. |
| LoginLimiter.Limiter.Cleanup | backend/internal/auth/login_limiter.go:84-90 | Exactly the expired entries are removed. |
| Socks.ConversationIsRead | backend/internal/access/socks.go:60-143 | Everything the client sends, read by sections 3 and 4 of RFC 1928 and section 2 of RFC 1929, gives the methods, the credentials and the target, with nothing left over. |
| Socks.Negotiate | backend/internal/access/socks.go:60-122 | Succeeds if and only if all replies are well formed and positive and the target is within bounds; then exactly one method reply, one login reply if asked for and one connect reply have been read (section 6 of RFC 1928). |
| Socks.Authenticate | backend/internal/access/socks.go:124-143 | Sends the credentials if they fit and accepts only the positive reply. |
| Socks.DiscardSOCKSAddress | backend/internal/access/socks.go:145-166 | Reads exactly the rest of a connect reply, for every address type. |
| TimeText.WholeSecondsDecide | backend/internal/store/access_sessions.go:80-90 | For instants of the years 0000 to 9999, text order is time order whenever the whole seconds differ. |
| TimeText.TextIsFaithful | backend/internal/store/access_sessions.go:80-90 | Texts are equal if and only if the instants are. |
| TimeText.FractionsDecideExactlyWhen | backend/internal/store/access_sessions.go:122-125 | Within one second text order is right if and only if the earlier fraction, as written, is not the beginning of the later one. |
| TimeText.WholeSecondSortsLast | backend/internal/store/access_sessions.go:122-125 | A whole second is earlier than every fraction of it and its text comes after theirs, at noon for one. |
| TimeText.EqualDigitsDecide | backend/internal/store/access_sessions.go:122-125 | With fractions of one length, as in section 5.1 of RFC 3339, it is always right. |
| TimeText.ComparisonIsOffByLessThanASecond | backend/internal/store/access_sessions.go:335-347 | A comparison in SQL is wrong by less than a second. |

## Left out

- MfaStore: handlers are single steps there; `MfaStatements` takes every statement as a step, for the address that an enrolment binds and not for the other properties.
- AccessStore.NewSession: the handler's fallback for a login without an end; logins always have one.
- AccessStore: the clock is read once per operation and the idle limit is one number for all; the code computes the cutoff and `now` from separate readings.
- AccessStore: names, labels, source addresses, audit rows and projects do not take part; times are numbers, and what comparing them as text does is in `TimeText`.
- Activity: a terminal that starts after its session has ended has a first interval of its own; when such starts can happen is in `Gateway`. What is received before its monitor first reads the clock plays no part.
- Terminal: a websocket call begun on a cancelled context is assumed to fail, and one under way may still succeed; the library is not part of this model. How long the monitor waits for its turn is not bounded.
- AccessRows.Store.ExchangeAccessGrant: nothing happens between its two statements; in the runs of `AccessStore` they are two steps.
- Gateway.WebGateway: the SSH gateway keeps the same registry with functions that cancel in place of connections; its class is not repeated.
- Activity: deadlines of connections only ever end them sooner; a terminal's idle timer and deadline may fire at any time.
- Gateway: one gateway at a time; the handler's calls to the others are time passing. The close of a connection is two steps, its effect on the network none.
- ReadCache: the wrap-around of counters beyond 2^53, and pages that share session storage.
- DiscoveryPool: what a probe does on the network; a result is found or not. `Verify`, which probes one device, has the same shape without a producer and is not modelled.
- DiscoveryPool: deletion of the job's row while it runs.
- Prefixes: IPv6 and other text only counts as "not IPv4"; sums beyond 64 bits are not cut off.
- MfaRows: the updates of a single row that a handler makes between the first and the last step are functions of `MfaStore` only.
- MfaStore: hashing, sealing and random numbers; codes stand for their hashes, ids are drawn fresh, and whether a secret can be decrypted is whether it is there. Deleting users, changing a password from the profile and project assignments are not steps.
- MfaRows.ValidateTOTP: the code of a counter is any function; white space around the typed code is trimmed by the caller.
- Settings: splitting listen addresses, parsing the sender address and the run mode are parameters (`Libraries`); the read-only key file setting, file permissions and write errors are left out.
- SettingsFile: letters are lowered as in ASCII; lines longer than the scanner's buffer and numbers beyond 64 bits are not refused.
- Durations: texts of durations beyond 64 bits are not refused.
- Endpoints: the device's own row, the audit row and the order of rows by creation time; ids drawn for new endpoints are assumed not to be among the ids given.
- CredentialVault: undo writes are assumed to succeed; the file system is one answer per endpoint (`Chance`). The key vault for node credentials follows the same pattern and is not repeated.
- LoginLimiter: durations that do not fit 64 bits.
- Socks: splitting the address, recognising IP addresses in text and deadlines; the target arrives classified.
- TimeText: leap seconds, zones other than UTC and years beyond 9999.
- HTTP routing, headers, cookies, redirects, TLS, mail, the SQLite driver and the node adapter's calls.
- The user interface, and the tables of roles and routes, where each branch can be read off one line.
