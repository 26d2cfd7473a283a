# jmj: a verified model of the peer-to-peer package daemon

jmj puts a small daemon in front of pkg's mirror. It announces the packages in pkg's cache to a tracker, fetches
packages from other daemons, checks them against pkg's signed catalogues, and falls back to the upstream mirror. This
project models the stateful parts of that daemon and of its tracker, and proves what they promise for every input,
every run and every interleaving.

`dafny verify dfyconfig.toml` checks everything.

## How it is laid out

| file | what it models |
|---|---|
| `Tracker.dfy`, `TrackerRuns.dfy` | the registry with its reverse index and sweeper; whole runs, sweeps made invisible, leases read off the history |
| `Lease.dfy` | how many lost pings, and how much delay, a lease survives |
| `KeepAlive.dfy`, `Nudges.dfy`, `SelfHealing.dfy` | the daemon's half of the protocol; the one-slot wake-up channel joined with the loop it wakes; both ends joined by a lossy network |
| `Digest.dfy`, `Wire.dfy`, `Fetch.dfy`, `Download.dfy`, `Facade.dfy` | the bounded copy-and-hash loop, the peer loop with its blacklist, and one whole facade request |
| `Names.dfy`, `Paths.dfy`, `Identifiers.dfy` | package file names; path cleaning, the upstream join and the request classifier; one identifier across all four namespaces |
| `Limiter.dfy`, `Seeder.dfy` | admission control, and the seed server under any interleaving of requests |
| `Repositories.dfy`, `RepoWatcher.dfy`, `CacheWatcher.dfy` | the catalogue merge and its all-or-nothing swap; the debounced reload; the cache scan |
| `Daemon.dfy` | config reloads: which part holds which setting |

The pattern is the same throughout. An object that the source updates in place is a class; each method is proved
against a specification on values (`Registry`, `Call`, `Occupancy`, `State`, ...); the promises are lemmas about that
specification. The outside world is given as data: times, lost messages, a peer's reply, what the disk allows, the
rows a catalogue holds, what a `select` took. So a statement for all data is a statement for all behaviours.

Integers are unbounded: sizes, ports and counters are compared and added, and none of the theorems needs a bound.
Times are integers, in seconds where a shipped constant is used.

## What turned out false, and the exact condition

- A daemon whose first announce is lost does not try again at its ticks: `registered` stays false and `ping` returns
  (`internal/discovery/keepalive.go:47-49`, `internal/discovery/keepalive.go:55-58`). The comment at
  `internal/daemon/daemon.go:235-237` says the loop keeps trying. `SelfHealing.FirstAnnounceLostIsNotRetried` is the
  run; `SelfHealing.TickHealsIffRegisteredAndAccepted` is the condition.
- Nor does a list that the client finds valid heal it when the tracker finds it too long: the client bounds the number
  and the length of names, the tracker also the body (`cmd/trac/main.go:105-133`). The daemon then announces at every
  tick and is never registered: `SelfHealing.GrownCacheIsNeverRegistered`, with the same exact condition.
- A seeder's nudge can go to a keep-alive that is no longer the running one, because the channel is read under the lock
  and sent to after it (`internal/daemon/daemon.go:254-266`), although the comment above it excludes that.
  `Daemon.LateNudgeMisses` is the run; `Daemon.NudgeReachesIff` is the condition.
- After a reload the tracker may keep the old list: the old loop is not waited for, so its last announce may come second,
  and the new loop's pings then renew it. `SelfHealing.HandoverIsCleanIff`, `SelfHealing.TimelyTicksKeepTheEntry`.
- What is announced need not be held: `CacheWatcher.AnnouncedIsHeldIff`.
- Two lost pings leave no slack at the shipped 20 s and 60 s: `Lease.ShippedConstants`. The general bound, in both
  directions, is `Lease.LeaseBound`.
- A version that itself ends in `~` and ten hex digits does not survive the trip through a file name:
  `Names.PlainRoundTrip` and `CacheWatcher.LinkAndFileAgreeIff` say exactly when it does.
- The hash and the size are two reads. With a catalogue swap between them an honest peer is blamed as corrupt exactly
  when the row's hash moved: `Facade.SwapBlamesAnHonestPeerIffTheHashMoved`.
- The classifier is not invariant under every base path, only under those that `Paths.Neutral` describes:
  `Paths.ClassifyIsPrefixInvariantIffNeutral`. Package paths are safe under all of them.
- A new `temp_dir` or `upstream_url` takes effect only if the same reload also moves the facade's address, the tracker
  or the catalogues: `Daemon.NewUpstreamTakesEffectIff`.
- A start or reload reports success even when `facade_addr` is taken, because the listener binds in a goroutine that
  only logs its error (`internal/daemon/daemon.go:403-408`). `Daemon.OccupiedAddressGoesUnreported` is the run;
  `Daemon.SuccessListensIff` and `Daemon.FacadeIsThatOfItsLastRebuild` say exactly when the facade listens.
- A reload that fails has already installed its config, so the next one with the same config reports success and
  rebuilds nothing: `Daemon.RetryAfterFailureRebuildsNothing`.
- One catalogued file whose name the wire refuses keeps the whole cache from being sent:
  `CacheWatcher.OneBadNameSilencesTheCache`.

## Model

| member | source | states |
|---|---|---|
| Tracker.Tracker.Announce | internal/tracker/tracker.go:99-134 | an announce replaces the IP's entry, or removes it when the list is empty; the reverse index agrees with the map again, with no empty holder set |
| Tracker.Tracker.Ping | internal/tracker/tracker.go:140-164 | the answer is yes exactly for an entry whose deadline has not passed; then only the deadline moves; otherwise the entry and its index lines are gone |
| Tracker.Tracker.Peers | internal/tracker/tracker.go:171-206 | whatever order the holders come in, the reply lists distinct live holders with their registered ports, exactly min(3, live holders) of them |
| Tracker.Tracker.Sweep | internal/tracker/tracker.go:214-235 | in any order of deletion exactly the expired entries go, the index follows, and their number is returned |
| Tracker.Tracker.RemoveFromIndex | internal/tracker/tracker.go:251-272 | the index is left as the index of the registry without that IP |
| Tracker.Tracker.AddToIndex | internal/tracker/tracker.go:113-124 | the index is left as the index of the registry with the IP under exactly the announced names, duplicates collapsed |
| Tracker.Tracker.Drop | internal/tracker/tracker.go:155-156 | index first, record second: registry and index lose the IP together |
| Tracker.IndexIsDetermined | internal/tracker/tracker.go:56-72 | agreement leaves the index no freedom: ip is under nv iff nv is in the IP's entry, and no set is empty |
| Tracker.ListedOnce | internal/tracker/tracker.go:185-202 | a reply with as many IPs as lines repeats none |
| TrackerRuns.Handle | cmd/trac/main.go:164-191 | one request of any kind takes the object along the simple map's step, and its answer is one the observation of that step allows |
| TrackerRuns.Replay | internal/tracker/tracker.go:99-272 | every run, restarts and sweeps included, leaves a valid object standing for the map the run computes, index and all, and its answers fit the run's observations one by one |
| TrackerRuns.SweepsLeaveTheLiveEntries | internal/tracker/tracker.go:214-235 | a run and the same run without its sweeps end with the same live entries |
| TrackerRuns.SweepingIsUnobservable | internal/tracker/tracker.go:208-244 | with a monotone clock, deleting every sweep changes no ping answer and no set of eligible holders |
| TrackerRuns.SweepsMayBeMoved | internal/tracker/tracker.go:208-244 | sweeps may be inserted, deleted or moved anywhere in any run unseen |
| TrackerRuns.SweepsNeverShow | internal/tracker/tracker.go:208-244 | any answers the object may give over a run it may give over the same run with its sweeps elsewhere |
| TrackerRuns.RegisteredIffLeased | internal/tracker/tracker.go:99-164 | an entry is live with a port and a list exactly when the history holds its lease |
| TrackerRuns.LeaseHistory | internal/tracker/tracker.go:99-206 | a reply may name (ip, port) for nv iff the last announce processed from ip gave that port and listed nv, and no gap between processed refreshes since, up to now, exceeds the timeout |
| Lease.KeptWithinTheBound | internal/tracker/tracker.go:154-161 | within the bound no ping is refused and the deadline is a timeout past the last ping that arrived |
| Lease.LiveUntilOverdue | internal/tracker/tracker.go:154-161 | within the bound the entry is live at every moment until the next ping is overdue |
| Lease.WorstCaseLapses | internal/tracker/tracker.go:154-161 | past the bound there is a possible schedule in which a ping is refused |
| Lease.LeaseBound | internal/discovery/client.go:20-23 | an entry survives every schedule with at most k consecutive losses and delay at most J iff (k+1)·I + J fits the timeout |
| Lease.ShippedConstants | internal/discovery/client.go:20-23 | 20 s and 60 s survive two losses iff there is no delay at all, and never three |
| KeepAlive.KeepAlive.Announce | internal/discovery/keepalive.go:41-52 | a failed scan or a list the client rejects sends nothing; the flag is the last acknowledged list's non-emptiness |
| KeepAlive.KeepAlive.Ping | internal/discovery/keepalive.go:55-69 | silent unless registered; one ping; an announce after it exactly when the tracker forgot us |
| KeepAlive.KeepAlive.Run | internal/discovery/keepalive.go:72-88 | the startup announce and then, input by input until shutdown, what the history of messages alone decides |
| KeepAlive.ListedGrows | internal/discovery/keepalive.go:47-51 | only an acknowledged announce moves "listed", to whether its list was non-empty |
| KeepAlive.PingsOnlyWhileListed | internal/discovery/keepalive.go:55-58 | no ping is ever sent unless the last acknowledged announce was non-empty |
| KeepAlive.TranscriptExtends | internal/discovery/keepalive.go:72-88 | what was sent is never unsent |
| KeepAlive.TicksAloneStaySilent | internal/discovery/keepalive.go:55-58 | ticks alone never bring back an unregistered daemon |
| Nudges.Channel.Send | internal/daemon/daemon.go:164-170 | the send never blocks and leaves the slot full |
| Nudges.Channel.TryReceive | internal/discovery/keepalive.go:78-86 | the loop is woken exactly when the slot is full, and empties it |
| Nudges.Run | internal/discovery/keepalive.go:72-88 | senders, channel and loop together: the slot is full as the run says, a receive happens only on a full one, and the messages are the transcript of the inputs taken |
| Nudges.FullIffUnanswered | internal/daemon/daemon.go:158-170 | the slot is full iff some nudge has had no receive since |
| Nudges.NoLostWakeUp | internal/daemon/daemon.go:158-181 | after every nudge an announce attempt has started that scans the version at the nudge or a newer one; or the slot is full, the loop can receive at once, and whatever it next receives starts such an attempt |
| Nudges.AttemptsAnnounce | internal/discovery/keepalive.go:41-52 | what such an attempt sends is its own scan's list, unless the scan failed or the client rejects the list |
| Nudges.QuietMeansScanned | internal/daemon/daemon.go:204-208 | with an empty slot and nothing changed since the last nudge, the current version has been scanned for an announce |
| Nudges.ReceivesNeedNudges | internal/daemon/daemon.go:158-170 | between two receives, and before the first, lies a nudge, so a burst owes one announce at most |
| SelfHealing.MovesAreTheLoops | internal/discovery/keepalive.go:41-86 | the daemon of the joined model sends what the keep-alive loop sends |
| SelfHealing.LostReplyStillRegisters | cmd/trac/main.go:149-153 | an announce whose request is lost leaves the tracker as it was, one whose reply is lost is processed |
| SelfHealing.LostAnnounceKeepsTheFlag | internal/discovery/keepalive.go:47-51 | after either loss the flag is what it was |
| SelfHealing.LostPongsStillRenew | internal/tracker/tracker.go:140-164 | a ping is processed whether or not its reply is heard |
| SelfHealing.LossFreeTickHeals | internal/discovery/keepalive.go:55-69 | from any state with the flag set and any list the client sends, one loss-free tick ends with the lease renewed; or with the list refused for its length, no entry and the flag still set; or with exactly the scanned list registered; or with an acknowledged empty list and both sides having forgotten |
| SelfHealing.TickHealsIffRegisteredAndAccepted | cmd/trac/main.go:124-133 | a forgotten daemon is healed by a loss-free tick iff its flag is set and the tracker takes the list |
| SelfHealing.RefusedAtEveryTick | cmd/trac/main.go:105-133 | a valid list the tracker refuses for its length is announced at every tick for ever and never registered, the flag staying set |
| SelfHealing.GrownCacheIsNeverRegistered | internal/proto/validate.go:15-26 | it happens: a small list announced, a tracker restart, and a cache grown to what the client still allows |
| SelfHealing.DarkUntilTheCacheChanges | internal/discovery/keepalive.go:41-69 | without the flag, ticks and other daemons' traffic send nothing and add nothing for this daemon |
| SelfHealing.FirstAnnounceLostIsNotRetried | internal/discovery/keepalive.go:47-49 | a lost first announce of any valid list and any number of perfect ticks: nothing is ever sent again |
| SelfHealing.ExecutionsAreFaithful | internal/discovery/keepalive.go:41-52 | every list the tracker processed under the daemon's address is one the daemon sent |
| SelfHealing.OfferedOnlyWhatWasAnnounced | internal/tracker/tracker.go:171-206 | through any losses and restarts, the tracker offers the daemon on the port and from the list of the last announce it processed from it, one the daemon sent, with the lease unbroken since |
| SelfHealing.HandoverIsCleanIff | internal/daemon/daemon.go:340-344 | two keep-alives of one host, the closed one with an announce under way: while an entry is live it is the new one's iff the old announce was processed first |
| SelfHealing.TimelyTicksKeepTheEntry | internal/discovery/keepalive.go:55-69 | timely pings renew whatever entry the tracker has, so a stale list left by a handover is kept |
| Wire.ValidName | internal/peer/fetch.go:218-228 | true iff the name has 1 to 255 bytes, none of them below 0x20 or equal to 0x7f; the tracker's own check accepts the same |
| Wire.AnnounceBounds | internal/proto/validate.go:15-32 | ports 1 to 65535, at most 4096 names, each of 1 to 255 bytes without a control character |
| Wire.AsciiLength | internal/peer/fetch.go:219-221 | the byte length of ASCII text is its number of characters |
| Wire.BodyBound | internal/proto/validate.go:23-26 | a valid announce is taken iff its JSON body has at most 1 MiB |
| Wire.BodyLengthIs | internal/proto/types.go:20-23 | the computed length is that of the JSON text, escapes included |
| Wire.WidthIsTheShortest | internal/peer/fetch.go:219-221 | a character takes the fewest UTF-8 bytes that hold it |
| Wire.LongestListIsTooLong | internal/proto/validate.go:15-26 | 4096 names of 255 bytes pass the client's check and their JSON body exceeds the tracker's 1 MiB |
| Wire.EmptyListIsAccepted | cmd/trac/main.go:149-153 | the deregistering list is always taken |
| Digest.FeedInPieces | internal/peer/fetch.go:183-189 | hashing in whatever pieces arrive is hashing the whole |
| Fetch.CopyAndHash | internal/peer/fetch.go:177-195 | at most Size+1 bytes are read, a piece the disk then refuses included; on success the file holds exactly what was read and the state is the hash of the file; no other file is touched |
| Fetch.FetchFromPeer | internal/peer/fetch.go:125-206 | success iff the reply delivers Size bytes of the right hash and the disk plays along; hash mismatch and spool failure iff their conditions; each failure leaves temp_dir as it was, success adds one rewound file with the verified bytes |
| Fetch.Verdicts | internal/peer/fetch.go:148-203 | delivery and corruption are each a 200 of the right declared length with exactly Size bytes, all spooled, and differ in the hash alone; a spool failure is a file that cannot be made or rewound, and nothing else |
| Download.Blacklist.Block | internal/peer/blacklist.go:52-62 | the set grows by that address; without a list nothing happens |
| Download.CaughtEarlier | internal/peer/download.go:48-69 | a corrupt answer earlier in the same call has its address on the list by then |
| Download.SkippedIffListed | internal/peer/download.go:48-52 | at its turn an address is on the list iff it was distrusted before, blocked by another request by then, or caught earlier in this call |
| Download.NothingAfterTheEnd | internal/peer/download.go:53-78 | after a success or a spool failure nobody else is contacted or blamed |
| Download.TakeTurn | internal/peer/download.go:48-79 | one turn: contacted iff not skipped; the list grows by what others added and by this address iff it was corrupt |
| Download.FetchFirst | internal/peer/download.go:44-82 | whatever other requests block meanwhile, the peers contacted are exactly the addresses in order minus those blacklisted at their turn, up to the first success or spool failure; the blacklist grows by exactly the contacted peers that sent a full-size wrong body, and by what others added; success iff some contacted peer delivers |
| Download.Download | internal/peer/download.go:91-104 | a bad name or a tracker error contacts nobody and changes nothing; otherwise contacts, blacklist, outcome and file are the loop's |
| Download.Discard | internal/peer/download.go:113-122 | exactly that spool file goes; with none, nothing |
| Download.NeverContactedAgain | internal/peer/blacklist.go:46-73 | an address seen to be corrupt is contacted again in the same call iff no blacklist is kept |
| Download.FailedWriteIsNotTheEnd | internal/peer/fetch.go:186-189 | a disk that fills up under one peer's body does not end the loop: a later peer that delivers wins |
| Facade.Facade.RelayUpstream | internal/daemon/facade.go:462-484 | an http or https base with a host is asked exactly once, below its path and with the request's query, and its status is relayed in one head; otherwise nobody is asked and pkg gets 502; no body after a 304 |
| Facade.Facade.ServePeers | internal/daemon/facade.go:311-387 | true iff some peer delivers; then 200, Content-Length Size and a prefix of bytes of that length and hash; false wrote nothing; temp_dir is unchanged either way |
| Facade.Facade.ServeUpstreamPackage | internal/daemon/facade.go:397-445 | 200 iff upstream answers 200, else 502; the query is not passed on; pkg gets a prefix of the upstream bytes no longer than the promised Size, and all of them if they fit and it stays |
| Facade.Facade.ServePackage | internal/daemon/facade.go:265-282 | 404 iff the row is absent; 502 iff it is there and neither a peer nor upstream serves; upstream is asked once, only after the peers, only with a row |
| Facade.Facade.ServeHTTP | internal/daemon/facade.go:227-253 | whatever tracker, peers, upstream, other requests and pkg do: exactly one head, at most one question to upstream, no spool file left, the blacklist exactly as the peer loop leaves it and untouched by anything but a package request, and the package answer above |
| Facade.UpstreamIsAskedForThePackage | internal/daemon/facade.go:593-618 | with a base that can be asked, a package request reaches upstream as a path below the base that names the same package, at the base's host and scheme |
| Facade.ExpectedIffBothFind | internal/daemon/facade.go:287-302 | what is expected is one lookup's hash and the other's size, and nothing if either finds no row |
| Facade.OneSnapshotOneRow | internal/daemon/facade.go:287-302 | with one snapshot both halves are of one row, and an honest holder's copy is taken |
| Facade.SwapBlamesAnHonestPeerIffTheHashMoved | internal/daemon/repodb.go:268-282 | with a swap between the two reads an honest holder of the new file is blamed iff the hash changed |
| Names.ParsedVersion | internal/daemon/watcher.go:187-204 | a parsed version is digit-initial and hyphen-free, and name and version reassemble to the stem |
| Names.HashIsInTheVersion | internal/daemon/watcher.go:188-189 | a hash suffix lies inside a hyphen-free version or nowhere |
| Names.PlainRoundTrip | internal/daemon/watcher.go:187-204 | `name-version.pkg` gives both back iff the version is digit-initial, hyphen-free and does not end in a hash suffix |
| Names.HashedRoundTrip | internal/daemon/watcher.go:187-204 | `name-version~hash.pkg` gives both back iff the version is digit-initial and hyphen-free |
| Names.HashLikeVersionSplitsTheTwoNames | internal/daemon/watcher.go:181-189 | for a version ending in a hash suffix the real file and the link beside it name two packages |
| Names.HashedFileParses | internal/daemon/watcher.go:22-33 | for every version that starts with 0 to 9 and has no hyphen, `name-version~` and any ten digits of 0-9a-f and `.pkg` give name and version |
| Names.OtherTailIsKept | internal/daemon/watcher.go:33 | a tail of another length, or with another character, stays in the version |
| Names.WordIsNoVersion | internal/daemon/watcher.go:199-201 | a last part that starts with any other ASCII character is no version |
| Names.AsciiDigits | internal/daemon/watcher.go:206-212 | within ASCII exactly 0 to 9 start a version |
| Paths.CleanKeepsSegments | internal/daemon/facade.go:628-630 | cleaning keeps what a path stands for, and is idempotent |
| Paths.UpstreamPathIs | internal/daemon/facade.go:607-613 | the joined path is the cleaned base followed by the cleaned request |
| Paths.UpstreamPathSplits | internal/daemon/facade.go:607-613 | it splits into exactly both sides' segments: no dot segment and no interior empty one |
| Paths.UpstreamPathIsContained | internal/daemon/facade.go:607-613 | it resolves to the base's segments followed by the request's, never above the base |
| Paths.PreCleaningChangesNothing | internal/daemon/facade.go:607-613 | cleaning either side first changes nothing |
| Paths.DotsAndSlashes | internal/daemon/facade.go:607-613 | a plain segment is added, `..` takes it back, `.` and a second slash mean nothing, and above the root there is nothing |
| Paths.UpstreamURLIs | internal/daemon/facade.go:593-618 | for every base, path and query the target is the base's scheme and host, its path and the request's, and that query; none for a base that cannot be asked |
| Paths.MirrorsAreAsked | internal/daemon/facade.go:601-606 | every http and every https base with a host is asked, and no other |
| Paths.LastAll | internal/daemon/facade.go:636-644 | the scan finds the last `All`, or none |
| Paths.LastAllDecides | internal/daemon/facade.go:636-662 | what follows the last `All` decides the declarative rule |
| Paths.PackageRequest | internal/daemon/facade.go:627-674 | the classifier as it runs equals the declarative rule on the path's segments |
| Paths.ClassifyIs | internal/daemon/facade.go:627-674 | a path is a package path iff its segments end in `All` and a `.pkg` file, `Hashed` between them or not; and what it then asks for |
| Paths.PlainPathIsRecognised | internal/daemon/facade.go:627-674 | under every prefix `/All/name-version.pkg` asks for name-version |
| Paths.HashedPathIsRecognised | internal/daemon/facade.go:627-674 | under every prefix `/All/Hashed/name-version~` with any ten digits of 0-9a-f and `.pkg` asks for name-version |
| Paths.PackagePathsStayPackagePaths | internal/daemon/facade.go:593-674 | a package-shaped path classifies the same after the join, for every base |
| Paths.NotNeutralHasAWitness | internal/daemon/facade.go:627-662 | a base that is not neutral turns some other path into a package path |
| Paths.ClassifyIsPrefixInvariantIffNeutral | internal/daemon/facade.go:593-674 | every path classifies the same after the join iff the base is neutral |
| Identifiers.OpenedIffPlain | internal/daemon/cachesource.go:101-116 | exactly plain names without backslash and NUL are opened, as name-version plus extension |
| Identifiers.OpenedFilesAreInTheCache | internal/daemon/cachesource.go:67-76 | whatever is asked for, the opened path resolves to a direct child of cache_dir |
| Identifiers.PeerPathRoundTrip | internal/peer/serve.go:201-207 | the peer path gives a name-version back iff it is non-empty and has no slash |
| Identifiers.OneIdentifier | internal/daemon/watcher.go:52-60 | for every name and good version the catalogue key, the seeder's file, the peer path and both facade paths, for every hash and prefix, are about one package |
| Limiter.AdmittedIff | internal/peer/limit.go:74-87 | admitted iff there is room under every positive cap, a cap of 0 or less refusing nobody; of two full caps the global one is named |
| Limiter.TakenConserves | internal/peer/limit.go:74-90 | an admitted request keeps the counters equal to the grants and under the caps |
| Limiter.FreedUndoesTaken | internal/peer/limit.go:89-104 | taking and giving back restores both counters, the table entry included |
| Limiter.FreedConserves | internal/peer/limit.go:97-104 | giving any outstanding grant back keeps the counters equal to the grants |
| Limiter.TotalIsTheGrants | internal/peer/limit.go:34-41 | a table that tallies the grants sums up to their number |
| Limiter.GlobalIsTheSum | internal/peer/limit.go:34-41 | the global counter is the sum of the per-IP ones, and the table holds exactly the IPs with a grant |
| Limiter.SeedLimiter.Acquire | internal/peer/limit.go:66-107 | global cap first; a refusal changes nothing; an admission takes one slot of each and hands out a fresh release with a number of its own |
| Limiter.Release.Call | internal/peer/limit.go:92-105 | the first call gives the slot back; each further one, whoever holds slots by then, does nothing |
| Limiter.PlayedConserves | internal/peer/limit.go:66-107 | after any acquires and any releases, repeated or not, the global counter is the sum of the per-IP ones and the number of outstanding grants, and no cap is passed |
| Limiter.HeldIffNotGiven | internal/peer/limit.go:89-105 | a slot is held by exactly the admissions whose release has not been called since |
| Limiter.FurtherGivesChangeNothing | internal/peer/limit.go:92-105 | calling a spent release again, whoever has taken the slot since, frees nobody |
| Limiter.Replay | internal/peer/limit.go:66-107 | every interleaving is one of the objects: limiter and all releases stay usable, the unspent releases are exactly the grants, and the counters add up |
| Seeder.EveryInterleavingKeepsTheInvariant | internal/peer/serve.go:104-180 | under every interleaving the counters count the requests in flight and handles, answers and nudges stay in step with their phases |
| Seeder.HandlesFitSlots | internal/peer/serve.go:138-165 | open handles never exceed held slots, in all and for each IP |
| Seeder.SlotsAndHandles | internal/peer/serve.go:104-180 | in every reachable state the caps hold, the global counter is the sum and the requests in flight, and with nobody left nothing is kept |
| Seeder.AnswersStand | internal/peer/serve.go:104-180 | one answer per request, never changed; a re-announce is asked for exactly by the 404s |
| Seeder.RefusalsTakeNoSlot | internal/peer/serve.go:107-149 | a request answered on arrival takes no slot and opens nothing, and which ones those are |
| Seeder.ServeHTTP | internal/peer/serve.go:104-180 | 405 unless the method reads; 400 unless the path is `/pkg/` and one valid name; 503 if a positive cap is reached; 200 if the package is cached; else 404 with a re-announce; and the limiter is left as found |
| Seeder.ArrivalAnswers | internal/peer/serve.go:107-149 | which of 405, 400 and 503 a request gets on arrival, or none |
| Seeder.OpeningAnswers | internal/peer/serve.go:152-165 | 200 and an open handle for a package that is held, 404 and a re-announce for one that is not |
| Seeder.AnswersAreEarned | internal/peer/serve.go:104-180 | in every interleaving a 200 only for a package found held, a 404 only for one found not to be, and each refusal only for a request that deserves it |
| Repositories.IsHexSHA256 | internal/daemon/repodb.go:400-411 | true iff 64 lowercase hex digits |
| Repositories.LoadRepositoryDatabase | internal/daemon/repodb.go:324-363 | the rows are the last trusted record under each key and nothing else; the dropped names are listed by the first cause they fail |
| Repositories.CausesPartition | internal/daemon/repodb.go:314-320 | no record is lost or counted under two causes |
| Repositories.KeysOfMeans | internal/daemon/repodb.go:350-354 | a cause's list names exactly the records it was the cause for |
| Repositories.CausesAre | internal/daemon/repodb.go:350-357 | good means 64 lowercase hex digits and a positive size; the size is blamed only when the checksum is good |
| Repositories.OwnCatalogueFirst | internal/daemon/repodb.go:200-220 | the loop computes the own-first order, its early return included |
| Repositories.OwnFirstReorders | internal/daemon/repodb.go:181-220 | a stable permutation, ours before theirs, and the identity when none is ours |
| Repositories.MergeOne | internal/daemon/repodb.go:133-166 | in any order of the map, one more catalogue keeps the rows the first-wins lookup and the report exact |
| Repositories.NewDispute | internal/daemon/repodb.go:160-162 | comparing with the winning row alone finds every disagreement a new catalogue brings |
| Repositories.ReadAll | internal/daemon/repodb.go:108-168 | all catalogues or none; each name maps to the row of the first catalogue holding it; reported iff its rows are not all equal |
| Repositories.MergedIsWellFormed | internal/daemon/repodb.go:115-132 | every merged row has a 64-hex hash and a positive size |
| Repositories.Repositories.Reload | internal/daemon/repodb.go:85-179 | succeeds iff the directory lists, is not empty and every catalogue reads; then the sources are exactly the recorded non-empty ones, and each name has the last good record of the first catalogue of ours that holds it, or else of the first that does; otherwise rows and sources are unchanged |
| Repositories.ServedFromTheDecidingCatalogue | internal/daemon/repodb.go:94-166 | the row served for a name is the last good record of the catalogue that decides, ours before theirs, in path order |
| Repositories.ServedOnlyIfHeld | internal/daemon/repodb.go:108-168 | a name is served only if some catalogue decides it |
| Repositories.SourcesAre | internal/daemon/repodb.go:100-105 | a source is known exactly for a listed catalogue that has a non-empty one |
| Repositories.RowIsLastGood | internal/daemon/repodb.go:343-358 | one catalogue read: a row iff there is a good record of the name, and then the last |
| Repositories.OwnRowWins | internal/daemon/repodb.go:133-143 | for a name in one of our catalogues the row of one of ours is kept |
| Repositories.SnapshotIsDetermined | internal/daemon/repodb.go:108-168 | the disk decides the snapshot: map iteration order never shows |
| RepoWatcher.RepoWatcher.ReloadNow | internal/daemon/repowatcher.go:216-233 | reload, then watches rebuilt in either case, then a nudge for a success only; a failure keeps the snapshot |
| RepoWatcher.RepoWatcher.Turn | internal/daemon/repowatcher.go:163-204 | one select: replace the timer, fire and clear, ignore, or return |
| RepoWatcher.RepoWatcher.Loop | internal/daemon/repowatcher.go:155-206 | over every legal run the timers and actions are those the run decides, and the snapshot is that of the last readable reload |
| RepoWatcher.DebounceRule | internal/daemon/repowatcher.go:155-206 | a reload can start iff a counted event has been followed by the settle time, and since it by no other counted event and no reload |
| RepoWatcher.ChannelOfTheOwed | internal/daemon/repowatcher.go:156-193 | the channel selected on is that of the owed reload's timer, due the settle time after its event |
| RepoWatcher.ReloadsNeedEvents | internal/daemon/repowatcher.go:186-197 | between two reloads, and before the first, lies a counted event with the settle time of quiet after it |
| RepoWatcher.LastEventIsReloadedOnce | internal/daemon/repowatcher.go:186-197 | after the last counted event an uninterrupted loop reloads exactly once: it has, and cannot again; or it has not, and can |
| RepoWatcher.EventOwesIff | internal/daemon/repowatcher.go:49 | a change to any file of any directory makes a reload owed iff the file is neither `lock` nor `meta` |
| RepoWatcher.CatalogueWriteIsReloadedOnce | internal/daemon/repowatcher.go:186-197 | a write to `db`, with only `lock` and `meta` changing after it, is reloaded exactly once |
| RepoWatcher.SilentInputsAreInvisible | internal/daemon/repowatcher.go:186-203 | ignored files and error reports change neither the timers, nor what can fire, nor what is done |
| RepoWatcher.ReplacedTimersNeverFire | internal/daemon/repowatcher.go:156-159 | a value in a replaced timer's channel is never read, in any continuation |
| RepoWatcher.NoTimerIsLeftRunning | internal/daemon/repowatcher.go:163-193 | every timer but the selected one has been stopped or read, and when the loop is told to end, every one |
| RepoWatcher.NudgesAreTheGoodReloads | internal/daemon/repowatcher.go:67-71 | as many nudges as successful reloads, and one rebuild of the watches per attempt |
| CacheWatcher.SanityFilter | internal/daemon/watcher.go:218-242 | the loop computes the filter: both parts present, and the catalogue's size if there is a catalogue |
| CacheWatcher.Watcher.Scan | internal/daemon/watcher.go:246-290 | a failed walk reports nothing; a complete one reports each sane real file once and nothing else, for every map order |
| CacheWatcher.AnnouncedIffBacked | internal/daemon/daemon.go:57-67 | with a catalogue, nv is announced iff it has a row and a real file of the row's size, and nv is then a catalogue key |
| CacheWatcher.OneBadNameSilencesTheCache | internal/discovery/client.go:75-79 | nothing at all is sent iff there are too many files or one backed name the wire refuses; what is sent is registered iff its body also fits the tracker's bound |
| CacheWatcher.AnnouncedIsHeldIff | internal/daemon/cachesource.go:67-89 | an announced name can be served iff its plain file name in the cache directory itself opens as a file and holds no backslash and no NUL |
| CacheWatcher.LinkedPackageIsHeld | internal/daemon/cachesource.go:48-60 | in pkg's layout, the link beside the real file makes the package held |
| CacheWatcher.NestedFileIsAnnouncedButNotHeld | internal/daemon/watcher.go:251-274 | for every package whose only file lies in a subdirectory: announced, and not held |
| CacheWatcher.LinkAndFileAgreeIff | internal/daemon/watcher.go:255-264 | skipping links loses no name, exactly when the name before the hash does not end in a hash itself |
| Daemon.Daemon.StartDiscovery | internal/daemon/daemon.go:148-245 | on success both watchers and the keep-alive hold the current settings and share one fresh channel with the nudge; on failure no keep-alive runs, though the nudge is set unless the port was bad |
| Daemon.Daemon.StartHTTPServer | internal/daemon/daemon.go:361-411 | the old server is closed in every case; on success a new one holds the current address, client, snapshot, temp_dir and upstream, and success is reported whether or not it can bind |
| Daemon.Daemon.StartSeedServer | internal/daemon/daemon.go:282-319 | on success the seeder holds the current address, directory and caps; otherwise there is none |
| Daemon.Daemon.Start | internal/daemon/daemon.go:70-104 | success is reported iff every part holds the current settings; the facade then listens iff it could bind |
| Daemon.Daemon.Reload | internal/daemon/daemon.go:430-514 | the config is installed first; the wanted parts up to the first that cannot be built are new and right, that one is broken, all others as before; from a coherent daemon, coherent after iff success is reported |
| Daemon.Daemon.WhatMoved | internal/daemon/daemon.go:457-506 | the rebuild conditions select exactly the parts that hold a changed setting other than temp_dir and upstream_url, and the seeder whenever discovery is among them |
| Daemon.TakesIsWhatIsHeld | internal/daemon/daemon.go:282-411 | the settings said to be in a part are exactly those: a part right for one config is right for another iff both give it the same |
| Daemon.Daemon.ReadReannounce | internal/daemon/daemon.go:254-257 | on a coherent daemon the channel read is the running keep-alive's |
| Daemon.StartedIsCoherent | internal/daemon/daemon.go:70-104 | start-up reports success iff every part holds the current settings, and the facade then listens iff it could bind |
| Daemon.CoherentMeans | internal/daemon/daemon.go:148-411 | what every part of a coherent daemon does with each setting, snapshot and channel |
| Daemon.StartSucceedsIff | internal/daemon/daemon.go:70-104 | a start succeeds iff each of the seven things that can be refused is not |
| Daemon.ReloadSucceedsIff | internal/daemon/daemon.go:430-514 | a reload succeeds iff the config reads and every change in it can be carried out |
| Daemon.UnreadableConfigChangesNothing | internal/daemon/daemon.go:431-443 | a config that cannot be read changes nothing, and that is reported |
| Daemon.ExactlyTheStaleAreRebuilt | internal/daemon/daemon.go:478-506 | from a coherent daemon the parts rebuilt are exactly those the new config makes stale and those that depend on one of them |
| Daemon.SuccessIsCoherentIff | internal/daemon/daemon.go:455-513 | from any state, a successful reload leaves every part with the current settings iff each part it did not rebuild was already right |
| Daemon.ReloadIsCoherentIffItSucceeds | internal/daemon/daemon.go:430-514 | from a coherent daemon, every part holds the current settings after iff success was reported |
| Daemon.SuccessListensIff | internal/daemon/daemon.go:403-408 | after a successful reload the facade listens iff the reload built it and it could bind, or did not build it and it listened before |
| Daemon.RetryAfterFailureRebuildsNothing | internal/daemon/daemon.go:457-475 | after a failure the same config loads with success, changes nothing, and the daemon is not coherent |
| Daemon.MovingTheCataloguesHeals | internal/daemon/daemon.go:472-511 | a successful move of repo_db_dir gives every part of any daemon the current settings |
| Daemon.NewUpstreamTakesEffectIff | internal/daemon/daemon.go:491-500 | a changed temp_dir or upstream_url takes effect iff the same reload moves the facade's address, the tracker or the catalogues |
| Daemon.Serve | internal/daemon/daemon.go:413-427 | any sequence of SIGHUPs takes the object through a run of reloads, outcome by outcome |
| Daemon.SuccessfulRunsStayCoherent | internal/daemon/daemon.go:430-514 | after any sequence of successful reloads every part holds the current addresses, tracker, directories, caps and snapshot |
| Daemon.FacadeIsThatOfItsLastRebuild | internal/daemon/daemon.go:385-408 | over any successful run the facade uses the temp_dir and upstream_url of the config it was last built from, and listens iff it could bind then |
| Daemon.OccupiedAddressGoesUnreported | internal/daemon/daemon.go:403-410 | facade_addr taken at start: success is reported, every part holds its settings, nothing listens, and every reload of the same config reports success and leaves it so |
| Daemon.ReadsNameNoOldKeepAlive | internal/daemon/daemon.go:247-257 | in every run, failed reloads included, the channel a request reads is never that of a keep-alive already stopped or replaced |
| Daemon.NudgeReachesIff | internal/daemon/daemon.go:254-266 | read and send being two steps: a nudge reaches the running keep-alive iff one ran at the read and no reload replaced discovery before the send |
| Daemon.LateNudgeMisses | internal/daemon/daemon.go:254-266 | a read, a successful reload that moves cache_dir, and the send: it goes to the old channel |

## Left out

- Sockets, TLS, timeouts, redirects and HTTP framing: an exchange is its status, declared length, bytes and whether it broke.
- JSON encoding, but for the length of an announce's body; config file loading, flags, `${ABI}` expansion and `pkg config abi`: their outcome is an input.
- SQLite and fsnotify: a catalogue is a list of records or unreadable, a watch is a sequence of events.
- SHA-256 itself: the digest is any state that absorbs bytes and is rendered, so nothing here rests on collisions.
- Header relay, hop-by-hop headers and conditional requests; of a 304 only the missing body is modelled.
- Range and HEAD answers of the seed server: the file a 200 streams is fixed, the slice of it is not modelled.
- URL parsing and escaping: the base comes parsed, request paths decoded; whether a catalogue's source is this machine is any predicate on it.
- Go's `path.Clean` and `filepath.Base` are not part of the repository; they are written here as a segment stack and as the last element of a path.
- Locks and goroutines: each locked region is one step; the two reads of a row stay two steps, so do the read and the send of a seeder's nudge, and other requests may add to the blacklist before each turn of the peer loop.
- Other requests' files in temp_dir: they have names of their own, and a request here sees only its own.
- A scan that straddles a change of the cache: it reads one version, of those from its start on.
- The clock: one reading per operation, where `Ping` reads it twice.
- The table of decimal digits beyond ASCII: it is that of the Unicode Standard, and only the digits 0 to 9 are stated one by one.
- Strings are sequences of characters, that is, valid UTF-8; the byte length is computed from them.
- 64-bit overflow of `Size + 1`: sizes are unbounded here.
- Removing a spool file is taken to succeed.
- Listing and sorting the catalogue directory: the paths are given, in the order they come.
- The text of error responses: a response writer here holds the heads, the promised length and the relayed bytes.
- Log lines, warnings, the upstream advisory checks and the blacklist's `Len` and `Addrs`.
- The cache watcher's event loop, which ignores renames: wake-ups are stated for calls of the nudge.
- The demo and command-line mains.
- Download.Blacklist.Block: does not tell the lazily made map from an empty one, because nothing outside can.
- CacheWatcher.SanityFilter: sees one catalogue snapshot; the source looks each candidate up on its own, so a reload may fall between two of them.
- Facade.Facade.ServeUpstreamPackage: says nothing of the upstream bytes beyond relaying them, because the source only logs what does not match.
- RepoWatcher.RepoWatcher.Loop: does not model which directories a rebuilt watch set covers, because no event is tied to a directory here.
- Daemon.Daemon.StartHTTPServer: takes the check of the upstream URL as an outcome, and binds at once where a goroutine does it a little later.
- Seeder.ServeHTTP: runs one request at a time on the limiter object; interleavings are those of `Seeder.After` on values.
