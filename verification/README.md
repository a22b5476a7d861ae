# Verification of the dagger-kubernetes control plane

A Dafny model of the stateful cores of the supervisor, with proofs of what they
keep over whole runs:

- **The replicated state machine.** `Fsm` is the in-memory replica, a class with
  the fourteen maps of `fsmState` updated in place. `Indexed` says what each
  command does to those maps whether or not the indices are exact, and proves
  what holds of every log. `Tables` is a small relational machine (tables and a
  set of membership edges, uniqueness by scanning rows), and `Refinement` proves
  that a replica with exact indices is that machine, and when the indices stay
  exact. `Coherence` defines exact (`Coherent`) and sound (`Sound`) indices.
  `Dispatch` says the same in the wire format's own terms: numeric kinds, payload
  fields, rows and edges. `Snapshot` proves the persistence round trip and the snapshot-plus-tail theorem,
  `Runs` the properties of whole logs, `TraceMerge` the closed form of a merged
  trace row, `TraceList` the listing and its relation to the visibility rule.
- **Paginated log search.** `LogSearch` is the batched, bounded scan; `Pagination`
  follows the Next cursor and compares the pages with a plain filter.
- **Cluster bootstrap.** `CaProtocol` is the shared-Secret protocol as a state
  machine over every interleaving, `Discovery` pod names, addresses, certificate
  names and the seeding decision, `Membership` voter reconciliation.
- **Smaller cores.** `Limiter` (login lockouts), `LiveHub` (SSE channels),
  `LineWriter` (log line buffering), `EngineToml` (TOML rendering) and
  `TomlDocument` (reading the rendering back).

`Domain`, `Inverses`, `Ordering`, `Selections` and `Text` hold what these share.
`dafny verify dfyconfig.toml` checks everything.

## Reading the model

- JSON is the identity; a payload of the wrong shape is a decode failure. Instants
  are integers, 0 is the zero time. A `char` stands for a byte.
- `strings.ToLower` is the parameter `fold`, an arbitrary function on strings;
  regular expressions, name resolution and white-space trimming are parameters too.
- Iteration over a Go map picks the next key non-deterministically. API calls that
  may fail fail non-deterministically.
- A replica whose indices hold left-over entries goes on applying entries. A
  dereference of a missing row is the outcome `Panic`, which ends the run; a read
  that copies a missing row is `Crash`.
- Where a promise does not hold for all inputs the exact condition is proved:
  `NameRule` and `TokenRule` (exact indices, snapshot plus tail), an owner entry without a row (panic),
  distinct timestamps (pagination), one bootstrap pod or a Secret that is not empty
  (minting CA), `ScopeRule` (listing against visibility), a first subscription (hub
  safety), an earlier broadcast still pending for a subscriber (hub order).

Where the code and its comments differ the code is followed:

- `SearchTraceLogs` documents its cursor as exclusive; the query starts at the
  cursor inclusively and Next is the last timestamp plus one.
- Retired command kinds are no-ops except slot 17, which is an unknown kind and
  returns an error; no kind returns a count of reaped sessions any more.
- A user sees own traces filed under somebody else's group by ID but not in the
  list (`VisibleBeyondList`).

A plaintext mirror that is also a mirrored host makes `render` write the same
table header twice, which TOML forbids (`TablesDefinedOnce`).

## Model

| member | source | states |
|---|---|---|
| `Fsm.FsmState.Apply` | internal/repository/fsm.go:331-463 | in every reachable state one entry has one outcome and one result on all fourteen maps, changes nothing unless it succeeds, and keeps the replica sound; with exact indices it is the index-free step, and they stay exact iff it fails or respects the name and token rules |
| `Fsm.FsmState.Replay` | internal/repository/fsm.go:331-463 | a log is applied up to its end or its first panic; a log that keeps the rules is applied whole and gives the index-free run |
| `Fsm.FsmState.UpsertUser` | internal/repository/fsm.go:467-522 | the in-place update is the map function, on every replica, stale or not; a stored row is the given one but for a kept creation time and a filled-in update time |
| `Fsm.FsmState.DeleteUser` | internal/repository/fsm.go:537-567 | the token, edge and trace cascades, in any iteration order, give the map function's result, stale owner entries included |
| `Fsm.FsmState.UpsertGroup` | internal/repository/fsm.go:571-599 | the in-place update is the map function; a stored row is the given one but for the times |
| `Fsm.FsmState.DeleteGroup` | internal/repository/fsm.go:601-631 | the edge, project and trace cascades, in any iteration order, give the map function's result |
| `Fsm.FsmState.SetMembers` | internal/repository/fsm.go:633-664 | replaces exactly the group's edges in both maps, or rejects unknown endpoints without effect |
| `Fsm.FsmState.AddMembership` | internal/repository/fsm.go:667-676 | adds one edge to both adjacency maps and leaves no empty inner set |
| `Fsm.FsmState.UpsertProject` | internal/repository/fsm.go:680-709 | the in-place update is the map function; a stored row is the given one but for the times |
| `Fsm.FsmState.UpsertToken` | internal/repository/fsm.go:723-746 | the in-place update is the map function on every replica, and panics iff the owner entry leads to no row |
| `Fsm.FsmState.UpsertTraceIngest` | internal/repository/fsm.go:796-843 | the in-place merge equals the row function |
| `Fsm.FsmState.MarkTraceFailed` | internal/repository/fsm.go:847-860 | fails exactly the non-terminal rows and reports whether it did |
| `Fsm.FsmState.ReadUserByUsername` | internal/repository/fsm.go:875-885 | in every reachable state each row is found by its name; only the empty name can give a wrong row or crash, the latter iff its entry leads to no row |
| `Fsm.FsmState.ReadUserByOAuth` | internal/repository/fsm.go:887-897 | in every reachable state a hit is a live row with that OAuth key, a miss means no row has it |
| `Fsm.FsmState.ReadTokenByHash` | internal/repository/fsm.go:1040-1048 | in every reachable state each token is found by its hash; with exact indices nothing else is, and a nil row comes back iff the entry leads to no row |
| `Fsm.FsmState.ReadTokenByUser` | internal/repository/fsm.go:1050-1058 | in every reachable state a user's token is found; with exact indices nothing else is, and a nil row comes back iff the entry leads to no row |
| `Dispatch.AccountKinds` | internal/repository/fsm.go:349-368 | kinds 1 to 5 by number: user upsert with its fields one by one, user deletion, group upsert, group deletion, members |
| `Dispatch.AssetKinds` | internal/repository/fsm.go:368-389 | kinds 6 to 10 by number: project upsert and deletion, token upsert, deletion and touch |
| `Dispatch.ProvisionKind` | internal/repository/fsm.go:774-794 | kind 11 creates the row with its fields in place, or keeps the first owner and takes the last version |
| `Dispatch.IngestKind` | internal/repository/fsm.go:796-843 | kind 12 stores the row as it comes or merges it, every field written out from the two rows |
| `Dispatch.MarkFailedKind` | internal/repository/fsm.go:847-860 | kind 13 fails a row that has not ended and answers whether it did |
| `Dispatch.SettingAndDeletionKinds` | internal/repository/fsm.go:412-430 | kind 14 sets one setting, kind 22 removes one trace |
| `Dispatch.IdleKinds` | internal/repository/fsm.go:331-463 | every other entry leaves all maps alone: payloads of the wrong shape and unknown numbers fail, retired and session kinds succeed |
| `Dispatch.UserWritten` | internal/repository/fsm.go:482-513 | the stored user field by field from the payload, with the creation time of an existing row |
| `Dispatch.GroupWritten` | internal/repository/fsm.go:571-599 | the stored group field by field |
| `Dispatch.ProjectWritten` | internal/repository/fsm.go:680-709 | the stored project field by field |
| `Dispatch.UserAnswers` | internal/repository/fsm.go:467-512 | in every reachable state: not found iff an update finds no row, conflict iff a creation finds one or another row has the name or OAuth identity, else success |
| `Dispatch.GroupAnswers` | internal/repository/fsm.go:571-599 | the same for groups over all other rows' names |
| `Dispatch.ProjectAnswers` | internal/repository/fsm.go:680-709 | the same for projects |
| `Dispatch.TokenWritten` | internal/repository/fsm.go:723-746 | with exact indices a token is refused iff another user has its hash, else it replaces exactly its owner's tokens |
| `Dispatch.TokenDeleted` | internal/repository/fsm.go:748-770 | with exact indices exactly the user's tokens go |
| `Dispatch.MembersWritten` | internal/repository/fsm.go:633-664 | refused iff an endpoint is missing; afterwards the group has exactly the given members in both maps and all other edges are as before |
| `Indexed.RunSound` | internal/repository/fsm.go:467-770 | every log, without any condition: rows keyed and found by their keys, secondary keys unique, one token per user, edges mirrored and live, nothing but name and token entries ever left over |
| `Indexed.EnactSound` | internal/repository/fsm.go:349-430 | every command keeps that invariant on every sound replica |
| `Indexed.PutTokenSound` | internal/repository/fsm.go:723-770 | even through a left-over owner entry no hash and no owner gets a second token |
| `Indexed.PanicIff` | internal/repository/fsm.go:723-728 | an entry panics iff it stores a token for a user whose owner entry leads to no row |
| `Refinement.PutUserTables` | internal/repository/fsm.go:467-522 | with exact indices an upsert does to the tables what scanning all users does |
| `Refinement.PutUserExact` | internal/repository/fsm.go:486-492 | the user indices stay exact iff the upsert fails or does not rename a user stored with an empty name |
| `Refinement.DropUserTables` | internal/repository/fsm.go:537-567 | with exact indices the deletion is the relational one |
| `Refinement.PutTokenTables` | internal/repository/fsm.go:723-746 | with exact indices an upsert does to the tables what scanning all tokens does |
| `Refinement.PutTokenExact` | internal/repository/fsm.go:742-746 | the token indices stay exact iff the upsert fails or its ID is not another user's |
| `Refinement.PutGroupTables` | internal/repository/fsm.go:571-599 | insert or update with index maintenance refines the scan-based specification |
| `Refinement.DropGroupTables` | internal/repository/fsm.go:601-631 | the cascades equal the relational deletion |
| `Refinement.PutMembersTables` | internal/repository/fsm.go:633-664 | replacing the members is replacing the group's edges |
| `Refinement.PutProjectTables` | internal/repository/fsm.go:680-709 | insert or update with index maintenance refines the scan-based specification |
| `Refinement.OthersRefine` | internal/repository/fsm.go:331-463 | in every reachable replica, stale or not, all commands but user upsert and deletion and token upsert and deletion do what the scan-based machine does |
| `Refinement.EnactRefines` | internal/repository/fsm.go:331-463 | on a coherent replica every command has the specified tables and outcome, and leaves it coherent iff it fails or keeps the rules |
| `Refinement.RunRefines` | internal/repository/fsm.go:331-463 | a log that keeps the rules never panics, ends coherent and gives the index-free run |
| `Refinement.CoherentThroughoutIff` | internal/repository/fsm.go:467-770 | a log keeps the rules iff all six indices are exact in every state of its run |
| `Coherence.CoherentUnique` | internal/repository/fsm.go:253-279 | two coherent replicas with the same tables and edges agree on all fourteen maps |
| `Coherence.SoundConsistent` | internal/repository/fsm.go:253-279 | in a sound replica all secondary keys are unique and every edge has live endpoints |
| `Coherence.NamesAfterUpdateInverse` | internal/repository/fsm.go:486-492 | the name index after an update is the inverse of the names iff the name rule holds |
| `Coherence.TokensPut` | internal/repository/fsm.go:742-746 | storing a token over a free hash and owner keeps both token indices exact iff its ID is free |
| `Coherence.HashTakenByIndex` | internal/repository/fsm.go:723-738 | the two hash lookups of an upsert amount to one scan for another owner of the hash |
| `Coherence.OAuthKeyInjective` | internal/repository/fsm.go:1250-1252 | providers without the separator byte never collide on an OAuth key |
| `Snapshot.Snapshot` | internal/repository/fsm_snapshot.go:65-92 | whatever order the maps are walked in, the payload records exactly the tables and edges |
| `Snapshot.Restore` | internal/repository/fsm_snapshot.go:97-171 | a payload that records a consistent database is installed as that database with exact indices, whatever the target held |
| `Snapshot.RoundTrip` | internal/repository/fsm_snapshot.go:65-171 | from every reachable state snapshot and restore bring back the tables and edges, and all fourteen maps iff the source was coherent |
| `Snapshot.ResumeFromSnapshot` | internal/repository/fsm_snapshot.go:65-171 | for every log that keeps the rules and every cut, restoring the prefix's snapshot and replaying the suffix ends in the same fourteen maps as replaying everything |
| `Snapshot.ResumesIffRulesKept` | internal/repository/fsm_snapshot.go:65-171 | every prefix of a log resumes from every cut to the same fourteen maps iff the log keeps the rules |
| `Runs.Reach` | internal/repository/fsm.go:331-463 | every log reaches a sound replica with a consistent database; one with non-empty names and stable token owners reaches a coherent one |
| `Runs.WellFormedLogKeeps` | internal/repository/fsm.go:467-522 | that condition on the log alone implies the rules in every state of the run |
| `Runs.ErasureKeepsMaps` | internal/repository/fsm.go:331-463 | on every log, erasing failed, retired and session commands leads to the same fourteen maps |
| `Runs.ReplayErased` | internal/repository/fsm.go:331-463 | replicas fed with a log and with its erased form hold the same maps |
| `Runs.CreatedAtIsPermanent` | internal/repository/fsm.go:467-709 | until deleted, a user, group or project survives every log with its creation time |
| `Runs.DeleteUserCascade` | internal/repository/fsm.go:537-567 | after a deletion in any reachable state no token, edge or trace names the user; every other row is unchanged, tokens iff the owner entry does not lead to another user's |
| `Runs.DeleteGroupCascade` | internal/repository/fsm.go:601-631 | after a deletion in any reachable state no edge, project or trace names the group and every other row is unchanged |
| `Runs.ReuseBreaksRules` | internal/repository/fsm.go:723-746 | every log that stores a token ID for one user and then for another breaks the rules |
| `Runs.ReuseLeadsAstray` | internal/repository/fsm.go:742-746 | whenever a token ID is reused for another user, the first owner's entry leads to that user's token |
| `Runs.AstrayLosesToken` | internal/repository/fsm.go:724-734 | storing the first owner's next token then deletes the other user's |
| `Runs.AstrayPanics` | internal/repository/fsm.go:724-728 | or panics, once the other user's token has been deleted |
| `Runs.ReuseLosesToken` | internal/repository/fsm.go:723-746 | the three-entry log after which the other user's token is gone |
| `Runs.ReusePanics` | internal/repository/fsm.go:723-728 | the four-entry log whose last entry panics |
| `Runs.RenameBreaksRules` | internal/repository/fsm.go:486-489 | every log that creates a user with an empty name and renames it breaks the rules |
| `Runs.RenameLeavesName` | internal/repository/fsm.go:486-489 | the renaming leaves the empty name leading to a user who no longer has it |
| `Runs.LeftoverNameBlocks` | internal/repository/fsm.go:471-478 | a left-over empty name turns away everybody else who would take it |
| `TraceMerge.TraceClosedForm` | internal/repository/fsm.go:774-860 | for every history without a deletion: status of the last terminal ingest, else failed by the first landed mark, else the last reported status; the failure reason likewise |
| `TraceMerge.TerminalIsSticky` | internal/repository/fsm.go:812-825 | a terminal trace stays terminal, and only another terminal ingest changes its status or reason |
| `TraceMerge.FirstFail` | internal/repository/fsm.go:847-860 | the position of the first failure mark that finds the row in place |
| `TraceMerge.LastOfferWins` | internal/repository/fsm.go:774-843 | version, project, CI provider and CI repository hold the last non-empty value offered |
| `TraceMerge.LastReadingWins` | internal/repository/fsm.go:835-840 | duration and start time are the last non-zero value an ingest reported |
| `TraceMerge.LastTouchWins` | internal/repository/fsm.go:792-858 | the update time is that of the last ingest, provision or effective failure mark |
| `TraceMerge.FirstOfferHolds` | internal/repository/fsm.go:774-808 | owner and group hold the value of the holding entry, across deletions of users and groups |
| `TraceMerge.HolderMeaning` | internal/repository/fsm.go:553-560 | what stands was offered and not deleted since, and every earlier offer came before a deletion; nothing stands only if every offer did |
| `TraceList.ListTraces` | internal/repository/fsm.go:1159-1202 | the page is the first rows of the one sorted listing of all requested rows, newest first with ties by ID; its length for every limit in numbers; no requested trace left off it is newer than one on it; rows show the stored trace with its names |
| `TraceList.WantedMeaning` | internal/repository/fsm.go:1159-1238 | a trace is listed iff it is in the filter's scope and mentions the requested texts, letter case aside |
| `TraceList.ListingUnique` | internal/repository/fsm.go:1190-1202 | tables and filter determine the listing, so map iteration order cannot show |
| `TraceList.BuildFilter` | internal/handler/traces.go:25-45 | a non-admin gets the group and owner scope; an admin's filter matches exactly the requested groups, the unassigned traces, or everything |
| `TraceList.ListWithinVisible` | internal/handler/middleware.go:100-130 | everything a non-admin can list passes the visibility rule iff the identity has no empty group ID and some scope |
| `TraceList.VisibleBeyondList` | internal/handler/middleware.go:119-130 | what the rule allows beyond the list is exactly own traces under a foreign group |
| `TraceList.ListedIsAuthorized` | internal/handler/middleware.go:100-130 | in every state, for all text filters and limits, a listed trace is authorized |
| `LogSearch.SearchTraceLogs` | internal/repository/log_store.go:107-185 | one page is the first limit matches of the examined entries with the matching cursor, holds only what was asked for, has more to come only if full or after 5000 entries, which are never exceeded |
| `LogSearch.ScanState.ScanBatch` | internal/repository/log_store.go:201-228 | the scan state summarizes exactly the raw entries seen, and stops early only when full and not counting |
| `Pagination.PagesAreSelection` | internal/repository/log_store.go:107-185 | with or without ties, all pages together are an in-order selection of the matches |
| `Pagination.PagesAscendWithoutRepeats` | internal/repository/log_store.go:107-185 | pages ascend in time and never repeat an entry |
| `Pagination.PagesComplete` | internal/repository/log_store.go:107-185 | with distinct timestamps following Next ends and yields exactly the filtered window |
| `Pagination.FollowNext` | internal/repository/log_store.go:107-185 | a client calling again with each Next terminates and gets only entries of its window, spans and text, ascending; with distinct timestamps exactly those, each once |
| `Pagination.CompleteIffDistinct` | internal/repository/log_store.go:164-184 | every request is answered completely iff no two entries share a timestamp |
| `Pagination.TieIsLost` | internal/repository/log_store.go:177-184 | two entries at one instant and one entry per page lose the second |
| `Pagination.SortRestoresBatch` | internal/repository/log_store.go:153-157 | with distinct timestamps, sorting any interleaving of a batch's streams gives the time-ordered batch |
| `Pagination.CountingChangesNoPage` | internal/repository/log_store.go:201-228 | requesting counts changes neither entries nor Next |
| `Pagination.CountedWindow` | internal/repository/log_store.go:140-169 | with distinct timestamps the examined entries are the first 5000 of the window |
| `Pagination.CountsAreExact` | internal/repository/log_store.go:212-214 | a span's count is its number of matches |
| `CaProtocol.RaftCaAgrees` | internal/repository/raft_tls.go:151-214 | in every interleaving with any number of bootstrap pods, all CAs ever returned are one |
| `CaProtocol.MintingCaAgreesIff` | internal/repository/ca_providers.go:239-325 | every interleaving agrees iff the Secret does not start empty or there is at most one bootstrap pod |
| `CaProtocol.RaceOnEmptySecret` | internal/repository/ca_providers.go:246-279 | the run in which two bootstrap pods overwrite an empty Secret and return different CAs |
| `CaProtocol.StoredCaIsPermanent` | internal/repository/ca_providers.go:246-279 | once the Secret holds a CA no step of any pod changes it |
| `CaProtocol.BootstrapStores` | internal/repository/ca_providers.go:258-279 | a bootstrap pod that finds no Secret stores its own CA and returns it in two calls |
| `CaProtocol.BootstrapRepairs` | internal/repository/ca_providers.go:246-279 | an empty Secret is overwritten with the bootstrap pod's CA, which it returns |
| `CaProtocol.EveryoneReturnsIt` | internal/repository/ca_providers.go:239-325 | once a CA is stored every pod that starts, creates, re-reads or polls returns it within three calls |
| `CaProtocol.OthersWait` | internal/repository/ca_providers.go:285-325 | without a Secret a pod that may not write waits and returns nothing |
| `Discovery.OrdinalZeroSuffix` | cmd/api/main.go:1116-1124 | among `<sts>-i` exactly ordinal 0 is detected by its suffix |
| `Discovery.WritersInFull` | cmd/api/main.go:1116-1124 | who may write each CA: everybody on a single node, else ordinal 0, and for the Raft CA whoever is told to |
| `Discovery.StatefulSetMintingCaAgrees` | cmd/api/main.go:1182-1187 | in a StatefulSet the minting CA is agreed on in every run from every initial Secret |
| `Discovery.StatefulSetRaftCaAgrees` | cmd/api/main.go:1116-1124 | in a StatefulSet the Raft CA has a writer and is agreed on in every run; ordinal 0 is the only writer iff bootstrapping is not forced and the set is not a single node |
| `Discovery.Resolve` | internal/repository/raft_discovery.go:113-137 | succeeds iff the configuration is complete and lists every ordinal with its ID and address written out |
| `Discovery.OrdinalRoundTrip` | internal/repository/raft_discovery.go:161-175 | parsing a generated host name gives back its ordinal |
| `Discovery.SelfIsListed` | internal/repository/raft_discovery.go:147-158 | a pod derives for itself the ID and address every peer lists for its ordinal |
| `Discovery.ResolveBootstrapState` | internal/repository/raft_store.go:258-285 | a pod seeds iff it is the first resolved voter or cannot identify itself; its node ID is the configured, else its own, else the persisted one |
| `Discovery.SeedIsUnique` | internal/repository/raft_store.go:258-268 | among the pods of the set exactly ordinal 0 seeds, each under the ID its peers list for it |
| `Discovery.PodSans` | internal/repository/raft_discovery.go:293-316 | exactly the host, localhost and the qualified names the configuration allows, first occurrences in order, and the loopback address |
| `Discovery.ForwardHostIsCertified` | internal/handler/leader_forward.go:109-118 | the host dialled on the forward hop is among both certificates' names of the pod behind it |
| `Membership.Cluster.Reconcile` | internal/repository/raft_store.go:571-630 | from any configuration: success leaves exactly the named peers, each at its peer's address or at the one it had if that is what the address resolves to, and reports exactly what changed; failure leaves every voter where it was or where a peer is listed |
| `Membership.Cluster.ReconcileTwice` | internal/repository/raft_store.go:571-630 | a second successful run changes and reports nothing |
| `Membership.TargetSettled` | internal/repository/raft_store.go:639-655 | the target has exactly the desired IDs, each at the desired address or its resolution |
| `Membership.TargetIdempotent` | internal/repository/raft_store.go:639-655 | reconciling a reconciled configuration is the identity |
| `Limiter.AttemptLimiter.RecordFailure` | internal/handler/ratelimit.go:72-101 | the exact new table with the oldest record evicted only when full, the lock returned, and the table invariant |
| `Limiter.AttemptLimiter.Allow` | internal/handler/ratelimit.go:58-68 | refuses exactly while the record is locked, and sweeping keeps the invariant |
| `Limiter.AttemptLimiter.EvictOldest` | internal/handler/ratelimit.go:123-137 | drops one record with the smallest lastSeen |
| `Limiter.ShiftCapInvisible` | internal/handler/ratelimit.go:90-98 | the capped shift computes min(30s * 2^(f-5), 15min) for every failure count and fits 64 bits |
| `Limiter.LocksEndBeforeTtl` | internal/handler/ratelimit.go:113-119 | locks end within 15 minutes of the last failure, so the sweep never drops a live one |
| `Limiter.KeysAreIsolated` | internal/handler/ratelimit.go:58-119 | without eviction, the answers for a key are those of an automaton fed with that key's calls alone |
| `Limiter.LockedKeyRefused` | internal/handler/ratelimit.go:58-101 | in every run without eviction a locked key is refused until its lock ends unless it succeeds in between |
| `Limiter.NthFailureLocks` | internal/handler/ratelimit.go:72-101 | in every run without eviction the n-th failure in a row answers 0 for n < 5 and then min(30s * 2^(n-5), 15min), and the key is refused for exactly that long |
| `Limiter.StreakEnds` | internal/handler/ratelimit.go:103-119 | a success or half an hour without a failure starts the count again |
| `Limiter.AttemptLimiter.RecordSuccess` | internal/handler/ratelimit.go:103-108 | forgets exactly the key and keeps the table invariant |
| `LiveHub.HubIsSafe` | internal/repository/live_hub.go:41-115 | in every interleaving with one subscription per client: no send after close, no double close, no empty topic, sound channels |
| `LiveHub.OfferedOnce` | internal/repository/live_hub.go:41-90 | in every such interleaving a client is offered each broadcast of its topic between joining and leaving exactly once, except those whose send is still to come |
| `LiveHub.ReceivedInOrder` | internal/repository/live_hub.go:84-115 | a client receives an in-order selection of what was offered to it, complete unless something was lost |
| `LiveHub.PumpDrains` | internal/repository/live_hub.go:93-115 | from every reachable state as many rounds of a live pump as messages wait deliver them all in order; then a client that left is closed down and any other waits |
| `LiveHub.LossIffFullBuffer` | internal/repository/live_hub.go:84-89 | in every run a client has lost a message iff some send to it found 256 messages waiting |
| `LiveHub.SerialKeepsOrder` | internal/repository/live_hub.go:70-90 | when each broadcast starts after its topic's subscribers have been served, offers come in broadcast order |
| `LiveHub.OverlapReorders` | internal/repository/live_hub.go:70-90 | from any state where a subscriber still waits for an earlier broadcast, starting another admits sends in the wrong order |
| `LiveHub.StreamDelivered` | internal/repository/live_hub.go:41-115 | without overlap, offers are exactly the topic's broadcasts during the client's stay in order, and all are received or waiting unless some send found the buffer full |
| `LiveHub.SubscribeSafeIff` | internal/repository/live_hub.go:41-66 | from every reachable state a subscription is safe against all continuations iff it is the client's first |
| `LineWriter.Writer.Write` | internal/repository/raft_store.go:1002-1027 | logs the complete lines of buffer plus input and retains what follows the last newline |
| `LineWriter.Writer.WriteAll` | internal/repository/raft_store.go:1002-1027 | any chunking logs the same lines, a function of the whole stream |
| `LineWriter.StreamRecovered` | internal/repository/raft_store.go:1006-1015 | lines and retained rest put together are the stream, and neither contains a newline |
| `LineWriter.OneLine` | internal/repository/raft_store.go:1010-1027 | a line ended with or without a carriage return is logged trimmed, or not at all if nothing is left |
| `EngineToml.TomlEscape` | internal/repository/engine_toml.go:81-110 | the byte loop computes the escape of each byte in order |
| `EngineToml.QuoteReadsBack` | internal/repository/engine_toml.go:75-110 | reading a quoted string by the basic-string rules of TOML v1.0.0 consumes exactly it and yields the original |
| `EngineToml.Render` | internal/repository/engine_toml.go:22-71 | one text per configuration, whatever order the mirror map is walked in |
| `EngineToml.MirrorHttpIsASet` | internal/repository/engine_toml.go:46-58 | reordering or repeating plaintext mirrors changes nothing |
| `EngineToml.TablesDefinedOnce` | internal/repository/engine_toml.go:30-40 | all registry tables have distinct headers iff no plaintext mirror is also a mirrored host |
| `TomlDocument.RenderedReadsBack` | internal/repository/engine_toml.go:22-42 | reading the rendered text gives back debug, the log format, each host's mirrors in order and each plaintext host, and nothing else |

## Left out

- Session leases: session commands touch none of the fourteen maps and go to a sink that is not persisted.
- Row references: rows are values, so aliasing between stored rows and callers is not modelled; null rows in a decoded snapshot are not either.
- The unordered read helpers (`listUsers`, `members`, `listTracesBefore`, `traceStats` and the like): filters and sorts without a further invariant.
- Locking: commands, reads and snapshots of the replica are sequential, as its mutex makes them.
- HashiCorp Raft: a committed log and atomic configuration changes are taken as given.
- Loki transport: query errors and the request checks before the scan.
- LogSearch.SearchTraceLogs: takes each batch in time order, which sorting gives for distinct timestamps (`Pagination.SortRestoresBatch`); how ties are interleaved by streams is not modelled.
- Span ID normalization and extraction from log lines.
- LogSearch.SearchTraceLogs: timestamps are unbounded integers and not negative where the cursor theorems need it, so int64 overflow of Next is not modelled.
- Certificate generation and parsing, the local CA cache and the file-based CA mode.
- Discovery.Resolve: only DNS discovery; the static and single-node resolvers and parsing the Raft port out of the bind address are not modelled.
- Discovery.ForwardHostIsCertified: addresses with bracketed IPv6 literals are not modelled.
- LiveHub.ReceivedInOrder: keep-alive ticks and JSON encoding failures of an event are not modelled.
- EngineToml.QuoteReadsBack: the reader knows `\u` escapes in the ASCII range only and no `\U` escapes, neither of which the renderer writes otherwise.
- TomlDocument.RenderedReadsBack: the reader knows the constructs the renderer writes, and does not reject a table defined twice (`EngineToml.TablesDefinedOnce` says when that happens).
- HTTP handlers, reverse proxies, Kubernetes objects, the fleet manager, autopilot, configuration loading and the UI.
