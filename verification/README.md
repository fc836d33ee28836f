# Conduit back end: models and proofs

Conduit is a self-service portal: users ask for client certificates and for addresses to be let through a
firewall, and background jobs on one elected instance carry the requests out. This project models the stateful
parts of its Go back end and proves what they keep, over every run, every interleaving and every input.

- **Leadership** (`jobs.dfy`, `leadership.dfy`, `leadership_effects.dfy`, `leadership_safety.dfy`, `election.dfy`). A
  Redis key with an expiry is taken by SETNX and renewed by GET then EXPIRE; a separate poll starts and stops each
  instance's leader jobs from the `isLeader` flag. The protocol is a step relation in which every command, every
  change of the flag and every poll is a step of its own, any command may be lost or lose its answer, and the clock
  moves only while the assumed deadlines are met. The election object and the job manager are classes proved against
  it.
- **Firewall reconciliation** (`router.dfy`, `firewall_sync.dfy`). Table rows are grouped by host, compared with
  what the router shows, and the difference is applied to a second reading.
- **The whitelist table** (`whitelist.dfy`, `whitelist_effects.dfy`, `whitelist_runs.dfy`,
  `whitelist_blacklist.dfy`, `whitelist_quota.dfy`, `whitelist_quota_tight.dfy`). Statements as class methods;
  handlers and jobs as operations interleaved between their reads and their writes; what each of them does, in terms
  of rows and the clock.
- **Certificate requests** (`certificates.dfy`, `certificate_effects.dfy`). Reviews and two workers interleaved call
  by call, with crashes; what a review and each call do to their request.
- **Durations** (`duration_scan.dfy`, `duration.dfy`, `duration_meaning.dfy`, `duration_twice.dfy`,
  `duration_words.dfy`), **API tokens** (`token.dfy`), **grouping joined rows** (`join_rows.dfy`), **the expiring
  key-value store** (`mem_cache.dfy`), **migrations** (`migrations.dfy`) and **label values** (`labels.dfy`).
  `common.dfy` holds what they share.

Some promises of the code, its comments or its design hold only under a condition. For each of these the condition
is proved, with a run or an input that breaks the promise without it:

- The lease does not give mutual exclusion of leader jobs by its timing alone. An instance whose flag is down and
  whose GET finds its own ID in the key (after a lost SETNX answer, a failed GET or a restart) raises its flag and
  ignores what its EXPIRE answers. If that EXPIRE is lost, or lands on another instance's key, it leads on a lease
  that may be about to end. `LeadershipSafety.ExactlyWhenExclusive`: exclusion holds exactly if the gaps fit the
  lease and no such adoption goes unextended.
- A tick of the leadership monitor does not bring the leader jobs back after they were stopped
  (`Jobs.RunsIffNotStopped`).
- The comment on `AddIPToWhitelist` says its transaction keeps concurrent requests within the limits. It counts and
  does not compare; k adds at once reach the limit plus k - 1 (`WhitelistQuotaTight.BoundIsExact`).
- Blacklisting a pair can be undone: by an add of the pair that has passed the blacklist check, and by a user's
  removal or an expiry pass that has read one of its rows, as neither looks at the status it overwrites.
  `WhitelistBlacklist.BlacklistingIsPermanentIff`: it is permanent exactly if none of these is under way;
  `WhitelistBlacklist.RemovalUndoesBlacklisting` is a run.
- The event log does not always tell a row's status: marking logs rows it no longer changes.
  `WhitelistRuns.LogTellsIff`: it tells exactly as long as every mark finds its rows active. Statuses rise exactly as
  long as no removal finds a row blacklisted (`WhitelistRuns.StatusRisesIff`), and events are changes, one each, exactly
  as long as no removal finds a row removed and no mark finds one not requested (`WhitelistRuns.EventsAreChangesIff`).
- The creation worker leaves a request pending when its identifier could not be recorded, and says the status job
  will find it. The status job never does (`Certificates.AbandonedForever`, `Certificates.UnrecordedIsAbandoned`).
- A request can get two certificates, exactly when a look-up misses one that was made: after a creation that was
  reported as failed (`Certificates.SecondIffMissed`, `Certificates.LostReportMakesTwo`).
- A value of the key-value store can be deleted before its deadline, exactly when a timer of an earlier value of the
  same key is due first (`MemCache.LostIffEndangered`).
- A bare number of seconds too large for 64 bits is taken for another duration instead of being refused
  (`DurationMeaning.BareNumberMeans`). A product of a quantity and its unit's hours that leaves 64 bits is taken for
  another number of hours, which may be refused, as for 2^60 days, or not, as for 2^61 days
  (`DurationMeaning.DurationMeans`, `DurationTwice.ZeroDays`, `DurationTwice.RefusedDays`); and the text may not
  be accepted again (`DurationTwice.StandardizeIsIdempotentIff`).

`dafny verify dfyconfig.toml` checks the whole project.

## Model

| member | source | states |
|---|---|---|
| `Jobs.BookIsAlwaysConsistent` | internal/jobs/job_manager.go:71-181 | after any sequence of starts, stops and polls each job has at most one uncancelled goroutine, has one exactly when its name is in `cancelFuncs`, and a leader job lives only while the monitor last saw the flag up |
| `Jobs.StartKeeps` | internal/jobs/job_manager.go:99-124 | starting adds exactly the selected names and leaves every existing goroutine as it was |
| `Jobs.StopKeeps` | internal/jobs/job_manager.go:126-141 | stopping removes exactly the selected names and cancels exactly their goroutines |
| `Jobs.PollSparesOtherJobs` | internal/jobs/job_manager.go:71-97 | no tick touches a job that does not need leadership |
| `Jobs.RunsIffNotStopped` | internal/jobs/job_manager.go:71-97 | over every history: since the flag was last seen to go up, all leader jobs run if and only if nothing has stopped them in the meantime; no later tick brings them back |
| `Jobs.TicksFollowFlag` | internal/jobs/job_manager.go:41-50 | until the manager is shut down, that holds after every tick |
| `Jobs.OtherJobRunsIff` | internal/jobs/job_manager.go:41-50 | over every history a job that does not need leadership runs if and only if these jobs were started and nothing was shut down since; no poll matters |
| `Jobs.OthersStart` | internal/jobs/job_manager.go:143-168 | starting these jobs starts each of them and stops nothing |
| `Jobs.ShutDownStopsAll` | internal/jobs/job_manager.go:170-181 | after a shutdown no job runs, whatever was asked before |
| `Jobs.ShutdownLosesLeaderJobs` | internal/jobs/job_manager.go:170-181 | a history in which a tick reads the flag up and no leader job runs |
| `Jobs.JobManager.StartSelected` | internal/jobs/job_manager.go:99-124 | the loop over the jobs gives the book `Start` gives |
| `Jobs.JobManager.StopSelected` | internal/jobs/job_manager.go:126-141 | cancelling job by job gives the book in which all selected names are stopped at once |
| `Jobs.JobManager.MonitorTick` | internal/jobs/job_manager.go:71-97 | one tick, and the invariant it keeps |
| `Jobs.JobManager.StartNonLeaderJobs` | internal/jobs/job_manager.go:143-168 | the loop starts the jobs that do not need leadership, which `Jobs.OthersStart` and `Jobs.OtherJobRunsIff` say in terms of the jobs that run, and keeps the invariant |
| `Jobs.JobManager.StopAllJobs` | internal/jobs/job_manager.go:170-181 | cancels every job, leaves `wasLeader` alone and keeps the invariant |
| `Leadership.LeaseStep` | internal/distributed/election.go:27-108 | every step keeps: until TTL after an instance last wrote the key while holding it, the key is its own and lasts at least that long |
| `Leadership.StaleFlagIsOld` | internal/distributed/election.go:21-60 | over every run, with any delay and any command failing: a flag readable as up without the live key belongs to an instance that wrote the key at least TTL ago |
| `Leadership.ExpireOnlyLengthens` | internal/distributed/election.go:38-44 | in every reachable state an EXPIRE, even on another instance's key, never shortens the lease |
| `LeadershipSafety.FreshStep` | internal/distributed/election.go:27-82 | every step within the deadlines keeps the bound on how old an acting leader's last write can be |
| `LeadershipSafety.MutualExclusion` | internal/distributed/election.go:27-108 | if the gaps between campaigns, from write to end of campaign, and between polls add up to less than the lease, and every EXPIRE after an adoption takes effect on the own key, no reachable state has two instances with an uncancelled leader job; lost answers, failed GETs and restarts included |
| `LeadershipSafety.GapsTooLong` | internal/distributed/election.go:62-82 | if the gaps add up to the lease or more, a run has two |
| `LeadershipSafety.UnextendedAdoptionBreaks` | internal/distributed/election.go:40-43 | if an instance that finds its own ID in the key while its flag is down may lead on although its EXPIRE is lost, a run has two however short the gaps are |
| `LeadershipSafety.ExactlyWhenExclusive` | internal/distributed/election.go:27-108 | mutual exclusion holds if and only if both conditions do |
| `LeadershipSafety.CodeIntervals` | internal/distributed/election.go:62-66 | with campaigns and polls every TTL/3 rounded down, it holds exactly if every adopted lease is extended and the lag from write to end of campaign is below TTL - 2(TTL/3) |
| `LeadershipEffects.HandsOver` | internal/distributed/election.go:84-108 | from any state with an idle leader: once it is cancelled and resigns, the next campaign and poll of any other ready instance make that one lead, with a whole lease and its leader jobs running, while the old one runs none |
| `LeadershipEffects.TakesOver` | internal/distributed/election.go:27-36 | when a leader is gone without a word, the first campaign after the end of its lease makes another instance lead |
| `LeadershipEffects.ComesBack` | internal/distributed/election.go:38-45 | a leader that restarts within its lease leads again after one campaign, on a lease extended to its whole length |
| `LeadershipEffects.CannotWin` | internal/distributed/election.go:27-56 | while another instance holds the live key, a campaign leaves the key alone and the flag down |
| `LeadershipEffects.LeavesQuietly` | internal/distributed/election.go:84-108 | an instance that does not lead shuts down without touching the key |
| `LeadershipEffects.JobsAfter` | internal/jobs/job_manager.go:71-181 | which jobs run after each step: all others started, all stopped, leader jobs started or stopped with a change of the flag, none after a restart |
| `LeadershipEffects.CancelledRunsNothing` | internal/jobs/job_manager.go:99-124 | an instance whose context is cancelled runs no leader job until it restarts |
| `LeadershipEffects.ReadableIff` | internal/distributed/election.go:21-25 | the flag can be read except while a campaign that has asked for the holder, or a resignation, has the lock |
| `LeadershipEffects.OwnInstanceOnly` | internal/distributed/election.go:27-108 | a step writes its own instance only, and only the commands write the key |
| `Election.Elector.Campaign` | internal/distributed/election.go:27-60 | the flag and the key after a campaign in every case of answers, losses and expiry; the campaign is a run of the protocol from one pause to the next |
| `Election.Elector.Renew` | internal/distributed/election.go:38-45 | GET, then EXPIRE only of an own key; the flag is up exactly when the key was found to be its own |
| `Election.Elector.Resign` | internal/distributed/election.go:84-108 | deletes the key only if it is still its own, always lowers the flag, and is a run of the protocol |
| `Election.RedisServer.RunSetNX` | internal/distributed/election.go:28-32 | SETNX as Redis carries it out, including one whose answer is lost |
| `Router.IsInternalAlias` | internal/services/firewall/get_alias_types.go:60-68 | true exactly for keys that start with one of the internal prefixes |
| `Router.IsAliasReference` | internal/services/firewall/get_alias_types.go:71-83 | true exactly for keys without a dot, a colon, or a dash after a first character other than a dash |
| `Router.OneItem` | internal/services/firewall/get_alias_types.go:44-57 | an item of the alias adds the address before the slash of its value if it is selected and its key neither internal nor a reference, and nothing otherwise, whatever the other items are |
| `Router.UnselectedDoesNotCount` | internal/services/firewall/get_alias_types.go:47 | an item that is not selected might as well not be there |
| `Router.SelectedHostCounts` | internal/services/firewall/get_alias_types.go:44-57 | a selected host counts, whether or not its value carries a prefix length |
| `Router.InternalIff` | internal/services/firewall/get_alias_types.go:60-68 | the four internal prefixes, by name |
| `Router.ReferenceIff` | internal/services/firewall/get_alias_types.go:71-83 | a reference has no dot, no colon, and a dash only if it starts with one |
| `Router.GetSelectedIPs` | internal/services/firewall/get_alias_types.go:44-57 | the hosts of exactly the selected items that are neither internal nor references |
| `Router.LinesOfJoin` | internal/services/firewall/router_client.go:125-137 | splitting the content field at line ends gives back the lines that were joined |
| `Router.WriteThenRead` | internal/services/firewall/router_client.go:125-137 | an alias written with a list of hosts is seen to hold exactly these |
| `Router.BuildContent` | internal/services/firewall/router_client.go:125-137 | the loop builds the stripped addresses joined by line ends |
| `Router.MergeIPs` | internal/services/firewall/router_client.go:85-102 | the current addresses without the ones to remove, together with the ones to add |
| `FirewallSync.MergeIsExact` | internal/services/firewall/router_client.go:79-102 | the difference from a first reading, applied to a second, gives the wanted set if and only if nothing unwanted appeared and nothing wanted vanished in between |
| `FirewallSync.MarkingKeepsWish` | internal/jobs/firewall_sync_job.go:122-150 | marking requested rows as added changes the wanted set of no alias |
| `FirewallSync.GroupsGiveWish` | internal/jobs/firewall_sync_job.go:116-150 | deciding host by host from the groups gives exactly the hosts with a requested or added row |
| `FirewallSync.WishOfRow` | internal/jobs/firewall_sync_job.go:122-150 | a row adds its host to the wanted set of its own alias exactly if it is requested or added, and to no other alias's |
| `FirewallSync.BlacklistedStaysUnwanted` | internal/handlers/handler_firewall_aliases.go:446-528 | once an address is blacklisted for an alias and nothing under way threatens it, it is not in the wanted set of any later state, so every later successful sync leaves it out |
| `FirewallSync.RouterAPI.UpdateAlias` | internal/services/firewall/router_client.go:79-207 | writes the re-read set without the removals and with the additions, or leaves the router alone; no other alias changes; a failure may come before or after the write |
| `FirewallSync.SyncJob.GroupByHost` | internal/jobs/firewall_sync_job.go:107-120 | one group for each host, with exactly its entries in order |
| `FirewallSync.SyncJob.Inspect` | internal/jobs/firewall_sync_job.go:124-136 | a group is wanted exactly if one of its entries is requested or added, and the IDs to mark are exactly those of its requested entries |
| `FirewallSync.SyncJob.Decide` | internal/jobs/firewall_sync_job.go:122-150 | the wanted hosts; exactly the requested rows of the alias whose host's update goes through become added |
| `FirewallSync.SyncJob.Difference` | internal/jobs/firewall_sync_job.go:152-171 | additions are wanted minus current, removals current minus wanted |
| `FirewallSync.SyncJob.LogFailure` | internal/jobs/firewall_sync_job.go:181-195 | every entry of every group gets a `sync_failed` event, and no other event is written |
| `FirewallSync.SyncJob.SyncAlias` | internal/jobs/firewall_sync_job.go:87-207 | when it succeeds, the two lists, the whole new table, what the update writes and what the router shows afterwards whether or not it changed in between, and that a failed update is logged for every row |
| `FirewallSync.SyncJob.SyncQuiet` | internal/jobs/firewall_sync_job.go:87-207 | on a quiet router it succeeds exactly if both readings do, the router knows the alias and the update, if one is needed, is answered well; it then leaves exactly the wanted hosts, marks the requested rows and touches no other alias |
| `FirewallSync.SyncJob.SyncTwice` | internal/jobs/firewall_sync_job.go:152-179 | after a successful sync an immediate second one finds nothing to add or remove |
| `FirewallSync.SyncJob.SyncAllAliases` | internal/jobs/firewall_sync_job.go:68-85 | every alias one of whose syncs succeeded ends at its wanted set, repeated UUIDs included; a sync succeeds if its answers are good; requested rows whose mark went through are added; no other alias and no row of another alias changes; every wanted set stays what it was |
| `Whitelist.Store.AddIPToWhitelist` | internal/storage/firewall_ip_whitelist_queries.go:16-91 | refuses a second active row of an owner for the alias and address; otherwise one new requested row and its event, also when only reading the row again fails; any other failure leaves everything as it was |
| `Whitelist.Store.RemoveIPFromWhitelist` | internal/storage/firewall_ip_whitelist_queries.go:400-422 | sets the row's status to removed, whatever it was, and logs it; an unknown row changes nothing; the event may fail after the update |
| `Whitelist.Store.BlacklistIPAddress` | internal/storage/firewall_ip_whitelist_queries.go:455-527 | blacklists every row of the pair that is not blacklisted yet, at least one, with one event each, or changes nothing |
| `Whitelist.Store.MarkIPsAsAdded` | internal/storage/firewall_ip_whitelist_queries.go:603-623 | marks only rows still requested but logs every ID given; if it fails, nothing changed, or the rows did and the events up to the failing one were written |
| `Whitelist.Store.ExpireOldIPs` | internal/storage/firewall_ip_whitelist_queries.go:626-677 | sets exactly the requested and added rows whose expiry has come to removed, with one event each, and leaves every other row as it was; if it fails, nothing changed, or the rows did and the events up to the failing one were written |
| `Whitelist.ExpiryIs` | internal/storage/firewall_ip_whitelist_queries.go:629-633 | a row is taken if it is requested or added and its expiry is not after now; a row without an expiry or with a later one is not |
| `WhitelistEffects.ExpiryAlone` | internal/storage/firewall_ip_whitelist_queries.go:626-677 | a pass that reads and writes alone removes exactly the rows that are due |
| `WhitelistEffects.ExpiryWrites` | internal/storage/firewall_ip_whitelist_queries.go:626-677 | whatever happens between its reading and its writing, a pass removes the rows that were due when it read and leaves every other row |
| `WhitelistEffects.AddStartsIff` | internal/handlers/handler_firewall_aliases.go:242-256 | an add goes on exactly if no row of the alias and address is blacklisted |
| `WhitelistEffects.CountsPassIff` | internal/handlers/handler_firewall_aliases.go:258-290 | it passes each count exactly if fewer requested and added rows are there than the limit says |
| `WhitelistEffects.InsertStores` | internal/storage/firewall_ip_whitelist_queries.go:48-84 | past both counts it stores exactly its row and its event, unless the owner has such a row |
| `WhitelistEffects.AddAlone` | internal/handlers/handler_firewall_aliases.go:242-342 | an add on its own for an address that is not blacklisted or listed, with both counts below their limits, ends with its row |
| `WhitelistEffects.RemovalStartsIff` | internal/handlers/handler_firewall_aliases.go:354-442 | a removal goes on exactly for a requested or added row |
| `WhitelistEffects.MarkStartsIff` | internal/jobs/firewall_sync_job.go:122-150 | a sync marks rows that it has read as requested, each once |
| `WhitelistEffects.StagesInOrder` | internal/handlers/handler_firewall_aliases.go:242-342 | an add goes through its checks in order, and each operation writes once |
| `WhitelistEffects.MarkWrites` | internal/storage/firewall_ip_whitelist_queries.go:603-623 | a mark turns exactly those of its rows that are still requested into added ones |
| `WhitelistEffects.BlacklistWrites` | internal/storage/firewall_ip_whitelist_queries.go:455-527 | blacklisting writes every row of its pair and no other |
| `WhitelistEffects.TheRestDo` | internal/jobs/firewall_sync_job.go:181-195 | an operation can be given up at any time, and a failed sync is logged for any rows with one event each; neither writes a row |
| `WhitelistEffects.OthersWriteNothing` | internal/storage/firewall_ip_whitelist_queries.go:16-713 | no other step writes a row |
| `WhitelistRuns.NoDuplicates` | internal/storage/firewall_ip_whitelist_queries.go:48-84 | over every interleaving no owner has two active rows for one alias and address |
| `WhitelistRuns.LogTells` | internal/storage/audit_queries.go:118-130 | how a batch of events changes each row's latest event |
| `WhitelistRuns.MarkTellsIff` | internal/storage/firewall_ip_whitelist_queries.go:603-623 | if the log agreed before, marking leaves every latest event telling its row's status if and only if every listed row is still active |
| `WhitelistRuns.TellsStepIff` | internal/storage/firewall_ip_whitelist_queries.go:400-677 | of all writes only a mark can make the log lie, and exactly when one of its rows is no longer active; removals, expiry and blacklisting never do |
| `WhitelistRuns.StatusRisesIff` | internal/storage/firewall_ip_whitelist_queries.go:400-677 | over every interleaving each step keeps rows, owners, aliases and addresses and only raises statuses in requested, added, removed, blacklisted, if and only if no removal, by a user or for its age, comes too late for one of its rows |
| `WhitelistRuns.StatusOnlyRises` | internal/storage/firewall_ip_whitelist_queries.go:400-677 | along such runs that holds between any two states |
| `WhitelistRuns.AtMostThreeChanges` | internal/storage/firewall_ip_whitelist_queries.go:400-677 | along such runs a row changes status at most as often as its rank says, at most three times |
| `WhitelistRuns.EventsAreChangesIff` | internal/storage/audit_queries.go:118-130 | over every interleaving a row's events other than `sync_failed` are its request and its changes, one each, if and only if no removal finds a row already removed and no mark finds one not requested |
| `WhitelistRuns.TwoRemovalsLogTwice` | internal/storage/firewall_ip_whitelist_queries.go:400-422 | two removals of an active row under way at once write two events for one change |
| `WhitelistRuns.LogTellsIff` | internal/storage/audit_queries.go:118-180 | over every interleaving the latest event other than `sync_failed` of every row has told its status all along if and only if no mark came too late for one of its rows |
| `WhitelistRuns.LateMarkLies` | internal/storage/firewall_ip_whitelist_queries.go:603-623 | from any state with a requested row: a sync that has read it and marks it after its owner removed it logs an added row that is removed |
| `WhitelistBlacklist.SealedStep` | internal/handlers/handler_firewall_aliases.go:242-256 | if all rows of a pair are blacklisted and nothing under way threatens it, every step keeps both so, whatever else is going on |
| `WhitelistBlacklist.PermanentIffUnthreatened` | internal/handlers/handler_firewall_aliases.go:242-342 | a pair all of whose rows are blacklisted stays so in every continuation if and only if no add of it that can still pass its limits, no user's removal and no expiry pass that has read one of its rows is under way |
| `WhitelistBlacklist.BlacklistingIsPermanentIff` | internal/storage/firewall_ip_whitelist_queries.go:455-527 | blacklisting a pair is permanent if and only if, at that moment, no such operation is under way |
| `WhitelistBlacklist.RemovalUndoesBlacklisting` | internal/storage/firewall_ip_whitelist_queries.go:400-422 | a run from the empty table in which a user's removal, begun before, lowers the status of a blacklisted row and brings the pair back |
| `WhitelistQuota.QuotaStep` | internal/handlers/handler_firewall_aliases.go:258-342 | every step keeps active rows plus adds in flight within the bound |
| `WhitelistQuota.QuotaHolds` | internal/handlers/handler_firewall_aliases.go:258-326 | with at most k adds at once between count and end, active rows plus adds in flight never exceed the largest configured limit minus one plus k, per owner and in total |
| `WhitelistQuota.BoundHolds` | internal/handlers/handler_firewall_aliases.go:258-326 | the same with both limits together: active rows never exceed what the alias that admits most admits, minus one, plus k |
| `WhitelistQuotaTight.BoundIsExact` | internal/storage/firewall_ip_whitelist_queries.go:16-46 | for every configuration, for one owner's rows and for all rows, and for every k, that bound holds in every run and is reached by one |
| `WhitelistQuotaTight.LargestIsPassedIff` | internal/storage/firewall_ip_whitelist_queries.go:16-46 | the largest configured limit itself is passed by k - 1 exactly when an alias with that limit admits as many rows |
| `Certificates.InvStep` | internal/storage/certificate_queries.go:474-689 | every call of either worker, every handler and every crash keeps the invariant of requests, identifiers, certificates and workers |
| `Certificates.AtMostOneCertificate` | internal/jobs/certificate_creation_job.go:93-164 | in every run each request gets at most one certificate the worker was told of and is issued at most once; an identifier means pending or issued |
| `Certificates.LookUpsGiveOne` | internal/jobs/certificate_creation_job.go:117-144 | as long as no look-up misses a certificate that was made, each request gets at most one, whatever the provider reports of its creations |
| `Certificates.SecondIffMissed` | internal/jobs/certificate_creation_job.go:121-124 | from any state in which the look-up answers "not found", and whatever else happens before it, the next creation can give the request a second certificate if and only if the look-up missed one |
| `Certificates.TruthfulReportsGiveOne` | internal/jobs/certificate_creation_job.go:118-140 | if no success is reported as a failure, each request gets at most one certificate in all, whatever the look-ups answer |
| `Certificates.LostReportMakesTwo` | internal/services/certificate/database_certificate_provider.go:105-133 | one creation reported as failed, and a next look-up that misses its certificate, give a reachable state with two |
| `Certificates.RecordedStays` | internal/storage/certificate_queries.go:520-538 | a recorded identifier is never replaced, and an issued request stays issued |
| `Certificates.AbandonedIff` | internal/jobs/certificate_creation_job.go:128-158 | of the steps that can come while the worker holds a request, exactly a crash, a look-up error, a failed roll-back and a failed recording leave it pending without an identifier and without a worker |
| `Certificates.AbandonedForever` | internal/jobs/certificate_creation_job.go:152-158 | such a request stays so in every continuation, and no further certificate is made for it |
| `Certificates.UnrecordedIsAbandoned` | internal/jobs/certificate_creation_job.go:152-158 | a run ends so, with a certificate made |
| `Certificates.StatusStep` | internal/models/certificate.go:62-83 | every change of status is one of the transition table, except the creation worker's way back from pending to approved |
| `Certificates.TerminalStays` | internal/models/certificate.go:89-91 | a terminal status is never left |
| `CertificateEffects.NothingWithoutApproval` | internal/handlers/handler_certificate_request.go:200-289 | over every run a request is approved, pending or issued, or has a certificate, only if it was approved on posting or some earlier review approved it |
| `CertificateEffects.RejectedGetsNone` | internal/handlers/handler_certificate_request.go:200-289 | a request that a review rejects stays rejected in every continuation and never gets a certificate |
| `CertificateEffects.ReviewWrites` | internal/handlers/handler_certificate_request.go:260-275 | a review is let through exactly for a request that awaits one; approval makes it approved and rejection rejected, with one event saying so, and no other request changes |
| `CertificateEffects.PostWrites` | internal/handlers/handler_certificate_request.go:38-122 | a posted request awaits its review, or is approved at once; it has no identifier |
| `CertificateEffects.TransitionsAre` | internal/models/certificate.go:62-83 | the transition table |
| `CertificateEffects.TerminalIffNoTransition` | internal/models/certificate.go:89-91 | the terminal statuses are exactly those the table leads nowhere from |
| `CertificateEffects.OthersUntouched` | internal/jobs/certificate_creation_job.go:93-164 | every step leaves all requests but one as they are |
| `CertificateEffects.FetchesAll` | internal/storage/certificate_queries.go:474-689 | each worker takes up exactly the requests it is for |
| `CertificateEffects.PassMakesAll` | internal/jobs/certificate_creation_job.go:93-164 | a pass that meets no failure makes one certificate for every approved request, leaves it pending under its identifier, and changes no other request |
| `CertificateEffects.PassIssuesAll` | internal/jobs/certificate_status_job.go:93-140 | a pass that finds every certificate ready issues every pending request that has an identifier, and changes nothing else |
| `CertificateEffects.OneRequestOutcome` | internal/jobs/certificate_creation_job.go:93-164 | for every combination of answers: what status and identifier the loop leaves a request with, and whether a certificate was made |
| `CertificateEffects.OneCheckOutcome` | internal/jobs/certificate_status_job.go:93-140 | a request that is ready is issued if its update goes through, and otherwise left as it is |
| `CertificateEffects.MadeIsRecorded` | internal/jobs/certificate_creation_job.go:117-158 | a reserved request the provider does not know gets one certificate and its identifier |
| `CertificateEffects.FoundIsRecorded` | internal/jobs/certificate_creation_job.go:117-158 | one the provider knows gets that identifier and no further certificate |
| `CertificateEffects.FailureGoesBack` | internal/jobs/certificate_creation_job.go:128-144 | a failed creation puts the request back to approved |
| `Certificates.CreationJob.HandleApproved` | internal/jobs/certificate_creation_job.go:93-164 | the worker's loop takes exactly the protocol's steps, in order, for every combination of answers, and ends with nothing left to handle |
| `Certificates.CreationJob.HandleOne` | internal/jobs/certificate_creation_job.go:94-115 | one request: skipped, not reserved, or reserved and carried on |
| `Certificates.CreationJob.MakeOne` | internal/jobs/certificate_creation_job.go:117-158 | from the reservation to a recorded identifier, a look-up error, or back to approved |
| `Certificates.StatusJob.HandlePending` | internal/jobs/certificate_status_job.go:93-140 | the status worker's loop takes exactly the protocol's steps, in order |
| `DurationScan.ScanIsFindAll` | internal/utils/const.go:40 | for every text, repeated leftmost matching with the lazy and the greedy part finds exactly the tokens of a scanner over maximal runs with leading zeros stripped |
| `Duration.StandardizeMeans` | internal/utils/time.go:48-85 | the branches agree with one table of units, products taken in 64 bits; day, week, month and year are 24, 168, 720 and 8760 hours; a unit is refused exactly when it is not in the table |
| `Duration.StandardizeDurationString` | internal/utils/time.go:15-46 | the loop, with its early returns, gives the text or the first error |
| `DurationWords.TokensIgnoreSpace` | internal/utils/time.go:20-22 | a space anywhere changes nothing of what the expression finds, unless it keeps the letters of an "and" apart |
| `DurationWords.TokensIgnoreAnd` | internal/utils/time.go:20-22 | neither does the word "and" |
| `DurationWords.DaysAndHours` | internal/utils/time.go:89-107 | "n days and m hours", spelled with spaces, is worth 24n + m hours whenever these fit 64 bits |
| `DurationWords.WorthItsTotal` | internal/utils/time.go:89-107 | a text whose units are known is worth the sum of its tokens, while no product and not the sum leaves 64 bits and it is not a bare number |
| `DurationWords.BareSeconds` | internal/utils/time.go:90-98 | the decimal text of n is n seconds exactly if their nanoseconds fit 64 bits, and an error exactly if n does not |
| `DurationWords.UnitLengths` | internal/utils/time.go:106 | the lengths of the standard units, each as a multiple of the one below |
| `DurationMeaning.StandardizeSucceeds` | internal/utils/time.go:32-42 | standardizing succeeds exactly when every unit is known and every quantity is a 64-bit number |
| `DurationMeaning.StandardizeWrites` | internal/utils/time.go:32-45 | whenever it succeeds it writes the 64-bit products the tokens mean, in order |
| `DurationMeaning.ReadWritten` | internal/utils/time.go:106 | the standard parser reads back exactly the parts that were written, and fails exactly if a later one is negative |
| `DurationMeaning.DurationMeans` | internal/utils/time.go:89-107 | what every text that is not a bare number is worth, products that leave 64 bits included; and that this is the sum of quantity times unit over the tokens of the expression, or a refusal of a sum too large, if and only if no product leaves 64 bits or what it becomes is refused |
| `DurationMeaning.DividingIsTheSame` | internal/utils/time.go:106 | the standard parser's own test of each part, by division, refuses exactly what testing the product would |
| `DurationMeaning.BareNumberMeans` | internal/utils/time.go:90-98 | a bare number is that many seconds if and only if their nanoseconds fit 64 bits; it is refused if and only if the number itself does not |
| `DurationTwice.DaysAreWorth` | internal/utils/time.go:54-57 | what any number of days alone is worth, and the text it becomes |
| `DurationTwice.ZeroDays` | internal/utils/time.go:54-57 | days whose product comes round to zero, 2^61 for one, come out as no time at all |
| `DurationTwice.RefusedDays` | internal/utils/time.go:54-57 | days whose product comes round to -2^63, 2^60 for one, are refused |
| `DurationTwice.SuchDaysExist` | internal/utils/time.go:54-57 | there are such numbers of days that the code reads |
| `DurationTwice.StandardizeIsIdempotentIff` | internal/utils/time.go:15-85 | what standardizing accepts it accepts again and leaves unchanged if and only if every 64-bit product is positive; its text then has standard units only |
| `DurationTwice.FittingIsIdempotent` | internal/utils/time.go:15-85 | so it does whenever no product leaves 64 bits |
| `DurationTwice.DaysAgainIff` | internal/utils/time.go:15-85 | for days alone, the text that is not accepted again and when |
| `DurationTwice.EmptyIsNotAcceptedAgain` | internal/utils/time.go:16-18 | empty input is the exception |
| `Token.DecodeEncode` | internal/middlewares/require_auth.go:170-226 | unpadded base64url decoding undoes encoding for byte strings of every length |
| `Token.EncodedLength` | internal/middlewares/require_auth.go:180-188 | the encoded length, 22 and 43 for 16 and 32 bytes |
| `Token.EncodedAlphabet` | internal/middlewares/require_auth.go:203-226 | an encoding uses only the alphabet of section 5 of RFC 4648 |
| `Token.AlphabetIs` | internal/middlewares/require_auth.go:203-226 | the alphabet: upper-case letters, lower-case letters, digits, a dash and an underscore, in this order |
| `Token.DigitsSpellBytes` | internal/middlewares/require_auth.go:203-226 | the digits, read as one number, are the bytes read as one number, with two or four zero bits behind a short group |
| `Token.BytesSpellDigits` | internal/middlewares/require_auth.go:170-201 | decoded bytes are the digits' number without the bits left over, and only a single digit left over is an error |
| `Token.DecodesIff` | internal/middlewares/require_auth.go:170-201 | a text without line ends is decoded exactly if all its characters are in the alphabet and no single one is left over |
| `Token.LineEndsAreSkipped` | internal/middlewares/require_auth.go:170-201 | a line end anywhere makes no difference to decoding |
| `Token.JoinSplit` | internal/middlewares/require_auth.go:171 | splitting at dots and joining again gives the text, and no part has a dot |
| `Token.ParseAcceptsTokens` | internal/middlewares/require_auth.go:170-201 | a text is accepted, with these two parts, exactly when it is `conduit_sa` and two decodable parts of lengths 22 and 43 between dots |
| `Token.ParseGenerated` | internal/middlewares/require_auth.go:170-226 | every generated token parses to exactly its two encoded parts, which decode to the bytes they came from |
| `JoinRows.GroupRows` | internal/storage/firewall_ip_whitelist_queries.go:142-268 | the single pass with its map and order list gives one group for each first ID, with the first row's entry and the events of its rows in order |
| `JoinRows.EventCounts` | internal/storage/firewall_ip_whitelist_queries.go:201-262 | a group has each event as often as the rows have it for that entry |
| `JoinRows.EventsNewestFirst` | internal/storage/firewall_ip_whitelist_queries.go:142-268 | a group's events are newest first |
| `JoinRows.EntriesInOrder` | internal/storage/firewall_ip_whitelist_queries.go:270-397 | groups come latest request first |
| `JoinRows.GroupingIsExact` | internal/storage/firewall_ip_whitelist_queries.go:142-397 | for every answer to the ordered left join, ties included, each entry comes out once, latest first, with an answer to the query of `GetWhitelistEventsByEntry` for it: no event lost, doubled or moved |
| `MemCache.ReadsAnswerLastSet` | internal/data/mem_cache_provider.go:83-150 | over every sequence of calls, delays and timers a successful read answers what was set last for the key, not past its deadline and not taken since |
| `MemCache.TakesNeedSets` | internal/data/mem_cache_provider.go:133-150 | two successful takes of a key have a set of it between them |
| `MemCache.AgreesWithPlainMap` | internal/data/mem_cache_provider.go:83-150 | if no key is set while a timer still pending for it is due before the new deadline, or without a deadline while one is pending, every read agrees with a plain map with deadlines, except at the very instant of a deadline |
| `MemCache.LostIffEndangered` | internal/data/mem_cache_provider.go:117-127 | for a set in any state: its value can disappear before its deadline, neither taken nor replaced, if and only if such a timer is pending |
| `MemCache.SetIsAnswered` | internal/data/mem_cache_provider.go:83-150 | a read that meets what was set, neither taken nor set again, is answered before the deadline if the set was not endangered, and never after the deadline |
| `MemCache.Provider.GetKey` | internal/data/mem_cache_provider.go:83-97 | the value, or which of the two errors |
| `MemCache.Provider.SetKey` | internal/data/mem_cache_provider.go:100-130 | stores text or bytes with the deadline and starts a timer only for a positive lifetime; anything else is refused and changes nothing |
| `MemCache.Provider.GetDelKey` | internal/data/mem_cache_provider.go:133-150 | answers as a read does and removes the key, expired or not |
| `Migrations.InvStep` | internal/storage/database.go:69-143 | every step of every concurrent call keeps the database at a prefix of the files |
| `Migrations.MigrationsRunOnce` | internal/storage/database.go:69-143 | over every interleaving with failures and crashes: recorded versions are those of a prefix, no script takes effect twice or out of order, and a call without error leaves every version recorded |
| `Migrations.CallAlone` | internal/storage/database.go:69-143 | from every state, whatever other calls are doing, a new call that meets no failure can go on to its end and leaves every version recorded |
| `Migrations.OnlyCommitsWrite` | internal/storage/database.go:116-140 | a script takes effect with the commit of its version, also if the answer is lost, and its call then fails; no other step changes the database |
| `Migrations.AllScriptsRunIffDistinct` | internal/storage/database.go:93-104 | every script takes effect exactly when no two files share a version |
| `Migrations.FirstsOfSeen` | internal/storage/database.go:104-113 | files whose versions were seen before add nothing |
| `Migrations.VersionEnds` | internal/storage/database.go:101 | a version is the part of the file name before its first underscore, or all of it |
| `Migrations.Database.RunMigrations` | internal/storage/database.go:69-143 | one call on its own takes the database from one prefix to a later one, and to the end if it returns without error |
| `Labels.SanitizedIsLabel` | internal/services/certificate/kubernetes_certificate_provider.go:325-358 | whatever the input, 1 to 63 allowed characters that start and end alphanumeric; the hash exactly when nothing alphanumeric is left, and otherwise the allowed characters from the first alphanumeric to the last that fits |
| `Labels.CutKeepsAStart` | internal/services/certificate/kubernetes_certificate_provider.go:346-350 | truncating and trimming cannot empty the text |
| `Labels.LeftAloneIffLabel` | internal/services/certificate/kubernetes_certificate_provider.go:323-358 | the texts left unchanged are exactly the valid labels |
| `Labels.SanitizeIsIdempotent` | internal/services/certificate/kubernetes_certificate_provider.go:325-358 | sanitizing again changes nothing |
| `Labels.SchemeIsDropped` | internal/services/certificate/kubernetes_certificate_provider.go:314-358 | a label behind `https://` or `http://` comes out as that label |
| `Labels.SchemeIsStripped` | internal/services/certificate/kubernetes_certificate_provider.go:314-321 | a scheme in front is stripped, and after `https://` also `http://` |
| `Labels.SlashIsStripped` | internal/services/certificate/kubernetes_certificate_provider.go:318 | a slash anywhere makes no difference |
| `Labels.RemoveURLSchemeAndSlashes` | internal/services/certificate/kubernetes_certificate_provider.go:314-321 | the stripped text, with no slash left |
| `Labels.SanitizeLabelValue` | internal/services/certificate/kubernetes_certificate_provider.go:325-358 | the loop and the trimming compute that text, and it is a label |

## Left out

- Redis is one key with an exact expiry and one clock for all instances; replication, failover and clock drift are
  not modelled. A command takes effect within its step, so none is still on its way after its instance restarts.
- Uncancelled means that the job's context is not cancelled; a cancelled job may still be finishing its work.
- In the source the resign script is sent with a context that is already cancelled, so it may never reach Redis;
  `SendResign` allows both outcomes. Waiting for jobs to drain on shutdown is not modelled.
- Election.Elector.Campaign: other instances' commands between its own are covered by the step relation of `Leadership`,
  not by the class.
- LeadershipSafety.MutualExclusion: assumes the two conditions, because without either of them it is false;
  `LeadershipSafety.ExactlyWhenExclusive` is the full statement.
- LeadershipSafety.CodeIntervals: takes TTL of at least three time units; for a TTL whose third is not positive the
  source falls back to a default interval, which is not modelled.
- Addresses are stored as host texts with an optional prefix length, so stripping the length is taken to tell
  addresses apart. The router is taken to show each accepted line as one selected item.
- FirewallSync.SyncJob.SyncAlias: the table is quiet during one sync; a row that changes after the sync has read it
  is seen by the next one.
- FirewallSync.RouterAPI.UpdateAlias: the alias fields other than the content and the separate reload request after
  a write are not modelled; a failure of the reload is a failure after the write.
- FirewallSync.SyncJob.SyncAllAliases: the loop is taken on a router nobody else edits meanwhile; with other edits
  `SyncAlias` alone says what is left. What the router and the table answer is given to the methods. The look-up of the
  system user before the loop is not modelled; if it fails, nothing is synced.
- `added` does not imply that the router has the address: rows are marked before the update, which may fail.
- WhitelistRuns.LogTellsIff: an update and its events are one step, and event writes succeed there; the class methods
  of `Whitelist.Store` say what is left when they fail.
- FirewallSync.SyncJob.LogFailure: event writes succeed; the source ignores their errors.
- WhitelistRuns.StatusOnlyRises: on runs in which no removal comes too late, which `WhitelistRuns.StatusRisesIff`
  shows to be exactly the runs in which every step raises.
- WhitelistRuns.AtMostThreeChanges: on the same runs.
- WhitelistBlacklist.SealedStep: needs that nothing under way threatens the pair, because otherwise it is false;
  `WhitelistBlacklist.PermanentIffUnthreatened` is the full statement.
- `BlacklistIP` by a single row ID has no caller in the handlers and is not a step; neither is `removed_by_admin`
  ever written.
- A new row starts as `requested` and IDs are unique, as the schema says. The duplicate check and the insert are one
  atomic step.
- Posting and reviewing a certificate request are one atomic step each; the automatic approval follows in the same
  step.
- Look-ups of the provider may answer anything, including that a certificate just made does not exist.
- Certificates.StatusJob.HandlePending: the readiness check, the data and its parsing are one answer; a failing
  look-up of the system user ends the pass before its first step.
- No progress is claimed for certificate requests: `Certificates.AbandonedForever` is why.
- The standard parser is modelled without fractions, which standardized text never has. Text the expression does not
  match is skipped, so the parser is not claimed to refuse it.
- `GenerateAPIToken` draws its bytes at random and hashes the secret; the bytes are parameters and hashing is not
  modelled.
- JoinRows.GroupRows: the columns that are only copied are one field.
- MemCache.AgreesWithPlainMap: at the instant of the deadline itself the timer may already have deleted the value the
  plain map still shows.
- Migrations.MigrationsRunOnce: reading and sorting the files is not modelled; the file list is fixed. A script and its
  version commit together or not at all.
- Labels.SanitizedIsLabel: hashing is a parameter, any 16 hexadecimal digits; bytes that are not valid text are
  dropped by the filter like any other character that is not allowed.
- HTTP, JSON, OpenID Connect, sessions, cryptography, metrics, configuration defaults and the web front end are left
  out: they are libraries, or would only add easy members.
