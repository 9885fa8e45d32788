# Verification of the threat pipeline

A Dafny model of the parts of the pipeline that keep state or do arithmetic, with proofs about every input,
every run or every interleaving. `dafny verify dfyconfig.toml` checks all of it.

Where the source changes things in place, the model has a class or a method with the same assignments.
Such a class is proved to take one step of a transition function on values after another
(`ensures View() == Step(old(View()), ...)`), and the theorems are about runs of those steps.

| part | files | what is proved of it |
|---|---|---|
| packets | Checksum, Packets, Conversation, Pcap | the Internet checksum and what follows from its being a residue modulo 65535; a receiver that checks every length, type and checksum gets back what was sent; the five packets of a row are a TCP conversation; reading the pcap file back gives the records written |
| metrics | MetricsProtocol, MetricsRuns, MetricsBuffer | conservation of counts over every interleaving of workers, pods and flushers with failing writes |
| alerts | AlertStates, AlertRuns, AdminStore | the Redis counters refine the COUNT queries; the alert life cycle and the audit log |
| behaviour | UserHistories, HistoryStore | decaying counters, and what forgetting a history changes |
| VPN cache | VpnLookups, VpnCache | the age of a cached verdict across replicas; the size of the in-process cache |
| requests | IsoTime, UserRows, Profiles, AuthRequests, CacheRuns, AuthPortal, LoginWindow, LoginHistory | the user-row cache is transparent; what the failed-login count means |
| credentials | Credentials, CredentialRuns, VaultClient, Accounts | agreement of Vault and Postgres, seeding, rotation counts; the user table of this part and that of the requests move alike |
| leases | InfraLeases, InfraClient | exact accounting of infrastructure leases with failing calls |
| simulation | SimulationCursor, SimulationProducer | one producer, a cursor that never runs ahead of its batch, no index skipped |
| log line | Text, ZeekLine | the login line comes back from the Zeek log |

Clocks, addresses, outcomes of outside calls, generated passwords and the hash function are parameters.
Times are reals, except in the user table, where they are calendar datetimes.

## Where the code does not do what is said of it

Each has a lemma with the case that shows it, and the exact condition under which it does hold.

- A VPN verdict is documented as cached for ten minutes. An L2 hit is stamped anew when it enters L1, so it
  can be served for any time below twenty minutes (`AnyAgeBelowBothLifetimes`), and never longer
  (`CachedVerdictsAreRecent`). All runs keep to ten minutes if and only if there is no Redis
  (`TenMinutesExactly`), and an entry does if and only if its stamp is the time of a lookup
  (`StampDecides`, `RestampingDecides`).
- The 500-entry limit of the in-process VPN cache is enforced only after a live lookup. It holds in all runs
  if and only if there is no Redis (`LimitHoldsExactly`); with Redis any size can be reached
  (`AnySizeWithRedis`).
- A miss in Redis hands out the dictionary that is stored in the process, which is then changed in place
  although the result is saved in Redis. The leftover copy carries an old address, so forgetting a history
  can raise `ip_hops_30m` (`StaleRun`): in a run it never does if and only if no event that finds nothing
  saved has the address of the event before it but not of the last event that missed
  (`ForgettingExactly`). The other three counters never show it.
- Seeding generates a new password when a secret holds an empty one, but skips the KV write when
  role and region match. Postgres then has the hash of a password that is nowhere else
  (`SeedingAgreesExactly`), which an approval with an empty password and a reconnection bring about
  (`EmptyPasswordThenSeeding`). A user who is registered after a rotation made a secret for that name has a
  secret and a row without hash (`PendingUserWithSecret`). Over every run, a row agrees with the secret if and
  only if it has a hash, and the password in Vault is not empty or the user was not seeded since the last
  rotation or approval (`UsersAgreeExactly`); it has a hash if and only if seeding, a rotation or an approval
  set one since the registration (`HashColumnTellsHistory`).
- For the same reason not every password mailed after seeding works: the one for a profile does unless the
  user's secret held an empty password that all of the user's profiles so far left alone, and only then not
  (`MailedPasswordsWork`).
- Approval, rejection, seeding and rotations outside of the user's own request leave the cached row in place,
  so an old password can still log in (`OldPasswordOutlivesRotation`); `OutsideWritersExactly` gives the
  condition.
- Overlapping flushes lose attack-type counts without any error (`OverlapDropsTheFirstMerge`). A kind is
  conserved at every moment if and only if no merge writes over a count of it that changed since it was read
  (`AttackTypesExactly`).
- Seeding the Redis counters does not repair a key that was created too early (`AgreementExactly`).
- After a restart in which loading fails, the simulation index can be behind the stored one
  (`UnloadedCursorFallsBehind`); `InStepExactly` says when it is not. A reset or a first load between picking
  an event and counting it can skip an index (`ResetInBetweenSkips`, `LateLoadSkips`); `SkipsExactly` gives the
  condition for runs, and `NoIndexIsSkipped` the interleavings that meet it.
- A user name with an underscore does not come back from the Zeek log (`UserComesBackExactly`), and the
  outcome can come back wrong (`OutcomeOfAnother`).

## Model

| member | source | states |
|---|---|---|
| Checksums.ComputeChecksum | scripts/generate_zeek_pcap.py:65-71 | the padding, the word sum and the carry fold end, and give 65535 less the canonical residue of the word sum |
| Checksums.FoldKeepsResidue | scripts/generate_zeek_pcap.py:69-70 | one fold strictly lowers the total, keeps it positive and keeps its residue |
| Checksums.ResidueIsModulo | scripts/generate_zeek_pcap.py:69-71 | the residue is the representative modulo 65535 in 1..65535, and 0 for an all-zero sum only |
| Checksums.ResidueDecides | scripts/generate_zeek_pcap.py:69-71 | two sums fold to the same value if and only if both are zero, or both are positive and congruent modulo 65535 |
| Checksums.StoredChecksumVerifies | scripts/generate_zeek_pcap.py:65-71 | RFC 1071 section 1: once the checksum stands in the place of the zero word, the sum over everything checks to 0 |
| Checksums.OrderOfWordsIsIrrelevant | scripts/generate_zeek_pcap.py:65-71 | RFC 1071 section 2 (A): data with the same words in another order have the same checksum |
| Checksums.SwappingBytesSwapsChecksum | scripts/generate_zeek_pcap.py:65-71 | RFC 1071 section 2 (B): swapping the bytes of every word swaps the bytes of the checksum |
| Checksums.OneWordCollisions | scripts/generate_zeek_pcap.py:65-71 | data that differ in one word have the same checksum if and only if the words are 0x0000 and 0xFFFF and some other word is not zero |
| Packets.Ipv4HeaderVerifies | scripts/generate_zeek_pcap.py:74-82 | RFC 791 section 3.1: a receiver that sums any emitted IPv4 header gets 0 |
| Packets.TcpSegmentVerifies | scripts/generate_zeek_pcap.py:85-92 | RFC 9293 section 3.1: and 0 over pseudo-header, TCP header and payload, of even or odd length |
| Packets.ReceiveInvertsBuildPacket | scripts/generate_zeek_pcap.py:95-98 | a receiver written from the RFCs, which checks types, lengths and both checksums, gets back addresses, ports, sequence numbers, flags and payload |
| Packets.TotalLengthIsRestOfFrame | scripts/generate_zeek_pcap.py:95-98 | the IPv4 total length is the length of the frame after its Ethernet header |
| Conversations.PayloadBounds | scripts/generate_zeek_pcap.py:137-142 | the payload of any action and download size has between 1 and 1200 bytes |
| Conversations.ExchangeIsConversation | scripts/generate_zeek_pcap.py:155-172 | RFC 9293 sections 3.4 and 3.5: each number is the one before plus payload length plus one for SYN, each ACK is what the peer sends next, the payload is delivered whole |
| Conversations.PacketsAreShort | scripts/generate_zeek_pcap.py:137-175 | the total length field of every packet of every row is at most 1240 |
| PcapFiles.TimestampTruncated | scripts/generate_zeek_pcap.py:105-108 | seconds and microseconds are the timestamp truncated to the microsecond, with less than a million microseconds |
| PcapFiles.TimestampMonotone | scripts/generate_zeek_pcap.py:105-108 | truncation keeps the order of timestamps |
| PcapFiles.WritePcap | scripts/generate_zeek_pcap.py:150-175 | the file read back holds exactly the records of the rows up to the first that cannot be packed, at which it raises |
| PcapFiles.WritePackets | scripts/generate_zeek_pcap.py:173-175 | the inner loop appends exactly the encodings of the packets, in order |
| PcapFiles.WritePacket | scripts/generate_zeek_pcap.py:174-175 | one packet appends the record a reader parses, whose captured and original length are equal |
| PcapFiles.ParseInvertsWrite | scripts/generate_zeek_pcap.py:101-108 | parsing global header and records returns the records: bytes, both lengths and timestamp, in order |
| PcapFiles.RowsReplay | scripts/generate_zeek_pcap.py:150-175 | for every list of rows, a reader finds at row i five consecutive records that are, in order of time, that row's conversation |
| MetricsRuns.MetricsConservation | backend/app/threat_engine.py:73-127 | over every interleaving with failing writes and resets: counted = row + in flight + local + lost + discarded; in each place the numbers add up |
| MetricsRuns.RunKeepsInvariant | backend/app/threat_engine.py:955-1047 | every step keeps conservation, soundness of each place and the accounting of pending updates |
| MetricsRuns.MergeIsExactIff | backend/app/threat_engine.py:115-124 | a merge of attack types shifts no count if and only if the row still holds what was read |
| MetricsRuns.OverlapDropsTheFirstMerge | backend/app/threat_engine.py:115-124 | two merges that read before either writes lose the first one's counts with no failure |
| MetricsRuns.AttackTypesExactly | backend/app/threat_engine.py:115-124 | over every run a kind of attack is conserved at every moment if and only if no merge writes over a count of it that changed since it read the row |
| MetricsRuns.AttackTypesExactWithoutOverlap | backend/app/threat_engine.py:115-124 | in particular runs without overlapping merges conserve all attack types |
| MetricsRuns.EarlyReturnLosesNothing | backend/app/threat_engine.py:73-77 | when all workers are done, a pending counter of 0 means empty deltas, however the unlocked increments raced |
| MetricsRuns.FlushRuns | backend/app/threat_engine.py:73-127 | an undisturbed flush is a run of the protocol and ends with the row plus the deltas |
| MetricsRuns.ShutdownFlushIsComplete | backend/app/main.py:241 | the last flush of a single pod leaves nothing out of the row that was not lost or discarded |
| MetricsRuns.ReaderNeverOverReports | backend/app/threat_engine.py:130-213 | get_metrics adds up, and without a reset in between reports no more than was counted |
| MetricsBuffers.AddAttackTypes | backend/app/threat_engine.py:122-123 | the dictionary loop adds the counts of each kind |
| MetricsBuffers.PodMetrics.CountEvent | backend/app/threat_engine.py:933-967 | one event adds to the deltas under the lock |
| MetricsBuffers.PodMetrics.TakeSnapshot | backend/app/threat_engine.py:80-90 | the snapshot has the deltas, and they and the pending counter become 0 |
| MetricsBuffers.PodMetrics.ResetLocalDeltas | backend/app/threat_engine.py:59-71 | deltas and pending counter become 0 |
| MetricsBuffers.PodMetrics.FlushMetricsToDb | backend/app/threat_engine.py:73-127 | with a pending counter of 0 nothing happens; else the deltas leave the pod, and reach the row whole, without attack types or not at all, by the statement that fails |
| MetricsBuffers.PodMetrics.GetMetrics | backend/app/threat_engine.py:130-213 | the reply is the row plus the deltas |
| AlertRuns.FastPathRefinesSlowPath | backend/app/admin_store.py:254-330 | after any run get_stats returns the numbers of the COUNT queries from whichever source, they add up, and no decrement was clamped |
| AlertRuns.AgreementExactly | backend/app/redis_client.py:279-300 | get_stats tells the truth in every continuation if and only if each key is right now, a missing one standing for 0: seeding repairs nothing |
| AlertRuns.RunKeepsCounted | backend/app/redis_client.py:217-251 | every run keeps each counter equal to its query or missing at 0, and never clamps |
| AlertRuns.RunKeepsInvariant | backend/app/admin_store.py:163-232 | every run keeps statuses, log entries and fresh ids in order |
| AlertRuns.StatusesPartition | backend/app/admin_store.py:290-315 | pending, approved and rejected add up to all alerts |
| AlertRuns.MirrorsNeverClamp | backend/app/redis_client.py:235-251 | a counter that mirrors its query is positive when a pending alert is resolved |
| AlertRuns.AuditOnlyGrows | backend/app/routes/admin.py:475-488 | the log after any run extends the log before, also across resets |
| AlertRuns.ResolvedForGood | backend/app/admin_store.py:163-232 | an alert leaves pending at most once, and keeps its outcome as long as it exists |
| AlertRuns.AuditTellsTheStory | backend/app/admin_store.py:163-232 | at most one resolution is logged per alert, and exactly the one its status calls for |
| AlertRuns.SecondResolutionIsIdle | backend/app/admin_store.py:166-168 | resolving again changes nothing and returns the alert as it was left |
| AlertRuns.AutoAllowedIsCounted | backend/app/admin_store.py:244-251 | total_auto_allowed is the number of increments since the last reset |
| AdminStores.AdminStore.CreateAlert | backend/app/admin_store.py:22-86 | in place: row, statistics and Redis counters of a new alert |
| AdminStores.AdminStore.ApproveAlert | backend/app/admin_store.py:163-196 | in place: status, audit entry, statistics and counters, or nothing if not pending |
| AdminStores.AdminStore.RejectAlert | backend/app/admin_store.py:199-232 | the same for a rejection |
| AdminStores.AdminStore.IncrementAutoAllowed | backend/app/admin_store.py:244-251 | in place: one more auto-allowed event in both stores |
| AdminStores.AdminStore.GetStats | backend/app/admin_store.py:254-330 | the fast path if every key is there, else the queries and the seeding |
| AdminStores.AdminStore.AdminDecr | backend/app/redis_client.py:235-251 | decrement, and 0 if it went below |
| AdminStores.AdminStore.InitAdminStatsFromDb | backend/app/redis_client.py:279-300 | the loop sets exactly the keys that are missing |
| AdminStores.AdminStore.GetAdminStats | backend/app/redis_client.py:254-276 | the loop reads every key, a missing one as absent |
| AdminStores.AdminStore.ResetAdminStats | backend/app/redis_client.py:187-207 | the loop sets every key to 0 |
| AdminStores.AdminStore.ConfirmReset | backend/app/routes/admin.py:475-546 | the reset as far as it concerns alerts, log, statistics and counters |
| UserHistories.CountersBoundedByEvents | backend/app/inference.py:360-384 | over every time-ordered run, with any expiry, no counter exceeds events_1h |
| UserHistories.SlowUsersStayLow | backend/app/inference.py:357-384 | with events at least g minutes apart, g at most W, no counter with window W exceeds W / g |
| UserHistories.ForgettingKeepsThreeCounters | backend/app/inference.py:65-106 | a store that forgets after an hour and one that never does agree at every moment on events_1h, failed_30m and admin_actions_15m |
| UserHistories.HopsRiseExactlyOnStaleAddress | backend/app/inference.py:65-84 | at a miss the forgetting store has more hops if and only if the address is that of the event before but not of the last miss |
| UserHistories.ForgettingLowersHops | backend/app/inference.py:65-106 | in runs without such an address forgetting only lowers ip_hops_30m |
| UserHistories.ForgettingExactly | backend/app/inference.py:65-106 | over every run, forgetting leaves at every moment at most the hops of a full memory if and only if no event has a stale address |
| UserHistories.LocalIsLastMiss | backend/app/inference.py:84 | the copy left in the process is the whole record made by the last event that missed |
| UserHistories.StaleAddressHappens | backend/app/inference.py:84 | whenever b follows a and is seen again after the hour, the forgetting store charges a hop the other does not |
| UserHistories.StaleRun | backend/app/inference.py:84 | such a run, with its times and addresses |
| HistoryStores.HistoryDict.Update | backend/app/inference.py:269-384 | the assignments to one dictionary make one record of the event |
| HistoryStores.HistoryStore.GetUserHistory | backend/app/inference.py:65-84 | a hit builds a new dictionary, a miss hands out the stored object |
| HistoryStores.HistoryStore.SaveUserHistory | backend/app/inference.py:86-106 | Redis if it is up, else the process-local dictionary |
| HistoryStores.HistoryStore.EngineerSingleEvent | backend/app/inference.py:217-384 | with aliasing and all, one event is one step for its user and nothing for any other |
| VpnLookups.CachedVerdictsAreRecent | backend/app/routes/auth.py:166-184 | over every run of any number of replicas: a verdict from L2 was looked up less than 600 s before, one from L1 less than 1200 s, and less than 600 s without Redis |
| VpnLookups.TenMinutesExactly | backend/app/routes/auth.py:166-184 | every verdict from L1 in every run is less than ten minutes old if and only if there is no Redis |
| VpnLookups.StampDecides | backend/app/routes/auth.py:173-184 | an entry is less than ten minutes old whenever it is served if and only if its stamp is the time of a lookup |
| VpnLookups.RestampingDecides | backend/app/routes/auth.py:173-211 | the entry a call leaves in L1 keeps to ten minutes if it comes from a lookup, and if it comes from L2 exactly when the address was looked up at that moment |
| VpnLookups.AnyAgeBelowBothLifetimes | backend/app/routes/auth.py:173-184 | every age below 1200 s occurs, with the service saying otherwise by then |
| VpnLookups.L1StaysSmallWithoutRedis | backend/app/routes/auth.py:212-219 | without Redis no replica holds more than 500 entries after a call |
| VpnLookups.LimitHoldsExactly | backend/app/routes/auth.py:212-219 | the limit of 500 entries holds in every run if and only if there is no Redis |
| VpnLookups.AnySizeWithRedis | backend/app/routes/auth.py:173-184 | with Redis a replica can come to hold any set of public addresses |
| VpnCaches.Oldest | backend/app/routes/auth.py:217 | the n entries with the oldest stamps, and the rest |
| VpnCaches.VpnReplica.Prune | backend/app/routes/auth.py:216-219 | above 500 entries, exactly a hundred go and none that stays is older |
| VpnCaches.VpnReplica.CheckVpnIp | backend/app/routes/auth.py:151-244 | one call with its caches updated in place is one step of the system |
| IsoTimes.FromIsoInvertsIso | backend/app/routes/auth.py:98-101 | every datetime, with or without microseconds and at any offset, comes back from its ISO form |
| UserRows.CacheRoundTripExactly | backend/app/routes/auth.py:89-130 | a row survives the cache if and only if datetimes stand only, and strings never, in the two restored columns |
| CacheRuns.CacheIsTransparent | backend/app/routes/auth.py:404-415 | over every run with entries expiring and Redis failing at any time: same tables, same answers as without a cache, and cached rows equal to stored ones between requests |
| CacheRuns.OperationIsTransparent | backend/app/routes/auth.py:467-545 | one operation with the cache does and answers what it would without |
| CacheRuns.OutsideWritersExactly | backend/app/routes/admin.py:404-442 | after an approval, a rejection, a seeding or an outside rotation the cache is coherent if and only if nothing was cached for the user or nothing changed |
| CacheRuns.OldPasswordOutlivesRotation | backend/app/vault_client.py:427-432 | with the row cached, a login with the old password succeeds where the table would refuse it |
| CacheRuns.EveryOperationCanFollow | backend/app/routes/auth.py:385-640 | no run gets stuck: any operation can follow any run |
| AuthRequests.DirectKeepsTypes | backend/app/routes/auth.py:467-545 | every operation leaves rows with the column types of the schema, and only a rejection removes one |
| LoginWindows.StoredCountIsLongestChain | backend/app/routes/auth.py:531-541 | k is at most the stored count if and only if the last k events are failures less than five minutes apart |
| LoginWindows.BruteForceIsSixInARow | backend/app/routes/auth.py:443-449 | the brute-force test holds if and only if six chained failures end the history and the last is less than five minutes old |
| LoginHistories.StoredCountOverRuns | backend/app/routes/auth.py:531-541 | over every run of requests, rotations, approvals and resets, with the cache coherent or stale, failed_attempts is the length of that chain |
| LoginHistories.BruteForceOverRuns | backend/app/routes/auth.py:431-449 | the same through the cache, for what a login decides and reports |
| LoginHistories.OperationMovesWindow | backend/app/vault_client.py:437-441 | each operation, whatever row the cache gives it, moves each user's window in the table by the event it stands for |
| AuthPortals.AuthPortal.CacheUser | backend/app/routes/auth.py:89-106 | the loop over the row stores its serialised form |
| AuthPortals.AuthPortal.RestoreUserDatetimes | backend/app/routes/auth.py:119-130 | the loop over the two fields restores the row |
| AuthPortals.AuthPortal.LoadUser | backend/app/routes/auth.py:404-415 | the cached row if there is one, else the stored row, which is then cached |
| AuthPortals.AuthPortal.Login | backend/app/routes/auth.py:385-552 | statement by statement, one step with reply |
| AuthPortals.AuthPortal.Simulate | backend/app/routes/auth.py:619-782 | the same for a simulation |
| AuthPortals.AuthPortal.Register | backend/app/routes/auth.py:560-571 | the same for a registration |
| AuthPortals.AuthPortal.ApproveRegistration | backend/app/routes/admin.py:391-410 | the same for an approval, which leaves the cache alone |
| AuthPortals.AuthPortal.RejectRegistration | backend/app/routes/admin.py:442 | deletes a pending row and leaves the cache alone |
| AuthPortals.AuthPortal.ConfirmReset | backend/app/routes/admin.py:492-506 | login memory of every user to its baseline, and no user cached |
| CredentialRuns.UsersAgreeExactly | backend/app/vault_client.py:284-340 | over every run, for each user with secret and row: the row has the hash of the password in Vault if and only if it has any hash, and the password is not empty or the user was not seeded since the last rotation or approval |
| CredentialRuns.HashColumnTellsHistory | backend/app/vault_client.py:427-432 | over every run a row has a hash if and only if seeding, a rotation or an approval set it since the registration |
| CredentialRuns.ActiveUsersAgree | backend/app/vault_client.py:330-340 | in particular every active user with a secret agrees, but for an empty password seeded since |
| CredentialRuns.EmptyPasswordThenSeeding | backend/app/vault_client.py:289-297 | registering, approving with an empty password and connecting with the profile the approval made leaves the row with the hash of a password kept nowhere |
| CredentialRuns.SeedingAgreesExactly | backend/app/vault_client.py:289-306 | seeding leaves a user in agreement if and only if the secret is not one that matches its profile with an empty password |
| CredentialRuns.PendingUserWithSecret | backend/app/routes/auth.py:560-571 | registering a name that was rotated before leaves a secret beside a row without hash |
| CredentialRuns.SeedingKeepsCredentials | backend/app/vault_client.py:284-306 | seeding keeps every password that is not empty, every rotation count and every other credential |
| CredentialRuns.MailedPasswordsWork | backend/app/vault_client.py:342-357 | after seeding a mailed password is the one in Vault with its hash in Postgres, if and only if the secret did not hold an empty password that the user's profiles so far left alone |
| CredentialRuns.SecondSeedingIsIdleExactly | backend/app/vault_client.py:295-306 | a second seeding writes no secret if and only if no two profiles of a user disagree |
| CredentialRuns.RotationCountCounts | backend/app/vault_client.py:390-416 | over every run the count in a secret is the number of rotations of that user since approval |
| Credentials.MostCommon | backend/app/vault_client.py:691-692 | the home region chosen occurs among the peers, and none occurs more often |
| VaultClients.VaultClient.InitAllUserSecrets | backend/app/vault_client.py:244-350 | the loop over the profiles, with the list to be mailed and its three counters, which add up to the number of profiles |
| VaultClients.VaultClient.InitUserSecret | backend/app/vault_client.py:266-340 | one profile: secret created, updated or left, and the row written |
| VaultClients.VaultClient.RotateCredentials | backend/app/vault_client.py:379-473 | the secret replaced with the next number, and the hash of the row there is |
| Accounts.AdministrationIsTheSame | backend/app/routes/admin.py:391-442 | a registration, approval, rejection or rotation does the same to password, department and status in the requests' table and in the credential stores' |
| Accounts.SeedingIsTheSame | backend/app/vault_client.py:330-340 | and so does seeding a profile |
| VaultClients.VaultClient.ProvisionApprovedUser | backend/app/vault_client.py:709-760 | secret and profile from the department's peers, in place of any older profile |
| VaultClients.VaultClient.ApproveRegistration | backend/app/routes/admin.py:391-410 | provisioning and activation of a pending user, or nothing |
| InfraLeases.LeaseAccounting | backend/app/vault_infra_client.py:236-275 | over every run with failing calls and restarts, the leases still honoured are those lost plus the tracked one if honoured |
| InfraLeases.UnrevokedIsBounded | backend/app/vault_infra_client.py:236-275 | at most 1 + failed revocations + restarts |
| InfraLeases.NothingLostExactly | backend/app/vault_infra_client.py:236-275 | nothing was lost if and only if the honoured leases are the tracked one |
| InfraLeases.WithoutFailuresTrackedIsAll | backend/app/vault_infra_client.py:184-304 | without failures the honoured leases are exactly the tracked ones |
| InfraLeases.RunIsValid | backend/app/vault_infra_client.py:209-234 | Kafka is never tracked, and a tracked lease was issued for its service |
| InfraLeases.KafkaHasNoLease | backend/app/vault_infra_client.py:209-234 | nor does Vault hold a lease for it |
| InfraLeases.RotationsAreCounted | backend/app/vault_infra_client.py:211-277 | the counter is the number of leases issued and of all Kafka attempts, failed ones too |
| InfraClients.InfraClient.RotateInfrastructureCredentials | backend/app/vault_infra_client.py:184-304 | one call with its variables updated in place is one step |
| SimulationCursor.AtMostOneProducer | backend/app/routes/simulate.py:88-94 | at any time at most one task is live, and one is after a dashboard joined |
| SimulationCursor.InStepExactly | backend/app/routes/simulate.py:35-52 | over every run, 0 <= memory - stored <= batch if and only if the index was loaded, saved or reset since the start, or at least as many events were counted as were stored |
| SimulationCursor.ReloadStepsBack | backend/app/routes/simulate.py:35-52 | over every run a reload steps back by at most nine and the saves that failed |
| SimulationCursor.UnloadedCursorFallsBehind | backend/app/routes/simulate.py:35-42 | after a restart in which loading fails, the first event leaves the index behind the stored one exactly if that is above 1 |
| SimulationCursor.SkipsExactly | backend/app/routes/simulate.py:97-152 | over every run, each index below the one in memory was produced since the last reset at every moment, if and only if every count moved past an index produced before or just now |
| SimulationCursor.AdvanceExactly | backend/app/routes/simulate.py:143-144 | the same for one count from any state |
| SimulationCursor.NoIndexIsSkipped | backend/app/routes/simulate.py:97-152 | no run skips an index in which neither a reset nor the first load comes between a pick and its count |
| SimulationCursor.ResetInBetweenSkips | backend/app/routes/simulate.py:133-144 | a reset while an event is under way skips index 0 exactly unless that is the event |
| SimulationCursor.LateLoadSkips | backend/app/routes/simulate.py:133-144 | a load while an event is under way skips the stored index exactly unless it was produced or is that event |
| SimulationProducers.SimulationProducer.SaveSimIndex | backend/app/routes/simulate.py:44-52 | the batch count, and at ten the save, which a failure leaves pending |
| SimulationProducers.SimulationProducer.EnsureProducerStarted | backend/app/routes/simulate.py:88-94 | a task is created only if there is none or the last is over |
| SimulationProducers.SimulationProducer.ProducerTurns | backend/app/routes/simulate.py:109-124 | the head of the loop: pick the event at the index modulo the total, or stop |
| SimulationProducers.SimulationProducer.ProducerCounts | backend/app/routes/simulate.py:143-149 | the rest of the loop body: count and save, or nothing after an exception |
| SimulationProducers.SimulationProducer.ConfirmReset | backend/app/routes/admin.py:490 | index, batch count and stored index become 0 |
| Text.SplitInvertsJoin | beats/filebeat-live.yml:25 | pieces without the separator come back from their join |
| Text.JoinInvertsSplit | backend/app/threat_engine.py:380 | joining the pieces of a split gives the string back |
| ZeekLines.ZeekLog.WriteZeekLog | backend/app/routes/auth.py:351-387 | one line of twenty fields is appended |
| ZeekLines.LoginComesBack | backend/app/threat_engine.py:357-479 | printed and read back, a login has the same user, outcome, suffix, address and id; it counts as VPN exactly when so written, mentioned in the name or from a known prefix |
| ZeekLines.UserComesBackExactly | backend/app/threat_engine.py:366-385 | the user name comes back if and only if it has no underscore; the outcome if and only if it has none or its second piece is "success" exactly when the login succeeded; the suffix always |
| ZeekLines.ServiceDecodes | backend/app/threat_engine.py:366-385 | for any user name: the piece up to the first underscore, the outcome in the next, the suffix as written |
| ZeekLines.OutcomeOfAnother | backend/app/threat_engine.py:380-385 | a failure of `<name>_success` reads as a success of `<name>` |
| ZeekLines.MentionExactly | backend/app/threat_engine.py:470-475 | the service field mentions "vpn" exactly if the suffix was written or the name does |
| ZeekLines.FileComesBack | backend/app/routes/auth.py:378-383 | every login appended to the file is read back, in order |

## Left out

- Packets.TcpSegmentVerifies: a payload over 65515 bytes, for which struct.pack raises; no payload of the script comes near it.
- Conversations.ExchangeIsConversation: TCP flags of 0x1000 and more, which the script never sets, and rows whose numbers or addresses do not fit their fields, at which packing raises.
- PcapFiles.WritePcap: the CSV reader, the live capture and the run of Zeek; non-ASCII digits in workspace ids; timestamps as floating-point numbers are reals.
- MetricsRuns.MetricsConservation: total_latency_ms, the live counters in Redis and writes whose outcome the client does not learn.
- MetricsRuns.AttackTypesExactWithoutOverlap: requires that merges do not overlap, which the code does not ensure; AttackTypesExactly covers every run.
- AlertRuns.FastPathRefinesSlowPath: failing Redis or database calls, and other operations between the check and the UPDATE of a resolution: each operation of the store is atomic.
- AlertRuns.AuditTellsTheStory: the routes around the store, one of which rotates again for an alert that is already approved.
- UserHistories.CountersBoundedByEvents: timestamps out of order, where the decay factor exceeds 1, and rounding of floating-point products.
- UserHistories.ForgettingLowersHops: requires a run without stale addresses, since the plain claim is false of the code; ForgettingExactly covers every run.
- HistoryStores.HistoryStore.EngineerSingleEvent: Redis failing in the middle of a call, the coordinates and speed behind impossible travel, and the features computed from the history.
- VpnLookups.CachedVerdictsAreRecent: each call takes place at one moment of a common clock; a reset of the caches only shortens lifetimes.
- CacheRuns.CacheIsTransparent: requests that overlap in time, a failing DEL of a cached row, and failing database statements with their fallbacks.
- IsoTimes.FromIsoInvertsIso: UTC offsets with seconds, and the other notations that fromisoformat accepts.
- LoginHistories.BruteForceOverRuns: the clock of the database and that of the server are the same; requires that outside writers find nothing cached.
- AuthPortals.AuthPortal.Login: the VPN check before it, log lines, broadcasts and mails; the event a VPN login raises is the rotation it may cause.
- AuthPortals.AuthPortal.Simulate: the event that is built and its anomaly type; whether it leads to a rotation is a parameter.
- CredentialRuns.UsersAgreeExactly: Vault or database calls that fail between the two writes, and a password generated by seeding that has the hash of the empty one; starts from stores that agree on the user, such as empty ones.
- CredentialRuns.MailedPasswordsWork: passwords generated alike or empty.
- VaultClients.VaultClient.ProvisionApprovedUser: the behavioural baselines copied from the peers.
- InfraLeases.LeaseAccounting: a lease that Vault issued although the call failed, and the expiry of leases by their own TTL.
- SimulationCursor.NoIndexIsSkipped: more than one backend process, and a missing row in hpe_simulation_state; requires a careful run, since the plain claim is false of the code; SkipsExactly covers every run.
- ZeekLines.LoginComesBack: the login hour, region and role added to the event, and lower case of letters outside ASCII.
- SHA-256, UUIDs and generated passwords: a function, fresh numbers and parameters.
- Threat scores, the models, feature engineering, drift monitoring, SOAR mails, Kafka and Elasticsearch clients, WebSocket handling, the React and portal front ends, Kubernetes and compose files.
- determine_action, severity filters, the reset token, deduplication and the mode switcher: one-branch logic that would only add easy members.
