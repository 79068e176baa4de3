# nomctl: verified model

This project models the stateful core of nomctl and proves what its parts keep,
over whole runs and under any mix of failures.

* **Alerting protocol.** The node daemon (`AlertDaemon`) keeps one
  acknowledge-and-retry record per alert and reports over a channel that may
  refuse a request, fail to deliver it, or lose the reply. The relay decides
  what is forwarded and recorded (`Delivery`), and does so behind admission,
  authentication, silence recovery, mutes and chat commands (`RelayServer`, on
  the flat-key store of `RelayStore` and the limiters of `RateLimiter`).
  `Protocol` states what both ends keep together on one channel, and that the
  daemon's own loop is such a run; `Episodes` follows one alert through it.
  `EndToEnd` shows that the whole relay is that channel and carries agreement
  through any interleaving with other nodes, ticks and commands.
* **Rules over a sliding history.** `History` shows that trimming at every step
  loses nothing a window rule can see; `AlertRules` proves the loops of the
  rules against statements of when they fire, the pillar rule's unsigned
  arithmetic, and detection latency.
* **Transactional files.** `Restore` and `WalletRestore` swap live data with any
  operation failing, on the file tree of `FileTree`. `Backup` remembers every
  directory state, so a crash is a stop at any of them. `NodeConfig` saves
  config.json without losing a version.
* **Small exact algorithms.** `ConfigValues`, `Text` and `Decimal` (printing and
  parsing settings) and `TailReader` (the bounded tail of a stream).

Code that updates state in place is a class or a method with loops whose
contract equates the new state with a function of the old one; the lemmas are
about those functions and the runs built from them. Foreign calls are
parameters: every message, move, write, removal and request has an arbitrary
outcome chosen by the caller of the model. Time counts nanoseconds, and a class
method that compares with the zero time requires a clock past its first minute.

## What the proofs found

Places where the code keeps less than its documentation says. The code is
modelled as it is; each has a lemma with the exact condition, and an input on
which it happens.

* **Recovery lost across a baseline.** `website/docs/alerts/rules.md:43` promises
  every alert a recovery message. A daemon restarted (or a rule disabled and
  enabled again) across the recovery takes a quiet baseline and sends nothing:
  the relay stays at firing exactly when it was firing at the baseline
  (`Protocol.RecoveryAfterBaselineIff`; the run: `Episodes.RecoveryCanBeLost`).
* **Dropped reminders.** A due reminder is accepted but reaches the chat only if
  it does not travel faster than the report before it by more than it is late
  (`Protocol.ReminderPostedIff`). So "repeats every 10 minutes"
  (`website/docs/alerts/rules.md:44`) can become 20 (`Episodes.ReminderCanBeDropped`),
  but while requests get through it stays below 20 minutes plus one sampling
  period plus the jitter of the delays (`Episodes.ReminderGaps`).
* **Swallowed details.** A changed detail of an info alert within 10 minutes is
  acknowledged, dropped, and never offered again (`Protocol.ChangedDetailPostedIff`;
  the run: `Episodes.DetailCanBeSwallowed`).
* **Pairing again.** New credentials keep the daemon's entries: agreement
  survives exactly when no accepted entry is firing (`Protocol.RepairAgreesIff`;
  the run: `Protocol.RepairCanDisagree`).
* **Self-reported silence.** Validation lets a node report `node_silent`; that is
  the one way the silence flag and its record part
  (`RelayServer.SelfReportedSilenceIff`; the run: `RelayServer.SelfReportParts`).
* **Jitter.** An all-samples rule stops firing while its condition lasts when the
  first interval of its window is shorter than the slack the cut left
  (`AlertRules.BadWindowReportedIff`; four samples: `AlertRules.JitterSilencesARunningAlert`).
* **Long intervals.** With more than 30 minutes between samples the two-sample
  rules never see two samples; the interval has no upper bound
  (`History.LastTwoUnaffected`, `AlertRules.DownRuleUnaffected`; two steps:
  `AlertRules.LongIntervalHidesAnOutage`).
* **Produced going back.** Above 2^63 the pillar rule can raise a false alarm by
  wraparound (`AlertRules.PillarExactness`; two samples: `AlertRules.PillarFalseAlarm`).
* **Archive name taken.** Two backups in one second share a name, and opening the
  sidecar empties it. Whatever the two archives hold, a state on the way lists an
  archive that does not verify exactly when the name was taken and the run got as
  far as opening the sidecar (`Backup.AlwaysVerifiesIff`); what was listed stays listed
  with its bytes under the matching condition (`Backup.AlwaysKeptIff`), and a
  failed rename takes the first archive off the list
  (`Backup.TakenNameStaysListedIff`; the calls: `Backup.TwoBackupsInOneSecond`).
* **Unreadable config.json.** It is replaced without a copy, and the save reports
  success (`NodeConfig.UnreadableVersionIsLost`); a readable one never is
  (`NodeConfig.VersionStays`).
* **Same-second wallet restores.** They share a safety directory. The copy an
  earlier restore kept there is gone after a success unless it equals the live
  entry, and also after a rollback, which moves the later copy back over the
  live entry (`WalletRestore.EarlierCopySurvivesIff`, for every outcome; the
  calls: `WalletRestore.TwoRestoresInOneSecond`).

The rate limiter is better than a bound of twice the limit: a key gets at most
2 * limit - 1 calls through in any minute, and a run from a new limiter reaches that.

## Model

| member | source | states |
|---|---|---|
| Protocol.Agreement | internal/alerts/daemon.go:138-218 | in every state reachable while one pairing lasts, under refused, failed, lost-reply and accepted requests, disabled rules, restarts, heartbeats that bring the unpaired verdict and relay-raised alerts, an accepted entry is firing exactly when the relay's record is |
| Protocol.StepIsRun | internal/alerts/daemon.go:138-163 | what one step does to both ends is two events of such a run: a restart or a round, then the heartbeat's reply |
| Protocol.StepsAreRun | internal/alerts/daemon.go:88-116 | any sequence of steps is a run |
| Protocol.RunDaemon | internal/alerts/daemon.go:88-116 | the daemon's loop from its start leaves both ends where the run leaves them, agreed |
| Protocol.TurnAgrees | internal/alerts/daemon.go:176-205 | one evaluation of one alert keeps both ends agreed whatever happens to the request |
| Protocol.AskedIff | internal/alerts/daemon.go:172-191 | a report is made exactly when there is unacknowledged news or a reminder is due; a newly enabled info rule that already fires makes none |
| Protocol.EntryAfter | internal/alerts/daemon.go:172-204 | every field of the record an evaluation leaves |
| Protocol.UnknownNodeLatches | internal/alerts/daemon.go:208-218 | the first report, or the announcement, answered "unknown node" sets the unpaired verdict |
| Protocol.UnpairedIsSilent | internal/alerts/daemon.go:208-236 | from then on no number of steps changes anything at the relay |
| Protocol.FreshDaemonAgrees | internal/alerts/daemon.go:72-86 | a daemon that has evaluated nothing agrees with any relay |
| Protocol.DaemonRulesAreOwn | internal/alerts/rules.go:67-83 | none of the daemon's 14 rules carries the relay's own alert name, and the relay knows them all |
| Protocol.AcceptedHeals | internal/alerts/daemon.go:197-203 | from any two states, one accepted report makes both ends hold the reported value |
| Protocol.PendingUntilConfirmed | internal/alerts/daemon.go:191-203 | an unacknowledged value is asked again at every evaluation, so the first request that gets through settles it at both ends |
| Protocol.RepairAgreesIff | internal/alerts/daemon.go:118-136 | pairing again keeps agreement exactly when no accepted entry is firing |
| Protocol.RepairCanDisagree | internal/alerts/daemon.go:118-136 | a reachable state that a new pairing leaves in disagreement |
| Protocol.QuietBaselineSendsNothing | internal/alerts/daemon.go:143-155 | from an acknowledged quiet entry a quiet rule sends nothing and changes neither end |
| Protocol.RecoveryAfterBaselineIff | internal/alerts/daemon.go:143-155 | after a quiet baseline the relay ends up firing exactly when it was firing at the baseline |
| Protocol.FiringAcksBounded | internal/alerts/daemon.go:190-203 | in a firing episode of length T at most 1 + T / 10 min reports of a non-info alert are accepted |
| Protocol.InfoAcksBounded | internal/alerts/daemon.go:182-203 | in a firing episode of an info alert at most one report plus one per detail change is accepted |
| Protocol.RecoveryAckedOnce | internal/alerts/daemon.go:191-203 | a recovery is accepted at most once, and not again once acknowledged |
| Protocol.ReminderPostedIff | internal/relay/server.go:392-397 | a due reminder is asked and accepted always, and posted exactly when the relay's clock has moved on by the reminder period too |
| Protocol.ChangedDetailPostedIff | internal/alerts/daemon.go:183-189 | a changed info detail is accepted always, posted only a reminder period after the last record, and never offered again |
| AlertDaemon.Daemon.EvaluateRule | internal/alerts/daemon.go:166-205 | one rule moves the daemon and the relay exactly by the turn the protocol lemmas are about |
| AlertDaemon.Daemon.EvaluateAll | internal/alerts/daemon.go:165-206 | the loop over the rules is the fold of those turns, an unpaired verdict in the middle included |
| AlertDaemon.Daemon.Send | internal/alerts/daemon.go:208-218 | an unpaired daemon sends nothing; otherwise true exactly on acceptance, and "unknown node" latches the unpaired flag |
| AlertDaemon.Daemon.TakeBaselines | internal/alerts/daemon.go:143-153 | the first evaluation records every enabled rule as acknowledged and never sent |
| AlertDaemon.Daemon.Step | internal/alerts/daemon.go:138-163 | one cycle trims the history, takes baselines and announces or evaluates, and heartbeats; both ends move as the function the run lemma is about |
| AlertDaemon.Daemon.Heartbeat | internal/alerts/daemon.go:220-236 | an unpaired daemon sends none; otherwise the reply may latch the unpaired verdict |
| Episodes.RoundIsTurn | internal/alerts/daemon.go:165-206 | a round is one turn of each enabled rule, with its own request or none when unpaired |
| Episodes.FirstStepRecords | internal/alerts/daemon.go:143-153 | the first step records every enabled rule as acknowledged, never sent, with its value and detail |
| Episodes.DisabledForgotten | internal/alerts/daemon.go:143-171 | a disabled rule is forgotten by a round, not recorded by the first step, and not reported |
| Episodes.DaemonIsTicks | internal/alerts/daemon.go:138-206 | a daemon's run is, for one enabled rule, its baseline and one turn per later step, so the bounds on turns are bounds on runs |
| Episodes.ReminderGaps | internal/alerts/daemon.go:190-203 | in a firing episode whose requests get through the first report is posted and no two messages, nor the last and the present, are 20 minutes plus a sampling period plus the delay jitter apart |
| Episodes.ReminderCanBeDropped | internal/relay/server.go:392-397 | a daemon run with three accepted reports and 20 minutes between its messages |
| Episodes.RecoveryCanBeLost | internal/alerts/daemon.go:143-155 | a run of two daemons after which, for any number of quiet steps, the relay still holds a recovered alert as firing |
| Episodes.DetailCanBeSwallowed | internal/alerts/daemon.go:183-189 | a run whose second release is accepted, not posted, and never offered again however long it lasts |
| AlertDaemon.Daemon.Apply | internal/alerts/daemon.go:118-136 | changed credentials switch the relay and drop the unpaired verdict, keeping the alert records |
| AlertDaemon.Relay.Alert | internal/alerts/client.go:87-122 | the reply and the relay's record after one request, for each fate of it |
| Delivery.RecordedIsWellFormed | internal/relay/server.go:381-414 | over any sequence of reports the records start with firing, ok only follows firing, and two firing records in a row are a reminder period apart |
| Delivery.WellFormedIsRecordable | internal/relay/server.go:381-414 | conversely every such history is recorded by some run |
| Delivery.RecordIsLastRecorded | internal/relay/server.go:399-413 | the record in force is the last one recorded, so failed and suppressed reports leave no trace |
| Delivery.EpisodeMessages | internal/relay/server.go:390-408 | a firing episode of length T posts at most 1 + T / 10 min messages however often it is reported |
| Delivery.RecoveryMessages | internal/relay/server.go:390-408 | a recovery is posted at most once, and only where the relay knew the alert as firing |
| EndToEnd.AgreementEndToEnd | internal/relay/server.go:267-414 | agreement between one node's daemon and the relay's stored records, and of every silence flag with its record, through any interleaving of its reports, heartbeats, restarts with their announcement, info messages under its id, other nodes' requests, ticks and chat commands |
| EndToEnd.FreshDaemonIsGood | internal/alerts/daemon.go:72-86 | a daemon with nothing accepted meets the starting condition of that run |
| EndToEnd.ServeIsExchange | internal/relay/server.go:267-349 | the whole server answers and records a report exactly as the daemon's channel does; limits, authentication, recovery and mutes only choose the passage |
| EndToEnd.ServeKeepsRecord | internal/relay/server.go:267-379 | a request leaves alone every record it does not report, node_silent apart, and an info message every record |
| EndToEnd.TickKeepsRecord | internal/relay/server.go:489-510 | a silence tick touches no record but node_silent's |
| RelayServer.SilenceNeverDiverges | internal/relay/server.go:309-324 | between any two events of any run a stored node is flagged silent exactly when its recorded node_silent state is firing |
| RelayServer.RecoverKeepsTied | internal/relay/server.go:309-324 | a recovery clears flag and record together, and a failed one restores the flag |
| RelayServer.CheckSilentKeepsTied | internal/relay/server.go:489-510 | a tick raises flag and record together for each candidate, whatever the fate of each message |
| RelayServer.NodeMayReportSilence | internal/alertproto/proto.go:142-163 | a report of node_silent by a node passes validation |
| RelayServer.SelfReportedSilenceIff | internal/relay/server.go:329-348 | after such a report flag and record agree exactly when it was an info message, claimed the state already shown, or was neither muted nor sendable: blocked, over the chat's rate, or refused by the chat |
| RelayServer.SelfReportParts | internal/relay/server.go:267-348 | a new pairing and one served report after which the record says firing and the flag does not |
| RelayServer.DeliverAlertIsDeliver | internal/relay/server.go:381-414 | delivery on the whole relay is the single-alert delivery on that node's record, and changes no other record |
| RelayServer.EmptyRelayAgrees | internal/relay/store.go:87-97 | an empty relay meets the invariant |
| RelayServer.Server.NotifyChat | internal/relay/server.go:417-451 | sends unless blocked or over the chat's rate, and flags a chat that blocked the bot |
| RelayServer.Server.DeliverReport | internal/relay/server.go:381-414 | the new relay state and answer of one delivery |
| RelayServer.Server.Authenticate | internal/relay/server.go:267-326 | each refusal in order with the limiter it consumed, or the admitted node after its recovery |
| RelayServer.Server.RecoverNode | internal/relay/server.go:307-324 | marks the node seen and delivers or re-flags its recovery |
| RelayServer.Server.HandleRequest | internal/relay/server.go:329-379 | the new state and response of an alert, heartbeat or unpair request |
| RelayServer.Server.ServeRequest | internal/relay/server.go:267-379 | admission followed by the handler, as one state function; a caller that is not credible gets its refusal and leaves the store and the other limiters as they were |
| RelayServer.RefusalTouchesNothing | internal/relay/server.go:272-303 | over the address rate, ill-formed id, oversized body, unknown node or no proof: that refusal, and nothing changes but the address's count |
| RelayServer.OverNodeRate | internal/relay/server.go:304-308 | a proven request over its node's rate is refused and only the two counts change |
| RelayServer.HeartbeatDoes | internal/relay/server.go:309-364 | the stored node is seen now, also when it was silent, and holds the new summary |
| RelayServer.UnpairDoes | internal/relay/server.go:366-379 | the node and exactly its records and mutes are gone |
| RelayServer.AlertDoes | internal/relay/server.go:329-451 | the answer to a valid report, the one record it writes, the node seen now, and a chat that blocks the bot remembered |
| RelayServer.BadAlertDoes | internal/relay/server.go:329-334 | a report out of form changes nothing beyond the node having been seen |
| RelayServer.AddressLimitIsRun | internal/relay/server.go:267-275 | over any run every request, served or refused, is one call of the address limiter and nothing else is |
| RelayServer.NamesStayUnique | internal/relay/store.go:128-138 | over any run no two nodes of one chat share a name |
| RelayServer.PairedIff | internal/relay/store.go:128-138 | a new node is stored exactly when its name is free in its chat |
| RelayServer.Server.Tick | internal/relay/server.go:489-510 | exactly the unflagged nodes past the gap are listed, and each is raised exactly when it was muted or its chat took the message |
| RelayServer.TickRaises | internal/relay/server.go:489-510 | every listed node is flagged, and recorded firing now, exactly when at its turn it was muted or its chat took the message |
| RelayServer.TickReaches | internal/relay/server.go:489-510 | a candidate whose chat is not blocked, answers, and has room for those listed before it is shown silent after the tick |
| RelayServer.TickSpares | internal/relay/server.go:489-510 | nodes a tick does not list keep everything, and all their records |
| RateLimiter.RateBound | internal/relay/server.go:553-583 | over any run with any keys a key is admitted at most 2 * limit - 1 times in any half-open minute |
| RateLimiter.AdmittedIff | internal/relay/server.go:553-583 | over any run from a new limiter a call is admitted exactly when its key can be held and its running window has admitted fewer than the limit; a refusal means limit admissions of this key within the last minute, or a full map of other keys |
| RateLimiter.AnswerIff | internal/relay/server.go:553-583 | when each answer is given; an unknown key finds room in a full map exactly when a sweep is due and a window has run out |
| RateLimiter.OtherKeysAfter | internal/relay/server.go:558-571 | a call leaves other keys alone unless it sweeps, and a sweep frees exactly those whose window has run out |
| RateLimiter.BoundIsReached | internal/relay/server.go:553-583 | from a new limiter one key's calls in two bursts are admitted exactly that often in one minute |
| RateLimiter.BoundedAnswersAsUnbounded | internal/relay/server.go:558-571 | sweeping changes no answer: every call with room is answered as by a counter that never forgets |
| RateLimiter.MapStaysBounded | internal/relay/server.go:550-571 | no run grows the map beyond its bound |
| RateLimiter.Limiter.Allow | internal/relay/server.go:553-583 | the new limiter state of one call, and true exactly when the key can be held and has calls left |
| RateLimiter.Limiter.Sweep | internal/relay/server.go:562-567 | removes exactly the keys whose window has run out |
| RelayStore.FlatRunRepresents | internal/relay/store.go:98-98 | over any run on NUL-free ids the flat map answers every lookup as a map from id to map from alert |
| RelayStore.KeyInjective | internal/relay/store.go:98-98 | a flat key of a NUL-free id names one (id, alert) pair |
| RelayStore.UnderIdExact | internal/relay/store.go:173-191 | the deletion test picks exactly the keys of that id, also when one id begins with another |
| RelayStore.MutedIff | internal/relay/store.go:220-229 | muted exactly by a mute of the alert or of all still running under that id |
| RelayStore.ValidNodeIdIsNulFree | internal/relay/server.go:584-594 | every id the relay accepts is NUL-free |
| RelayStore.CodesConserved | internal/relay/store.go:100-126 | redemptions of a code plus one still unused never exceed its issues |
| RelayStore.RedemptionSpendsAnIssue | internal/relay/store.go:116-126 | each redemption is matched with an issue before its expiry, for its chat, with no other success on the code in between |
| RelayStore.RedeemedIff | internal/relay/store.go:116-126 | a redemption succeeds exactly when the code's last issue has not run out and nothing succeeded on it since |
| RelayStore.IssuedIff | internal/relay/store.go:100-114 | a code is issued exactly when fewer than five of the chat's codes are outstanding |
| RelayStore.LiveCodesBounded | internal/relay/store.go:100-114 | under one nondecreasing clock a chat never holds more unused unexpired codes than the bound |
| RelayStore.MemoryStore.CreateCode | internal/relay/store.go:100-114 | issues unless the chat already holds the bound of live codes |
| RelayStore.MemoryStore.ConsumeCode | internal/relay/store.go:116-126 | gives the chat of an unused unexpired code and marks it used |
| RelayStore.MemoryStore.CreateNode | internal/relay/store.go:128-138 | refuses a name taken in the same chat |
| RelayStore.MemoryStore.DeleteNode | internal/relay/store.go:173-191 | removes the node and exactly its mutes and records, or nothing for a stranger |
| RelayStore.MemoryStore.SilentCandidates | internal/relay/store.go:193-205 | lists exactly the unflagged nodes last seen before the time, each once |
| RelayStore.MemoryStore.Muted | internal/relay/store.go:220-229 | muted exactly when the alert or "all" has a mute that has not run out |
| RelayStore.MemoryStore.SetLastSent | internal/relay/store.go:241-249 | writes the one record of that node and alert |
| History.KeptIsOneTrim | internal/alerts/rules.go:98-106 | trimming at every step equals one trim of the whole run |
| History.WindowUnaffected | internal/alerts/rules.go:116-129 | a window within the bound reads the same samples from the kept history as from the whole run |
| History.LastTwoUnaffected | internal/alerts/rules.go:108-114 | the newest two samples are both kept exactly when the step between them lies in the retained window |
| History.ClampMinutes | internal/alerts/config.go:258-270 | every loaded duration threshold lies within the retained history, and values in range are kept |
| History.TrimHistory | internal/alerts/rules.go:98-106 | drops exactly the leading samples older than the bound |
| History.TakeSince | internal/alerts/rules.go:116-129 | the samples within the duration of the newest one |
| AlertRules.RulesUnaffectedByTrimming | internal/alerts/rules.go:98-138 | the window rules answer on the kept history as on every sample ever taken |
| AlertRules.DownRuleUnaffected | internal/alerts/rules.go:146-161 | the two-sample rule does so exactly when the last step was within the bound or a sample was active |
| AlertRules.SlowStepHides | internal/alerts/rules.go:146-161 | any two steps more than the history bound apart, the service down at both, on which the rule fires on the whole run and not on the kept history |
| AlertRules.LongIntervalHidesAnOutage | internal/alerts/rules.go:146-161 | two steps 31 minutes apart, from any start |
| AlertRules.DetectionLatency | internal/alerts/rules.go:116-138 | under periodic sampling a lasting condition is reported at exactly the samples from FirstReport on, no later than d and no earlier than d - p after it began |
| AlertRules.BadWindowReportedIff | internal/alerts/rules.go:131-138 | for any sampling a bad window is reported exactly when its first interval is at least the slack before it |
| AlertRules.JitterSilencesARunningAlert | internal/alerts/rules.go:131-138 | four samples with milliseconds of jitter on which a running alert falls silent |
| AlertRules.PillarExact | internal/alerts/rules.go:365-399 | for counters below 2^63 the pillar rule fires exactly when its window is ready, Produced did not go back and the true shortfall is positive and at least the threshold |
| AlertRules.PillarExactness | internal/alerts/rules.go:392-399 | for all counters, exactly when the rule and the true shortfall agree |
| AlertRules.PillarFalseAlarm | internal/alerts/rules.go:392-399 | a false alarm raised by wraparound alone |
| AlertRules.ExpectedNeverWraps | internal/alerts/rules.go:372-394 | after the cut at the last decrease the subtraction of Expected never wraps |
| AlertRules.LastReset | internal/alerts/rules.go:372-379 | finds the last decrease of Expected |
| AlertRules.PillarMissed | internal/alerts/rules.go:365-403 | the rule's answer and cut, in its own arithmetic |
| AlertRules.RpcUnreachable | internal/alerts/rules.go:311-324 | fires exactly when the window covers the duration and every sample in it is active and unreachable |
| AlertRules.NotEnoughPeersRule | internal/alerts/rules.go:210-230 | fires exactly when the window covers the duration and every sample in it is reachable and short of peers |
| AlertRules.MomentumsStalled | internal/alerts/rules.go:338-355 | fires exactly when the window covers the duration and every sample is up, answering and at one height |
| AlertRules.ServiceDown | internal/alerts/rules.go:146-161 | fires exactly when there are two newest samples and both are inactive |
| Restore.Run | internal/restore/restore.go:123-171 | every failure after the stop loses no folder; a reported put-back is true of every path except folders that did not exist; success swaps exactly the manifest folders and keeps the old ones as safety copies; and the outcome is exact: swapped exactly when nothing stands in the way, not put back only if a removal or move back failed |
| Restore.MoveAside | internal/restore/restore.go:62-92 | moves existing folders aside and nothing else, and names what was moved when it stops early |
| Restore.MoveBack | internal/restore/restore.go:94-110 | in any order, and over whatever was installed: success puts every moved folder back; otherwise each is in one of its two places, and each whose own removal and move succeed is back whatever befalls the others |
| Restore.InstallAll | internal/restore/restore.go:150-155 | installs a prefix of the folders, all of them on success |
| Restore.Manifest | internal/restore/archive.go:60-68 | exactly the archive's chain-data folders, each once, and a refusal exactly when there is none |
| Restore.AsideInjective | internal/restore/restore.go:70-82 | safety copies of different folders have different names |
| WalletRestore.Restore | internal/walletbackup/walletbackup.go:440-541 | no path changes unless layout, size and key passed; a reported rollback is true; after a success each entry of the archive is at its place with its bytes and there is no other file, the old ones kept; nothing that was live is lost and nothing stray appears; which outcome it is, and what the safety directory holds, are exact |
| WalletRestore.AcceptedIff | internal/walletbackup/walletbackup.go:440-490 | accepted exactly when the layout is good, no two entries share a place, and the config's key path names an entry whose bytes open with the password and hold the address |
| WalletRestore.BaseNameIsLast | internal/walletbackup/walletbackup.go:340-352 | the name looked up is what follows the last slash of the key path |
| WalletRestore.EarlierCopySurvivesIff | internal/walletbackup/walletbackup.go:491-527 | for each outcome, exactly when a copy already in the safety directory is still there |
| WalletRestore.TwoRestoresInOneSecond | internal/walletbackup/walletbackup.go:491-527 | two restores under one stamp after which the first config.json is nowhere, the second having succeeded or rolled back |
| WalletRestore.Swap | internal/walletbackup/walletbackup.go:491-537 | the moves, the installs and the rollback, with the exact condition for success |
| WalletRestore.Rollback | internal/walletbackup/walletbackup.go:503-516 | walking back, success returns every moved entry; otherwise each is live or kept, and each whose own removal and rename succeed is live whatever befalls the others |
| WalletRestore.MoveBothAside | internal/walletbackup/walletbackup.go:517-527 | moves what exists into the safety directory and nothing else |
| WalletRestore.InstallAll | internal/walletbackup/walletbackup.go:528-537 | succeeds exactly when no file fails, and then config.json and wallet hold exactly the staged files |
| WalletRestore.Inspect | internal/walletbackup/walletbackup.go:304-356 | accepts exactly non-empty archives of regular files in the two places within the size bound and with a readable config, and reads each place's last entry with its bytes |
| WalletRestore.Stage | internal/walletbackup/walletbackup.go:454-474 | succeeds exactly when no two entries go to the same place |
| WalletRestore.Budget.Copy | internal/walletbackup/walletbackup.go:377-388 | an entry over the remaining budget fails and is never truncated |
| WalletRestore.EntryPath | internal/walletbackup/walletbackup.go:358-369 | an accepted name is config.json or a plain file name directly inside wallet |
| WalletRestore.NameAcceptedIff | internal/walletbackup/walletbackup.go:358-369 | a name of plain components is refused exactly when it is neither of the two; a leading "." or ".." changes nothing |
| WalletRestore.DotDotResolves | internal/walletbackup/walletbackup.go:358-369 | a ".." inside a name takes back the component before it |
| WalletRestore.PackedNamesAccepted | internal/walletbackup/walletbackup.go:115-160 | every name a backup writes is accepted as itself |
| Backup.WriteArchive | internal/backup/backup.go:223-245 | passes through exactly ArchiveStates; with a fresh name every state lists only archives that verify and loses none, and success lists the new one; both guarantees over its trace, as if and only if |
| Backup.AlwaysVerifiesIff | internal/backup/backup.go:223-245 | every state of a call lists only archives that verify exactly when the name is fresh or the call stops before it opens the sidecar |
| Backup.AlwaysKeptIff | internal/backup/backup.go:223-245 | everything listed stays listed with its bytes in every state exactly when the name is not a listed one or the call stops before that |
| Backup.TakenNameStaysListedIff | internal/backup/backup.go:240-244 | a listed archive written again is off the list in the end exactly when the rename failed and its sidecar was removed |
| Backup.FailureCleansUp | internal/backup/backup.go:223-245 | what a failed write leaves behind, whatever failed |
| Backup.TwoBackupsInOneSecond | internal/backup/backup.go:223-245 | two calls under one name, the second passing a state that lists an archive which does not verify |
| Backup.Prune | internal/backup/backup.go:100-117 | every state on the way lists only archives that verify; in the end exactly the selected ones that lost a file are off the list, and exactly the files whose removal succeeded are gone |
| Backup.List | internal/backup/backup.go:57-80 | exactly the archives with a sidecar, newest first |
| Backup.PruningKeepsNewest | internal/backup/backup.go:87-98 | the archives split into the newest ones kept and the rest, none of which is newer |
| Backup.SortIsStable | internal/backup/backup.go:82-85 | the order is newest first, a permutation, and keeps ties in order |
| Backup.HashPathInjective | internal/backup/backup.go:52-55 | archives share no sidecar |
| Backup.ArchiveNameIsArchive | internal/backup/backup.go:47-50 | every name a backup is given is one the listing matches |
| NodeConfig.VersionStays | internal/nodeconfig/nodeconfig.go:423-453 | the content a successful save replaces stays byte for byte in the backup it returned over any later run, exactly when it could be read |
| NodeConfig.BackupsDistinct | internal/nodeconfig/nodeconfig.go:488-502 | two saves of a run never share a backup path |
| NodeConfig.SaveAllOrNothing | internal/nodeconfig/nodeconfig.go:423-453 | config.json holds the new content on success and the old one otherwise |
| NodeConfig.UnreadableVersionIsLost | internal/nodeconfig/nodeconfig.go:432-441 | an unreadable file is replaced with success and without a copy |
| NodeConfig.FirstFreeIsFirst | internal/nodeconfig/nodeconfig.go:488-502 | the search gives the first free name, and fails as full only with 100 names taken |
| NodeConfig.ConfigDir.BackupName | internal/nodeconfig/nodeconfig.go:488-502 | the loop computes that search |
| NodeConfig.ConfigDir.SaveUnchecked | internal/nodeconfig/nodeconfig.go:423-453 | the new directory and answer of one save under any failures, and success exactly when nothing it needs fails |
| NodeConfig.SaveOkIff | internal/nodeconfig/nodeconfig.go:423-453 | a save succeeds exactly when its three steps do and the old content, if there is one to read, is copied to the first free of 100 names; that name is returned exactly when the copy was made |
| NodeConfig.RefusedOnlyWhenFull | internal/nodeconfig/nodeconfig.go:488-502 | without failures a save is refused only by 100 backups of one second |
| NodeConfig.CandidatesDistinct | internal/nodeconfig/nodeconfig.go:488-502 | no two probes try the same name |
| NodeConfig.SaveTouches | internal/nodeconfig/nodeconfig.go:423-453 | a save touches config.json only on success, its temporary file, and one new backup |
| NodeConfig.SaveLeavesNoTmp | internal/nodeconfig/nodeconfig.go:446-452 | the temporary file stays only after a torn write, or a failed rename that could not be cleaned up |
| ConfigValues.RoundTripIff | internal/nodeconfig/nodeconfig.go:251-290 | printing and parsing give a value back exactly for booleans, 64-bit integers, trimmed strings and plain lists |
| ConfigValues.ParsedSurvives | internal/nodeconfig/nodeconfig.go:251-290 | whatever text is accepted, JSON lists apart, becomes a value that printing and parsing give back |
| ConfigValues.ParseIgnoresSpace | internal/nodeconfig/nodeconfig.go:251-262 | space around a text, and the case of a switch, do not matter |
| ConfigValues.SwitchWords | internal/nodeconfig/nodeconfig.go:254-262 | the words for a switch, and no others |
| ConfigValues.ListRoundTripIff | internal/nodeconfig/nodeconfig.go:269-286 | for lists, exactly when elements are trimmed and comma-free, the text opens with no bracket and it is not the single empty string |
| Text.SplitOfJoin | internal/nodeconfig/nodeconfig.go:462-467 | splitting undoes joining for elements without the separator |
| ConfigValues.TrimFixes | internal/nodeconfig/nodeconfig.go:252-253 | trimming gives trimmed text and leaves exactly trimmed text alone |
| Decimal.AtoiItoa | internal/nodeconfig/nodeconfig.go:263-268 | printing and parsing integers undo each other on the 64-bit range |
| Decimal.ValueIff | internal/nodeconfig/nodeconfig.go:263-268 | exactly non-empty runs of digits have a value, unchanged by leading zeros |
| TailReader.TailBytes | internal/support/logs.go:90-111 | for every cut of the stream into reads, data with end of file included, exactly the last bytes, with never more than the bound and one chunk held |
| TailReader.ShiftDown | internal/support/logs.go:101-103 | the overlapping in-place copy moves the tail to the front intact |
| TailReader.LastOfLast | internal/support/logs.go:98-103 | dropping early bytes now or later makes no difference |

## Left out

- HTTP, JSON encoding, signatures, encryption, key derivation, Telegram, systemd and process execution: foreign calls, with arbitrary outcomes or as parameters.
- Overlapping requests: every request, tick and command is atomic, and one request reads the clock once; the delayed suppression notice and its counter are not modelled.
- The SQLite store and failing store calls: the model uses the in-memory store, whose calls succeed.
- How long the blocked flag lasts: it is modelled where it is set and cleared, and nothing is claimed about its lifetime.
- The pairing handler: its code redemption and node creation are modelled in the store and as an event with a fresh id; its rate limiter and reply are not.
- The daemon's error text, log throttling and state file, and the announcement's wording.
- Rules that read one sample or outside checkers (disk, memory, file descriptors, backups, wallet, updates) and the sync and crash-loop rules: easy members beside the window rules; thresholds are integers, not floating point.
- Message texts, node cards and chat replies: presentation.
- Folders or files that did not exist before a failed restore may stay installed: the rollbacks claim only what existed.
- Torn moves across file systems and flush order: each move and rename is one step; private staging directories appear only through their contents.
- RelayStore.MemoryStore.SilentCandidates: does not model the order by id, because no proved property depends on it.
- Backup.List: does not model the pattern's alphabetical order before the sort by time, nor special pattern characters in a service name.
- WalletRestore.InstallAll: does not model the alphabetical order of the files, which only decides where a failing install stops.
- WalletRestore.Restore: the address comparison folds ASCII letters only, because addresses are ASCII.
- ConfigValues.RoundTripIff: values read back from JSON as floating-point numbers are not modelled; letters of boolean words are folded as ASCII.
- Bootstrap, deployment, analytics, the user interface and the remaining commands.
