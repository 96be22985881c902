# A verified model of the site-control logic of vpp-lab

vpp-lab runs a small virtual power plant: PV panels, a battery and loads report over MQTT, a
scheduler and a day-ahead planner decide, commands go back to the devices, and an edge gateway
forwards the site's messages to a remote broker. This project models the parts of it that make decisions or keep
state, and proves what they promise.

| file | models |
|---|---|
| `Model.dfy`, `Strings.dfy` | devices, telemetry, site summaries; the order of strings |
| `CommandKeys.dfy` | the key under which the scheduler remembers a command |
| `Cooldown.dfy` | reserve, publish, roll back: the cooldown protocol as interleaved steps |
| `CommandIDs.dfy` | the ids of the scheduler's commands |
| `Scheduler.dfy` | the scheduler object and its tick |
| `CommandTable.dfy` | the `command_records` table and its two upserts |
| `CommandLog.dfy` | the in-memory command log and the client that feeds log and table |
| `EdgeQueue.dfy` | the store-and-forward queue, its flusher, cleanup and statistics |
| `Topics.dfy` | topic builders, parser, MQTT filters (section 4.7 of MQTT 3.1.1), the upstream prefix |
| `Planner.dfy`, `PlanProperties.dfy`, `PlanReports.dfy` | the day-ahead planner, what every plan satisfies, and what its numbers mean |
| `StateStore.dfy` | registry, telemetry, summary, per-site views, saving and reloading |
| `Dispatch.dfy` | dispatch preview, apply decision, apply request over a store |
| `Simulator.dfy` | the simulated battery, its warnings and its commands |
| `Labels.dfy` | label escaping and rendering on the metrics page |

Objects that the program updates in place are classes whose methods state their whole new state, as a
step or a run of a machine on values; the theorems are about all runs of those machines. Where other
goroutines, the broker or the database take part, their steps and answers are parameters, so a theorem
holds for every choice of them. Maps are visited in an arbitrary order.

## Main results

- The cooldown map, with its rollbacks, answers every request exactly as a limiter that remembers the whole history
  would, over every interleaving; so commands are rate-bounded per device and intent.
- One tick is a sequence of publishes on that machine, and never does two contradictory things.
- The command table depends only on which writes occurred, not on their order or number; the bounded log
  in memory agrees with it record by record, under an exact condition on the order of acknowledgements.
- The edge queue delivers upstream exactly a prefix of what was put, in order, apart from repetitions,
  through every failure and crash, and the repetitions are counted; cleanup loses nothing that was not
  delivered, and ticks without failures drain it batch by batch.
- Every plan from an accepted configuration conserves energy, stays within its SOC bounds, tiles its
  horizon and never exports by discharging. An apply request passes under one exact condition, and then
  always finds its device.
- Summaries, per-site views and a reload all derive from one (site, id) map.
- The simulator's warnings alternate and are at least 20 steps apart under any commands.
- Topics and label sets are parsed back from their text, and two label sets never render alike.

## Reading the contracts

- Instants are integers, in nanoseconds unless said otherwise; SOC, power and prices are exact reals.
- The two clock reads at scheduler.go:127 and scheduler.go:129 are taken as one instant, and the clock
  does not go back.
- An attempt's `at` is the instant of its reservation, and `RateBound` counts reservations whose publish
  has not failed. At completion instants the same bound holds only as far as `UnwidenedBoundIff` says;
  `CompletionBoundIsBest` gives the best bound there is.
- What the discharge targets of a plan promise can exceed what the battery has: `PromisesAreCoveredIff`
  says exactly when. What is really given out is always covered (`DischargeIsCovered`).
- An acknowledgement that reaches memory before its issue is lost there and kept in the table;
  `LogAgreesWithTableIff` says exactly when log and table agree all the same.
- A publish that reports an error but was delivered all the same is `PublishOk` followed by `Crash`; a mark that
  was stored but reports an error is `MarkOk` followed by `Crash`.
- The documentation recommends an upstream topic prefix so that forwarded messages are not captured
  again. That is true except for one shape (`ForwardedComesBackIff`).
- An apply request is refused also when the first listed battery of the site has an empty id, although
  the site has a battery; `CanApplyIff` states the exact condition. The API registers no such device
  (internal/api/server.go:177-180); one could only come from the devices table at start-up
  (cmd/vpp-lab/main.go:151-153).
- A configuration that gives a positive `min_soc` and leaves `max_soc` out is refused, although the
  default upper bound would fit it (`MinSOCNeedsMaxSOC`); explicit zeros are honoured only through the
  two "was given" flags.

## Model

| member | source | states |
|---|---|---|
| CommandKeys.KeyTexts | internal/scheduler/scheduler.go:82-106 | the keys in full: device id, action and JSON parameters of each of the three commands |
| CommandKeys.CommandKeyInjective | internal/scheduler/scheduler.go:171-174 | two requests share a key if and only if device and intent are the same, whatever characters the ids hold |
| Cooldown.RefusedIffBlocked | internal/scheduler/scheduler.go:126-134 | the map refuses a request exactly when some reservation of it that has not failed lies less than the cooldown back |
| Cooldown.ReserveKeepsInv | internal/scheduler/scheduler.go:128-134 | reserving keeps the invariant: live reservations spaced, entries live, recent live reservations covered |
| Cooldown.SucceedKeepsInv | internal/scheduler/scheduler.go:151-152 | a success at any moment keeps the invariant |
| Cooldown.FailKeepsInv | internal/scheduler/scheduler.go:142-149 | a failure with its conditional delete keeps the invariant |
| Cooldown.StepKeepsInv | internal/scheduler/scheduler.go:125-153 | every step of any goroutine keeps the invariant |
| Cooldown.RunKeepsInv | internal/scheduler/scheduler.go:125-153 | every interleaving keeps the invariant |
| Cooldown.SpecAnswers | internal/scheduler/scheduler.go:125-134 | the reference limiter in full: a request is granted, answered and stamped with the present instant exactly when nothing blocks it |
| Cooldown.SpecOutcomes | internal/scheduler/scheduler.go:142-152 | an outcome is recorded once, for an attempt in flight, and touches no other attempt |
| Cooldown.CodeRefinesSpec | internal/scheduler/scheduler.go:125-153 | over every interleaving the small map gives the same answers and grants as a limiter that decides from the full history |
| Cooldown.RunIsSpaced | internal/scheduler/scheduler.go:125-153 | from start-up, reservations of one device and intent that have not failed are pairwise a cooldown apart |
| Cooldown.RollbackSparesOthers | internal/scheduler/scheduler.go:143-147 | the rollback of a failure never erases the entry of another live reservation |
| Cooldown.EntryIsNewest | internal/scheduler/scheduler.go:129-133 | a live reservation within its cooldown owns the entry of its key |
| Cooldown.SpacedCount | internal/scheduler/scheduler.go:129-133 | spaced reservations fit into a window at most floor(W/cooldown)+1 times |
| Cooldown.RateBound | internal/scheduler/scheduler.go:125-153 | over every run and every window of length W at most floor(W/cooldown)+1 commands that do not fail are issued per device and intent |
| Cooldown.OneInThirtySeconds | internal/scheduler/scheduler.go:37 | within less than 30 seconds at most one command per device and intent is issued that does not fail |
| Cooldown.DoneWasIssued | internal/scheduler/scheduler.go:142-152 | completions in a window were issued in the window widened by the slowest publish |
| Cooldown.CompletionRateBound | internal/scheduler/scheduler.go:125-153 | for every run whose publishes take at most a given time, at most floor((W+slowest)/cooldown)+1 complete in a window of length W |
| Cooldown.CompletionBoundIsAttained | internal/scheduler/scheduler.go:125-153 | for every width and every slowest publish some run has that many completions in one window |
| Cooldown.TwoInThirtySeconds | internal/scheduler/scheduler.go:37 | two commands exactly 30 seconds apart both go out |
| Cooldown.CompletionBoundIsBest | internal/scheduler/scheduler.go:125-153 | a bound on completions holds over every run, request and window if and only if it is at least floor((W+slowest)/cooldown)+1 |
| Cooldown.UnwidenedBoundIff | internal/scheduler/scheduler.go:125-153 | floor(W/cooldown)+1 bounds completions in windows of length W if and only if W mod cooldown plus the slowest publish stays below the cooldown |
| Cooldown.UnwidenedBoundForAllWidthsIff | internal/scheduler/scheduler.go:125-153 | it bounds them in windows of every length if and only if publishes take no time |
| CommandIDs.CommandIDInjective | internal/scheduler/scheduler.go:136 | a command id determines device and instant, whatever characters the device ids hold |
| CommandIDs.ReadOfDecimal | internal/scheduler/scheduler.go:136 | the number in an id reads back to the instant and has no leading zero |
| CommandIDs.SpacedIDsAreUniqueIff | internal/scheduler/scheduler.go:125-153 | among reservations a cooldown apart per device and intent, ids are unique if and only if no device has different intents at one instant |
| CommandIDs.CommandIDsAreUniqueIff | internal/scheduler/scheduler.go:125-153 | over every interleaving that starts after 1970, the ids of commands in flight or sent are unique if and only if no device gets reservations with different intents at the same nanosecond |
| CommandIDs.OneInstantTwoIntents | internal/scheduler/scheduler.go:136 | that can happen: charging and discharging one device at one instant |
| CommandIDs.SchedulerIssuesOnce | internal/scheduler/scheduler.go:135-142 | where it does not, the scheduler issues every command id once, as the command log presumes |
| Scheduler.Scheduler.constructor | internal/scheduler/scheduler.go:30-39 | a new scheduler has an empty map and satisfies the invariant |
| Scheduler.Scheduler.SetPolicy | internal/scheduler/scheduler.go:119-123 | replaces the policy and nothing else |
| Scheduler.Scheduler.TryReserve | internal/scheduler/scheduler.go:126-134 | the first critical section is the reserve step, granted exactly when the map does not refuse |
| Scheduler.Scheduler.Succeeds | internal/scheduler/scheduler.go:151-152 | a nil error is the succeed step |
| Scheduler.Scheduler.Fails | internal/scheduler/scheduler.go:142-149 | an error is the fail step with its rollback |
| Scheduler.Scheduler.Publish | internal/scheduler/scheduler.go:125-153 | returns true exactly when the full-history limiter does not block and the broker accepts; its run on the cooldown machine is its reservation, then exactly what others do meanwhile, then its own outcome |
| Scheduler.OthersLeaveInFlight | internal/scheduler/scheduler.go:135-142 | what others do between reservation and answer leaves the reservation as it is |
| Scheduler.PublishedIsSucceeded | internal/scheduler/scheduler.go:125-153 | a call counts as published exactly when its own reservation, stamped at the call, succeeded |
| Scheduler.AfterIsRun | internal/scheduler/scheduler.go:58-111 | all publishes of ticks together are one run of the cooldown machine, so its theorems hold across ticks |
| Scheduler.Scheduler.PublishNext | internal/scheduler/scheduler.go:82-106 | after whatever others did since the last one, one more publish extends the sequence of calls a tick has enacted |
| Scheduler.Scheduler.SplitDevices | internal/scheduler/scheduler.go:64-76 | the device loop yields exactly the site's batteries and loads, in listing order |
| Scheduler.AddressedOfOwn | internal/scheduler/scheduler.go:64-96 | filtering by site and type first loses no device the tick wants to address |
| Scheduler.Scheduler.Consider | internal/scheduler/scheduler.go:79-96 | one battery is published to exactly when its state of charge allows the intent |
| Scheduler.Scheduler.Dispatch | internal/scheduler/scheduler.go:79-97 | the battery loop addresses exactly the batteries whose state of charge allows it, and reports whether any publish succeeded |
| Scheduler.Scheduler.ShedOne | internal/scheduler/scheduler.go:103-110 | the load loop addresses the first non-critical load of the site and no other |
| Scheduler.Scheduler.Tick | internal/scheduler/scheduler.go:58-111 | a tick makes exactly the calls its branches prescribe; each is a publish of the cooldown machine, with exactly the steps of others before and during it and with the answer of the broker as the outcome |
| Scheduler.AddressedFit | internal/scheduler/scheduler.go:66-105 | every addressed device is listed, of the site, and fits the intent |
| Scheduler.AddressedAreAllowed | internal/scheduler/scheduler.go:66-105 | the addressed devices are exactly those of the listing that the reported readings allow, in listing order |
| Scheduler.ExportChargesAll | internal/scheduler/scheduler.go:78-86 | below -10 W a tick calls every battery of the site whose reported SOC is below the maximum, a missing one counting as 0, and nothing else |
| Scheduler.FirstShed | internal/scheduler/scheduler.go:103-110 | there is a load to shed exactly when a non-critical load of the site is listed, and then it is the first of them |
| Scheduler.ImportDischargesOrSheds | internal/scheduler/scheduler.go:88-110 | above 10 W it calls every battery whose reported SOC is above the minimum; it sheds the first non-critical load exactly when none of these calls was published, the net power exceeds the threshold and there is one |
| Scheduler.TickIsSafe | internal/scheduler/scheduler.go:58-111 | every call is allowed by the reported metrics of its device and by the net power; no mixing of charge and discharge, no shed after a published discharge, at most one shed and never a critical load, own site only |
| Scheduler.ValidPolicyGuards | internal/scheduler/scheduler.go:155-169 | under a validated policy no battery without telemetry is discharged and nothing is shed while exporting |
| Scheduler.PolicyIsValidIff | internal/scheduler/scheduler.go:155-169 | a policy passes exactly when 0 <= min <= max <= 1 and the threshold is not negative; the complaint names the first field at fault |
| CommandTable.CommandTable.constructor | internal/repository/commands.go:18-22 | the table starts empty |
| CommandTable.CommandTable.PutCommandIssued | internal/repository/commands.go:12-37 | the issue statement is the issue upsert, or nothing when it fails |
| CommandTable.CommandTable.PutCommandAck | internal/repository/commands.go:39-59 | the ack statement is the ack upsert, guarded by the device id, or nothing when it fails |
| CommandTable.IssueWritesColumns | internal/repository/commands.go:18-35 | on any table an issue sets every issue column to its own value, keeps the ack columns, falls back to issued only without an ack, and touches no other row |
| CommandTable.AckWritesColumns | internal/repository/commands.go:40-57 | on any table an ack of the row's device sets status and the three ack columns and nothing else, one of another device changes nothing, one without a row makes a placeholder with empty action, reason and parameters |
| CommandTable.HeardIsMembership | internal/repository/commands.go:18-57 | in a coherent trace what was heard about a command is what the trace contains |
| CommandTable.UpsertIsFinal | internal/repository/commands.go:22-34 | an upsert moves a row to the final row of what has now been heard, in whatever order |
| CommandTable.TableIsHeard | internal/repository/commands.go:18-57 | after any coherent trace each row is the final row of what was heard about its command |
| CommandTable.IssuedRowHoldsIssue | internal/repository/commands.go:12-59 | after any coherent trace the row of an issued command holds, column by column, its issue, and its ack if there is one |
| CommandTable.UnissuedRowHoldsAck | internal/repository/commands.go:39-59 | the row of a command known by its ack alone holds the ack and placeholders; a command never written has no row |
| CommandTable.SameHeard | internal/repository/commands.go:18-57 | two traces with the same writes have heard the same |
| CommandTable.TableConverges | internal/repository/commands.go:18-57 | permuting or duplicating deliveries leaves the table the same |
| CommandTable.IssueAndAckCommute | internal/repository/commands.go:50-56 | an issue and an ack commute if and only if they name the same device |
| CommandTable.StatusFollowsAck | internal/repository/commands.go:30-56 | after any writes whatsoever a row's status is issued, acked or failed as its ack columns say |
| CommandLog.CommandLog.constructor | internal/state/state.go:28-35 | the log starts empty |
| CommandLog.CommandLog.PutCommandIssued | internal/state/state.go:219-233 | a new record goes to the front and the log is cut to 200 |
| CommandLog.CommandLog.PutCommandAck | internal/state/state.go:244-259 | the first record of that device and command takes the ack, all others stay |
| CommandLog.AckFirstIs | internal/state/state.go:247-258 | of the records for that device and command the first takes ok, error, timestamp and the status that goes with them; every other record and every issue stays |
| CommandLog.Client.PublishCommand | internal/mqtt/client.go:97-114 | a broker error changes nothing; otherwise the log and then, if it answers, the table take the issue |
| CommandLog.Client.HandleAck | internal/mqtt/client.go:147-158 | the log and then, if it answers, the table take the ack |
| CommandLog.IssuesAreDistinct | internal/state/state.go:219-233 | with unique ids no command occurs twice among the issues |
| CommandLog.AckFirstPointwise | internal/state/state.go:247-258 | among distinct commands an ack changes exactly the record of its command |
| CommandLog.IssueKeepsView | internal/state/state.go:219-233 | an issue keeps the log the view of the last 200 issues |
| CommandLog.AckKeepsView | internal/state/state.go:244-259 | an ack keeps it too |
| CommandLog.AckedSinceIff | internal/state/state.go:244-259 | the log has heard an ack of a command exactly when one was delivered after the issue |
| CommandLog.AckedSinceIsHeard | internal/state/state.go:244-259 | what the log has heard is what the table has heard last |
| CommandLog.LogIsBoundedView | internal/state/state.go:219-259 | over every trace, in whatever order acks come, the log holds exactly the last min(n,200) issues, newest first, each with the last ack delivered since its issue |
| CommandLog.LogHoldsLatestIssues | internal/state/state.go:219-259 | over every trace, without premises, the log holds the last min(n,200) issues, newest first |
| CommandLog.ViewIsRowIff | internal/mqtt/client.go:107-155 | record and row of an issued command say the same if and only if no ack was missed: it has none, or one was delivered after the issue |
| CommandLog.LogAgreesWithTableIff | internal/mqtt/client.go:107-155 | once log and table have received the same writes, in orders of their own, they agree column by column if and only if each of the last min(n,200) issues that is acked at all had an ack delivered to memory after it |
| CommandLog.LogAgreesWithTable | internal/mqtt/client.go:107-155 | in particular they agree when no ack reaches memory before its issue |
| CommandLog.InOrderMissesNone | internal/mqtt/client.go:107-155 | with acks after their issues none is missed |
| CommandLog.AckKeepsOrder | internal/state/state.go:244-259 | an ack never reorders, adds or drops records |
| CommandLog.LogStatusFollowsAck | internal/state/state.go:249-254 | over every run, without premises, a record's status is issued, acked or failed as its ack says |
| CommandLog.OvertakingAckSplits | internal/state/state.go:244-259 | an ack that overtakes its issue and is not delivered again splits log and table, for every command; LogAgreesWithTableIff is the exact condition |
| EdgeQueue.PendingRowsArePending | internal/edge/cache.go:71-76 | the query lists pending rows in strictly growing id order, at most as many as the limit |
| EdgeQueue.PendingRowsMissNone | internal/edge/cache.go:71-76 | a pending row is missing only when the limit was reached before it |
| EdgeQueue.PendingRowsAreOldest | internal/edge/cache.go:67-76 | the query lists exactly the oldest pending rows |
| EdgeQueue.PutKeepsInv | internal/edge/cache.go:60-65 | a put at any moment keeps the queue's invariant |
| EdgeQueue.CleanupKeepsInv | internal/edge/cache.go:98-104 | cleanup keeps it and removes no pending row |
| EdgeQueue.BeginKeepsInv | cmd/edge-gateway/main.go:393-397 | the batch read at the start of a flush is the oldest pending rows |
| EdgeQueue.PublishTakesOldest | cmd/edge-gateway/main.go:398-401 | the row about to be published is pending and no pending row is older |
| EdgeQueue.PublishKeepsInv | cmd/edge-gateway/main.go:398-404 | a publish keeps the invariant |
| EdgeQueue.MarkedTail | cmd/edge-gateway/main.go:398-408 | once its head is marked the rest of a batch is again the oldest pending rows |
| EdgeQueue.MarkKeepsInv | internal/edge/cache.go:93-96 | marking the head keeps the invariant |
| EdgeQueue.IdleKeepsInv | cmd/edge-gateway/main.go:401-408 | giving up the batch at any point, by error or crash, keeps it |
| EdgeQueue.StepKeepsInv | cmd/edge-gateway/main.go:389-411 | every step keeps it |
| EdgeQueue.RunKeepsInv | cmd/edge-gateway/main.go:389-411 | every run keeps it |
| EdgeQueue.RunIsOrderedAndLossless | cmd/edge-gateway/main.go:389-411 | over every run the publish log never goes back, every message put is pending or published, and what was published is what was put |
| EdgeQueue.InvIsGapless | cmd/edge-gateway/main.go:398-408 | from row 1 on, neighbouring publishes are of the same row or the next |
| EdgeQueue.DedupOfGapless | cmd/edge-gateway/main.go:398-408 | a gapless log without its repetitions is a prefix of what was put |
| EdgeQueue.UpstreamIsPrefixOfInserted | cmd/edge-gateway/main.go:389-411 | over every run, without repetitions, upstream has received precisely the first messages put, in order, none skipped |
| EdgeQueue.StepRepeats | cmd/edge-gateway/main.go:398-408 | each step adds a repetition, shown or due, exactly when it is a crash or failed mark between a publish and its mark |
| EdgeQueue.RepetitionsAreInterruptions | cmd/edge-gateway/main.go:389-411 | over every run the repetitions upstream number exactly those interruptions, less one that has not shown yet |
| EdgeQueue.ExactlyOnceIff | cmd/edge-gateway/main.go:389-411 | upstream holds the first messages put, each once and in order, if and only if no interruption has shown |
| EdgeQueue.OthersKeepFlusher | cmd/edge-gateway/main.go:365-374 | puts and cleanups never move the flusher or the publish log |
| EdgeQueue.FromOthersKeeps | cmd/edge-gateway/main.go:389-411 | puts and cleanups of others all take part in a flush, in their order |
| EdgeQueue.SentNext | cmd/edge-gateway/main.go:398-410 | one more message: what is delivered, marked and left, or why the loop stops |
| EdgeQueue.OthersKeepPending | internal/edge/cache.go:60-104 | puts and cleanups never change which existing rows are pending |
| EdgeQueue.ReachIsUnique | cmd/edge-gateway/main.go:401-408 | the answers of broker and database determine how many messages a flush delivers |
| EdgeQueue.OneMoreForwarded | cmd/edge-gateway/main.go:398-408 | one turn of the flush loop settles one message and decides whether the flush goes on |
| EdgeQueue.Gateway.constructor | internal/edge/cache.go:46-56 | the queue starts empty, with row ids from 1 |
| EdgeQueue.Gateway.PutMessage | internal/edge/cache.go:60-65 | a stored put adds one row under the next id, with the message, its instant and no sent mark |
| EdgeQueue.Gateway.Pending | internal/edge/cache.go:67-91 | returns the first pending rows in id order, at most the clamped limit |
| EdgeQueue.Gateway.MarkSent | internal/edge/cache.go:93-96 | stamps that row with the instant, if it is there, and changes nothing else |
| EdgeQueue.Gateway.DeleteSentBefore | internal/edge/cache.go:98-104 | exactly the rows that are not sent, or sent at the cutoff or later, remain, unchanged; returns how many went |
| EdgeQueue.Gateway.Stats | internal/edge/cache.go:106-127 | counts pending and all rows; the oldest instant is that of the pending row with the smallest id, absent exactly when nothing is pending |
| EdgeQueue.Gateway.PublishHead | cmd/edge-gateway/main.go:399-404 | a publish amid other steps is a run that appends the head to the log exactly when it is accepted |
| EdgeQueue.Gateway.MarkHead | cmd/edge-gateway/main.go:405-408 | a mark amid other steps is a run after which exactly the head has left the pending rows, when stored |
| EdgeQueue.Gateway.ForwardOne | cmd/edge-gateway/main.go:398-409 | one message is published, then marked; the flush goes on exactly when both succeed |
| EdgeQueue.Gateway.SendBatch | cmd/edge-gateway/main.go:398-411 | the loop delivers a prefix of the batch, stops at the first failure and nowhere else, leaves the other rows pending or not as they were, and its events are exactly the turns up to that failure |
| EdgeQueue.Gateway.FlushPending | cmd/edge-gateway/main.go:389-411 | a flush is a run of the queue machine whose events are exactly the turns up to the first failure; it delivers the payloads of the oldest 100 pending rows, each under its own topic when no prefix is set and under prefix, slash, topic otherwise, and exactly those delivered and marked stop pending |
| EdgeQueue.OldestFirst | internal/edge/cache.go:71-76 | a batch takes as many of the rows older than any limit as it can hold |
| EdgeQueue.FlushDrains | cmd/edge-gateway/main.go:389-411 | a flush never makes an old row pending again; without failures it takes a whole batch of 100 off the old ones, or all of them |
| EdgeQueue.Gateway.OneRound | cmd/edge-gateway/main.go:383-384 | one tick of the flush loop is a run of the queue machine that drains the older rows so |
| EdgeQueue.Gateway.FlushLoop | cmd/edge-gateway/main.go:376-387 | over any number of ticks, with puts, cleanups and failures as they come, at most max(0, pending - 100*successes) of the rows pending at the start are left, and exactly that if no tick fails |
| EdgeQueue.EnoughRoundsPublishAll | cmd/edge-gateway/main.go:376-411 | after ceil(pending/100) ticks without a failure every message put before the first of them has been published, whatever is put meanwhile |
| Topics.SplitConcat | internal/topic/topic.go:32 | splitting distributes over a slash |
| Topics.SplitOfJoin | internal/topic/topic.go:32 | splitting undoes joining slash-free levels |
| Topics.JoinOfSplit | internal/topic/topic.go:32 | joining undoes splitting, for every string |
| Topics.ParseOfPrint | internal/topic/topic.go:31-46 | parsing inverts printing for slash-free segments and kinds of one or two levels |
| Topics.ParseOfBuilders | internal/topic/topic.go:15-46 | the parser inverts the two builders |
| Topics.BuildersJoinLevels | internal/topic/topic.go:15-21 | which level of a built topic holds what |
| Topics.ParseReadsLevels | internal/topic/topic.go:31-46 | which topics the parser accepts and which level it reads each field from |
| Topics.PrintOfParse | internal/topic/topic.go:31-46 | an accepted topic is reprinted exactly if and only if it has at most six levels |
| Topics.WildcardLevels | internal/topic/topic.go:23-25 | the levels of the first filter |
| Topics.CommandAckWildcardLevels | internal/topic/topic.go:27-29 | the levels of the second filter |
| Topics.SubscribedLevels | cmd/edge-gateway/main.go:425-430 | which topics the two filters reach, for every slash-free site id, the wildcard included |
| Topics.SubscriptionIsExact | cmd/edge-gateway/main.go:425-430 | for slash-free site ids the filters match exactly the site's five-level topics and its command/ack topics if and only if the site id is not the wildcard |
| Topics.UpstreamTopicIff | cmd/edge-gateway/main.go:432-438 | a prefix of slashes only, or none, leaves the topic as it is; otherwise the topic is the prefix without its outer slashes, a slash, and the topic without its leading slashes; every prefix is one or the other |
| Topics.ForeignPrefixNeverMatches | cmd/edge-gateway/main.go:432-438 | for slash-free site ids and a prefix whose first level is not vpp no forwarded topic matches the filters |
| Topics.ForwardedComesBackIff | cmd/edge-gateway/main.go:425-438 | for slash-free site ids, the wildcard included, and any prefix, exactly one shape of captured topic matches again once forwarded |
| Topics.ForwardedCanComeBack | cmd/edge-gateway/main.go:425-438 | that shape exists, for every type of device: it is captured, forwarded under the prefix "vpp" and captured again |
| Topics.CommandAckComesBack | cmd/edge-gateway/main.go:425-438 | vpp/vpp/battery/command/ack is such a topic |
| Planner.NoBandError | internal/optimizer/plan.go:199-209 | the band loop finds no fault exactly when every band is well formed |
| Planner.AcceptedIffSound | internal/optimizer/plan.go:173-252 | validation accepts exactly the configurations that normalise to a sound one and whose bounds do not cross as given |
| Planner.MinSOCNeedsMaxSOC | internal/optimizer/plan.go:189-197 | a positive lower SOC bound without an upper one is refused before defaults apply |
| PlanReports.DefaultsFillIn | internal/optimizer/plan.go:84-99 | each zero field takes its default value, the SOC bounds only when not given; without tariffs the price is 0.32 at night, 0.95 in the evening and 0.58 otherwise |
| PlanReports.ComplaintIsTrue | internal/optimizer/plan.go:173-226 | a complaint names a field that is at fault, and of the bands the first that is not well formed |
| Planner.LowOf | internal/optimizer/plan.go:287-295 | a band price that no band undercuts |
| Planner.HighOf | internal/optimizer/plan.go:297-305 | a band price that no band exceeds |
| Planner.LowPrice | internal/optimizer/plan.go:287-295 | the loop finds the lowest band price |
| Planner.HighPrice | internal/optimizer/plan.go:297-305 | the loop finds the highest band price |
| Planner.PriceAt | internal/optimizer/plan.go:277-285 | the first band that covers the hour decides, else 0.58 |
| PlanReports.FirstBandDecides | internal/optimizer/plan.go:277-283 | the first band that covers the hour sets the price |
| PlanReports.UncoveredHourCosts | internal/optimizer/plan.go:284 | an hour no band covers costs 0.58 |
| Planner.PlanSlots | internal/optimizer/plan.go:123-169 | the loop reports, slot by slot, the turn whose SOC follows from the previous one |
| Planner.BuildDayAheadPlan | internal/optimizer/plan.go:101-171 | for every configuration the plan is the sequence of reported turns over the normalised configuration |
| PlanReports.PlanStartsOnQuarterHour | internal/optimizer/plan.go:103 | for every instant the plan starts on a quarter hour, at or before it and less than 15 minutes before |
| PlanReports.PlanStartsFromSummary | internal/optimizer/plan.go:109-115 | PV and load of the summary, at least 20 W and 30 W, and the average SOC, a half if there is none, held within the bounds |
| PlanReports.TruncDivCutsTowardZero | internal/optimizer/plan.go:104 | the quotient is cut toward zero |
| PlanReports.SlotCountIsQuotient | internal/optimizer/plan.go:104-107 | that many slots, or 96 when that leaves none |
| PlanReports.HourHoldsInstant | internal/optimizer/plan.go:277-278 | the local minute and hour are those in which the instant falls |
| PlanReports.SunFollowsCurve | internal/optimizer/plan.go:254-261 | no sun where the curve is not positive, otherwise the present power scaled by it and never more |
| PlanReports.LoadFollowsHour | internal/optimizer/plan.go:263-275 | the four load multipliers and the hours they hold |
| PlanReports.RoundIsNearest | internal/optimizer/plan.go:328-334 | rounding gives the nearest integer, ties away from zero |
| PlanReports.Round2IsNearest | internal/optimizer/plan.go:328-330 | whole hundredths, at most half of one off |
| PlanReports.Round4IsNearest | internal/optimizer/plan.go:332-334 | whole ten-thousandths, at most half of one off |
| PlanReports.SlotReports | internal/optimizer/plan.go:124-168 | each column of a slot: its span, price, forecasts and decision at its start and on the SOC so far, and the SOC it leaves |
| Planner.FirstContainingIsIndex | internal/optimizer/plan.go:75-82 | what the scan returns contains the instant, nothing before it does, and no answer means no slot does |
| Planner.CurrentSlot | internal/optimizer/plan.go:75-82 | the scan returns the first slot that contains the instant |
| PlanProperties.AcceptedIsGood | internal/optimizer/plan.go:101-115 | an accepted configuration gives the loop a sound one and an initial SOC within its bounds |
| PlanProperties.DecisionMode | internal/optimizer/plan.go:133-154 | a slot charges exactly when there is room and surplus or a cheap price; it discharges exactly when it does not charge, there is energy above the minimum, and the price is dear under load or the load exceeds the limit; with the powers that follow |
| PlanReports.ReasonIsTrue | internal/optimizer/plan.go:137-153 | the reason given is the one that applies |
| PlanProperties.DecisionFits | internal/optimizer/plan.go:133-154 | non-idle targets lie in (0, limit], discharge never exceeds the net load, surplus charging never exceeds the surplus, every charge is at least min(limit, 10) W |
| PlanProperties.LowTariffBelowPeak | internal/optimizer/plan.go:142-146 | every low-tariff slot is strictly cheaper than every peak-tariff slot, also in uncovered hours |
| PlanProperties.ReportedTargetsFit | internal/optimizer/plan.go:157-168 | the same bounds hold of the rounded values |
| PlanProperties.SOCInBounds | internal/optimizer/plan.go:307-326 | the SOC stays within the bounds before and after every slot |
| PlanProperties.TurnMoves | internal/optimizer/plan.go:156 | a charge strictly raises and a discharge strictly lowers the SOC, by exactly the target's share if and only if that fits the bound, else onto the bound |
| PlanProperties.MovedIsWithinTarget | internal/optimizer/plan.go:307-316 | no slot moves more energy than its target; a discharge moves all of it exactly when it fits |
| PlanProperties.EnergyBalance | internal/optimizer/plan.go:123-169 | over a whole plan, energy given out is energy taken in plus energy lost from the battery |
| PlanProperties.DischargeIsCovered | internal/optimizer/plan.go:123-169 | no more is given out than was above the minimum plus what was taken in |
| PlanProperties.NominalCharge | internal/optimizer/plan.go:123-169 | charge targets promise at least what is taken in |
| PlanProperties.NominalDischarge | internal/optimizer/plan.go:123-169 | discharge targets promise exactly what is given out if and only if each fits above the minimum |
| PlanProperties.UnfitDischargeIsUncovered | internal/optimizer/plan.go:307-316 | a discharge target that does not fit above the minimum promises more than was there or was taken in, on every plan |
| PlanProperties.PromisesAreCoveredIff | internal/optimizer/plan.go:123-169 | what discharge targets promise is covered after every slot by the initial energy above the minimum plus what was taken in, if and only if every target fits above the minimum |
| PlanProperties.NominalDischargeCanExceed | internal/optimizer/plan.go:150-156 | the condition can fail: an accepted configuration and a summary from which the planner promises more than there is |
| PlanProperties.ReportedSOCInBounds | internal/optimizer/plan.go:165 | the reported SOC lies between the rounded bounds |
| PlanProperties.RunClimbs | internal/optimizer/plan.go:137-156 | within a run of charge slots the SOC climbs by at least the share of min(limit, 10) W per slot |
| PlanProperties.StepsAreCounted | internal/optimizer/plan.go:307-316 | how many such steps fit between the bounds |
| PlanProperties.ChargeRunIsBounded | internal/optimizer/plan.go:137-156 | consecutive charge slots number at most ceil((max-min)*capacity*60/(min(limit,10)*minutes)) |
| PlanProperties.SlotCountIsExact | internal/optimizer/plan.go:104-107 | the slots divide the horizon without remainder, at least one per hour |
| PlanProperties.SlotsTile | internal/optimizer/plan.go:123-159 | the slots cover the horizon with no gap, overlap or empty slot |
| PlanProperties.SlotContainsIff | internal/optimizer/plan.go:77 | a slot contains an instant exactly when its index is the quotient |
| PlanProperties.IndexIsInPlan | internal/optimizer/plan.go:75-82 | the quotient is a slot of the plan exactly for instants in the horizon |
| PlanProperties.ScanIsDivision | internal/optimizer/plan.go:75-82 | the linear scan returns the slot with index floor((at-start)/length) throughout the horizon and nothing outside it |
| PlanProperties.NowIsFound | internal/optimizer/plan.go:103 | the planning instant always lies in a slot, whatever the slot length |
| PlanProperties.AlignedSlotWithinHour | internal/optimizer/plan.go:124-125 | an aligned slot stays within one clock hour |
| PlanProperties.SomeSlotCrosses | internal/optimizer/plan.go:124-125 | a misaligned plan has a slot that crosses an hour |
| PlanProperties.NoSlotCrossesHourIff | internal/optimizer/plan.go:124-125 | no slot crosses a clock hour if and only if the first minute is a multiple of the slot length |
| PlanProperties.QuarterStart | internal/optimizer/plan.go:103 | a start on the quarter hour is on the grid of every slot length that divides 15 |
| PlanProperties.SampledPriceHolds | internal/optimizer/plan.go:124-125 | from a start on the quarter hour, for slot lengths that divide 15, the price sampled at the start holds throughout the slot |
| PlanReports.PlanPriceHolds | internal/optimizer/plan.go:101-162 | in every plan of an accepted configuration whose slot length divides 15, in zones of whole quarter hours, the price of a slot holds throughout it |
| PlanReports.NoPlanSlotCrossesHourIff | internal/optimizer/plan.go:101-125 | in every plan of an accepted configuration no slot crosses a clock hour if and only if its first minute is a multiple of the slot length |
| StateStore.StateKeyInjective | internal/state/state.go:339-341 | for sites without NUL two keys are equal exactly when site and id are |
| StateStore.KeysCollideIff | internal/state/state.go:339-341 | some keys of two sites are equal if and only if the sites are the same or one continues the other after a NUL |
| StateStore.KeysAreInjectiveIff | internal/state/state.go:339-341 | keys of two sites determine site and id, for all ids, if and only if neither site continues the other after a NUL |
| StateStore.NulFreeSitesAreApart | internal/state/state.go:339-341 | sites without NUL never collide |
| StateStore.SumFrom | internal/state/state.go:157-174 | a sum over the map may start from any entry |
| StateStore.SumUpdate | internal/state/state.go:123 | replacing one entry changes a sum by exactly new minus old |
| StateStore.SumPointwise | internal/state/state.go:157-174 | sums add up entry by entry |
| StateStore.LatestIsUnique | internal/state/state.go:175-177 | there is one latest timestamp, so a summary is determined by the store's contents |
| StateStore.PutChangesTotals | internal/state/state.go:114-174 | a new reading changes a site's totals by exactly its contribution minus the old one |
| StateStore.SitesAddUp | internal/state/state.go:157-174 | the totals of several sites add up to the total over the readings registered at any of them |
| StateStore.AllSitesAddUp | internal/state/state.go:157-174 | totals over all sites equal the total over registered telemetry |
| StateStore.SOCSumWithin | internal/state/state.go:170-173 | the counted SOC sum lies between count times the bounds |
| StateStore.AvgSOCWithinReported | internal/state/state.go:179-181 | the average SOC lies between the smallest and the largest reported one |
| StateStore.TotalFrom | internal/state/state.go:157-174 | a sum of numbers over a map may start from any entry |
| StateStore.SumIsTotals | internal/state/state.go:157-174 | what the summary loop accumulates are the sums of the powers and SOCs that the registered devices of the site report, by type |
| StateStore.LookupIsByPair | internal/state/state.go:107-148 | where sites cannot collide, looking up by key and searching by site and id find the same |
| StateStore.Store.constructor | internal/state/state.go:28-35 | a new store is empty |
| StateStore.Store.UpsertDevice | internal/state/state.go:81-88 | files the device under its key, replacing only that entry |
| StateStore.Store.Devices | internal/state/state.go:90-98 | lists every registered device once, in any order |
| StateStore.Store.DeviceInSite | internal/state/state.go:107-112 | finds exactly what is filed under the pair's key |
| StateStore.Store.DeviceByID | internal/state/state.go:343-356 | finds a device by id exactly when one registered device has it |
| StateStore.UniqueByIDIs | internal/state/state.go:343-356 | a device is found by id exactly when it is the only one that carries it |
| StateStore.Store.PutTelemetry | internal/state/state.go:114-126 | files the reading under its resolved site and saves the same one when Redis answers |
| StateStore.ResolveSiteIs | internal/state/state.go:116-122 | a reading stays at the site it names; otherwise the one device with its id decides, and without one the store's own site |
| StateStore.Store.Interleave | internal/state/state.go:81-126 | registrations and readings in any sequence change the store as the steps say |
| StateStore.DevicesStay | internal/state/state.go:81-88 | over any steps no device is removed, and only a registration under the same key replaces one |
| StateStore.Store.Summary | internal/state/state.go:150-184 | PV, load and battery power are the sums of the reported powers of the site's registered devices of that type, net power is load minus PV minus battery, the average is over the reported SOCs, and the time is the latest; whatever the order of visiting |
| StateStore.Store.TelemetryForSite | internal/state/state.go:138-148 | the result agrees, for every id, with the search by site and id |
| StateStore.Store.DeviceStates | internal/state/state.go:186-217 | exactly one state per device of the site, sorted by type and id, with the reading of its own pair; online exactly when the reading has a time and is no older than the TTL, and its age in whole seconds |
| StateStore.StateOfIs | internal/state/state.go:194-207 | that determines the state |
| StateStore.SortedMeans | internal/state/state.go:210-215 | types never go back and within a type ids grow |
| StateStore.KindNames | internal/state/state.go:210-215 | the names the types are sorted by |
| StateStore.InsertSorts | internal/state/state.go:210-215 | placing a device with a new id keeps the listing strictly sorted by type and id |
| StateStore.SortedIsUnique | internal/state/state.go:210-215 | there is only one sorted listing of some devices |
| StateStore.ListingIsUnique | internal/state/state.go:186-217 | the result of DeviceStates is determined by the store: the order of visiting the map does not show |
| StateStore.ReportsByPair | internal/state/state.go:195-204 | where sites cannot collide the reported reading is the one the other views return |
| StateStore.LoadedStep | internal/state/state.go:302-315 | loading one more field keeps the loaded part an exact copy, if saved readings are complete |
| StateStore.RefillIs | internal/state/state.go:308-314 | an empty device id is read from the field, an empty site is the store's own, the rest stays |
| StateStore.Store.LoadTelemetry | internal/state/state.go:295-317 | a fresh store gets back exactly what was saved if and only if each reading carries its ids; in any case each reading is a saved one with empty ids filled in, under its own key, and none is left out |
| StateStore.SavedIsTelemetry | internal/state/state.go:123-125 | when every reading is saved the copy stays equal to memory over any steps |
| StateStore.StaysRestorable | internal/state/state.go:114-126 | complete readings over sites with names leave only readings that carry their ids |
| StateStore.RestartAfter | internal/state/state.go:295-333 | from any saved copy that loads unchanged and after any sequence of registrations and saved readings, a restart restores the same telemetry if and only if what was saved carries its ids; complete steps ensure that, so restarts can follow each other |
| Dispatch.Round2sAgree | internal/dispatch/preview.go:131-136 | the hand-written rounding equals the planner's on all reals |
| Dispatch.FirstBattery | internal/dispatch/preview.go:109-116 | found exactly when the listing holds a battery of the site, and then is one |
| Dispatch.FirstDevice | internal/dispatch/preview.go:109-116 | the loop returns the first battery of the site |
| Dispatch.FirstBatteryIsFirst | internal/dispatch/preview.go:109-116 | it is the first in the listing |
| Dispatch.BuildPreview | internal/dispatch/preview.go:37-84 | the step-by-step preview is the preview of the plan for that instant, summary and configuration |
| Dispatch.PreviewReports | internal/dispatch/preview.go:37-84 | the preview in full: what it is based on, the tracking error, when each outcome is given, and a candidate that orders exactly the active slot's power, direction and reason from the site's first battery at the present instant |
| Dispatch.DecideApply | internal/dispatch/preview.go:86-107 | passes exactly when confirmed, a candidate with a device id is there and the error is within the limit; otherwise the verdict names the first of these that fails; the preview is handed on unchanged |
| Dispatch.TracksMeans | internal/dispatch/preview.go:96-100 | the error is within the limit in either direction, 0 meaning 100 W |
| Dispatch.DecisionIsUnique | internal/dispatch/preview.go:86-107 | that determines the decision |
| Dispatch.DeadOutcomes | internal/dispatch/preview.go:48-70 | for every accepted configuration "no active slot" and "unsupported mode" never occur |
| Dispatch.CanApplyIff | internal/dispatch/preview.go:53-107 | an apply request passes exactly when confirmed, the slot calls for action, the site's first battery has an id, and the rounded error is within the limit |
| Dispatch.CandidateFitsPlan | internal/dispatch/preview.go:54-83 | a candidate orders exactly the power of the active slot, in (0, limit] up to rounding, in its direction and with its reason; a preview alone is never safe to apply |
| Dispatch.CandidateIsListed | internal/dispatch/preview.go:59-65 | the device a candidate is for is a battery of the site filed under its own key |
| Dispatch.IssueReports | internal/api/server.go:292-296 | the columns of the command that goes out |
| Dispatch.ApplyDispatch | internal/api/server.go:260-308 | with any changes to the store between its three reads: the decision is that of the summary and devices read, a positive one always finds its device, still the battery decided on unless its key was registered anew, and exactly the candidate is issued, when the broker takes it |
| Simulator.SampleKeepsInv | cmd/simulator/main.go:179-202 | a telemetry step keeps the SOC bounds and the distance travelled since the last event |
| Simulator.CheckKeepsInv | cmd/simulator/main.go:204-224 | an event check keeps events alternating and 20 steps apart |
| Simulator.SampleMoves | cmd/simulator/main.go:183-200 | a sample in numbers: half a percent up or down, held within 15% and 95%, idle on either end |
| Simulator.CheckSettles | cmd/simulator/main.go:209-223 | after a check the warning is open at 20% or less, closed at 30% or more and unchanged between; an event goes out exactly when that changes |
| Simulator.StepKeepsInv | cmd/simulator/main.go:179-224 | every locked section keeps the invariant |
| Simulator.RunKeepsInv | cmd/simulator/main.go:179-224 | so does every interleaving with commands |
| Simulator.Hysteresis | cmd/simulator/main.go:179-224 | under any commands the SOC stays in [0.15, 0.95], warnings and recoveries alternate from a warning on, and neighbours are at least 20 steps apart |
| Simulator.WarningsAreTimely | cmd/simulator/main.go:204-224 | over every run, once a sample is checked, a warning is open at 20% or less and none is at 30% or more: no event is missing |
| Simulator.EventsTakeTime | cmd/simulator/main.go:204-224 | n events need at least 20(n-1) steps |
| Simulator.CoastMoves | cmd/simulator/main.go:183-201 | a battery that is not idle has moved in its direction at every step |
| Simulator.IdleWithin160 | cmd/simulator/main.go:193-200 | without commands a battery is idle within 160 steps |
| Simulator.ChargingFromEmptyTakes160 | cmd/simulator/main.go:184-200 | the bound is tight |
| Simulator.Simulator.constructor | cmd/simulator/main.go:163-171 | idle at 0.65 with both relays on |
| Simulator.Simulator.BatteryTelemetry | cmd/simulator/main.go:179-202 | one sample step, reporting the SOC and mode after it and the power of the mode before it |
| Simulator.Simulator.PublishBatterySOCEvent | cmd/simulator/main.go:204-224 | one check step, publishing exactly the event it records |
| Simulator.Simulator.HandleCommand | cmd/simulator/main.go:246-289 | a command with an error changes nothing; otherwise exactly its relay takes the given state, or the battery the named mode |
| Simulator.CommandError | cmd/simulator/main.go:263-288 | a command without error names the right device type and a parameter of the right type |
| Simulator.CommandErrorIff | cmd/simulator/main.go:263-288 | which commands are carried out, and which error each of the others gets |
| Labels.EscapeLabelIsEscape | internal/metrics/prometheus.go:117-122 | the three replacements equal one escape per character |
| Labels.EscapedCharacters | internal/metrics/prometheus.go:117-122 | backslash, quote and newline are escaped as two characters each, all others stay |
| Labels.EscapeLabelConcat | internal/metrics/prometheus.go:117-122 | escaping works character by character |
| Labels.UnescapeOfEscape | internal/metrics/prometheus.go:117-122 | escaping has a left inverse |
| Labels.ReadItemsOf | internal/metrics/prometheus.go:98-102 | rendered pairs with plain names are read back, whatever the values |
| Strings.LessIsTotal | internal/metrics/prometheus.go:97 | the order of names is total and strict |
| Strings.LessIsTransitive | internal/metrics/prometheus.go:97 | and transitive |
| Strings.LessMeans | internal/metrics/prometheus.go:97 | it is the lexicographic order: a shorter prefix first, else the first character that differs decides |
| Labels.ListIsUnique | internal/metrics/prometheus.go:93-97 | there is only one sorted list of a set of names |
| Labels.InsertLists | internal/metrics/prometheus.go:97 | inserting a new name keeps the list sorted and complete |
| Labels.RenderLabels | internal/metrics/prometheus.go:92-103 | names collected in any order are rendered through their sorted list |
| Labels.ItemsReadAs | internal/metrics/prometheus.go:98-102 | the text is name, equals sign and quoted value, with commas between |
| Labels.RenderingIsUnique | internal/metrics/prometheus.go:92-103 | the text does not depend on the order in which the map was visited |
| Labels.ReadUndoesRender | internal/metrics/prometheus.go:92-122 | the text is read back to the same label set, for plain names |
| Labels.RenderIsInjective | internal/metrics/prometheus.go:92-122 | distinct label sets never render alike |
| Labels.PlainNamesNeeded | internal/metrics/prometheus.go:100 | for any two labels there is one label, with a name no metric uses, that renders alike: the premise on names cannot go |

## Left out

- MQTT, Redis, PostgreSQL, SQLite, Influx and HTTP themselves, TLS, JSON decoding: only their effect, as a success or failure or a change of a map. Saved telemetry is taken to come back from its JSON text unchanged, and unreadable saved fields are not modelled.
- Device signatures (`internal/deviceauth`) and the reject counters of `handleMessage`; its cases other than `command/ack`.
- The ESP32 firmware, the web interface, dashboards, scripts, environment parsing and logging.
- Audit entries and the event lists of the store and the repository.
- Floating-point error, and integer or duration overflow for enormous horizons or ages.
- The sine in the PV forecast: any function of the minute of the day stands for it; negative values are cut to zero as in the code. The zone offset is fixed over a plan, so no daylight-saving change falls inside one.
- The scheduler's ticker loop: a tick is modelled, its timing is not. A tick works on one snapshot of summary, devices and telemetry, although the code reads the three one after the other; the policy it read does not change during it.
- Any claim that load is never shed while a battery could discharge: a discharge that the cooldown refuses lets the same tick shed, so only the per-tick form is stated.
- The texts of log lines and refusals, and the ids of commands that come in through the API; the command log presumes unique ids, which `SchedulerIssuesOnce` shows for the scheduler's own commands only. That every ack names its command's device is a premise too.
- `updated_at`, `created_at` of devices, `ListCommands` and the reload of the log with `SetCommands`: the reloaded order is not the order of issue.
- Concurrent `PutTelemetry` calls: memory is written under the lock and Redis after it, so two readings of one device can be saved in the other order; the restart theorem is about sequential writes that Redis takes.
- The timing of the ticker loops and the HTTP endpoints of the gateway, and the capture filter by kind.
- The library sorts: here elements are inserted in their place one by one; only that the result is sorted and complete matters.
- The JSON text of a command's parameters is an arbitrary function of the candidate.
