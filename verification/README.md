# Verified model of agent-gpu's state machines

agent-gpu is a server that schedules LLM inference over a fleet of GPU workers and exposes an
OpenAI-compatible API, an admin API and a web console. This project models the parts of it whose
correctness lies in how many calls, threads or restarts fit together, and proves what they
promise over every run, every interleaving or every input.

| component | Dafny files | what is proved about it |
|---|---|---|
| API keys | `Tokens`, `KeyService`, `KeyLog`, `KeyRuns`, `KeyAnswers` | after every run, failed file writes and restarts included, the store is a function of the events in force; a token is accepted iff it is the last one minted for its id, not revoked and not expired; the record and the error each caller gets |
| log ring and live tail | `LogRing`, `LogTail`, `LogFilters` | the circular buffer refines "the newest cap records"; a tail emits exactly what had not scrolled off at the first poll that could see it; exactly what a reconnecting client misses; which records each criterion lets through |
| request statistics | `RequestStats`, `StatsInterleaving`, `StatsSnapshot`, `StatsDisagreement` | every interleaving of lock-free updates ends in the exact fold; retries are bounded; a racing snapshot lies between what had finished and what had begun; exactly when its figures disagree with each other |
| runtime config | `ConfigFields`, `ConfigLive`, `RuntimeConfig`, `ConfigRuns`, `ConfigFigures`, `ConfigForm` | every update is whole or nothing; each live figure is the setting of its own name; a restart restores exactly what was last saved, from any file found at the first boot; exactly what sending the untouched settings screen changes |
| streaming | `SseStream`, `ChatStream`, `ChatClient` | the example client's parser undoes the server's frame writer; what each frame and the ending carry, read off the job's chunks |
| stateful chat | `SessionHistory`, `ChatSession`, `HistoryCosts` | stored history is the stored turns from the last point that had to be cut, whatever the caps were; exactly when it is made of whole turns, whatever the caps became; every prompt is that history and the new messages; the caps count the bytes and words of its texts; tokens are metered once per clean turn |
| idempotency | `Idempotency` | a replay happens iff the log holds a live entry of the same request |
| audit log | `AuditLog` | List is the unique stable newest-first sort; the log is the newest part of what survived, for any run of crashes and caps |
| pagination | `Pagination` | following cursors returns exactly the list; how often each item is delivered, and exactly when nothing is skipped or repeated, if the list changes between any two pages |
| load generator | `Mix`, `MixShares`, `LoadDriver` | concurrent claims are exact; every run honours the mix, iff the weights do not overflow |
| fleet views | `Authz`, `Fleet`, `Catalog`, `GpuInventory` | exact permission-filtered catalog and capacity roll-up, independent of fleet and map order |

`Prelude`, `Arithmetic`, `Text`, `Utf8`, `Decimal` and `Ordering` hold what they share: string splitting
and joining, decimal literals, Go's string order, sorting, sums, division. `Idealisations` shows
that the hypotheses below can be met.

## How the model is built

A component that updates state in place is a class whose methods are proved against functions on
values; runs are folds of those functions over a list of events, and the theorems compare the
state of a run with something read off the events alone. Concurrent code (`StatsInterleaving`,
`StatsSnapshot`, `StatsDisagreement`, `LoadDriver`, `LogTail`) is a state machine with one atomic
operation per step, and its theorems quantify over every sequence of steps.

What lies outside the model enters as a parameter:

- The hash is any function that is injective in the secret for a fixed salt
  (`KeyRuns.InjectivePerSalt`); ids drawn by Create are not in use yet (`KeyRuns.Fresh`). Any
  store call may fail, and a put may fail after it has taken effect, as the file-backed store's does
  (internal/store/file.go:109-114).
- JSON framing is any codec that puts an object on one line and decodes what it encoded
  (`SseStream.Codec.Faithful`). Go durations are any printer and parser that agree on the positive
  durations the parser can yield (`ConfigFields.Durations.Lawful`).
- `Idealisations.IdealHashExists`, `Idealisations.FaithfulCodecExists` and
  `ConfigFields.LawfulDurationsExist` show that these hypotheses can be met.
- A string is the sequence of code points of a UTF-8 text; where Go counts bytes the model counts
  the bytes of the encoding (`Text.ByteLen`, `Utf8.ByteLenIsEncodedLength`).
- Clocks, entropy, transport errors, disconnects and whether a checkpoint could be written are
  fields of the events.
- Boot settings are `ConfigLive.Runnable`: the overflow policy parses and the three durations are
  positive. The server wiring guarantees both (cmd/agentgpu/server.go:210-213 and 334-350,
  internal/config/config.go:375-383 and 568-590). `ConfigForm.Wired` says more of the same wiring:
  every boot value but the log level is one validation would keep.

Go's `range` over a map is modelled as a loop that picks any remaining key, so each such method is
proved for every iteration order.

## Where the code and its comments differ

The model follows the code.

- internal/httpapi/telemetry.go:51-56 calls the buckets non-cumulative; the code stores them
  cumulative, which holds when no call is in flight (`RequestStats.TotalsAreConsistent`) and may
  fail in between (`StatsInterleaving.InFlightBucketsMayDip`), exactly when
  `StatsInterleaving.BucketsDipExactlyWhen` says.
- internal/httpapi/telemetry.go:111-115 calls a racing snapshot eventually consistent. It may show
  a bucket above the count or a mean above the maximum (`StatsDisagreement.RacingSnapshotMayDisagree`);
  `StatsDisagreement.BucketAboveCountExactlyWhen`, `StatsDisagreement.HistogramDipsExactlyWhen` and
  `StatsDisagreement.MeanAboveMaxExactlyWhen` give the exact conditions.
- internal/httpapi/webui_settings.go:12-32 has the console drive config exactly like the API. The
  API accepts the log level `warning`, for which the screen has no option: pressing Apply on the
  untouched screen turns the log to debug (`ConfigForm.UnlistedLevelComesBackAsDebug`,
  `ConfigForm.WarningComesBackAsDebug`). The same holds of a boot level that is not spelled as an option.
- internal/httpapi/webui_settings.go:69-75 says only the fields of the form change. The screen is one
  form that sends every field, so applying one change makes every boot value it shows a persisted
  override (`ConfigForm.ResubmittingPinsBootValues`).
- internal/auth/auth.go:156-158 has Revoke succeed on a key that is revoked already. When the first
  attempt failed in writing the file, the second reports success without writing it, and a restart
  brings the key back (`KeyRuns.RetriedRevocationMayBeLost`).
- internal/httpapi/chat.go:498-500: the id made up for a tool call that has none goes to the client
  only; the stored call keeps no id (`ChatStream.StoredCallsWereSentExactlyWhen`).
- internal/httpapi/admin_logs.go:308-312 says a reconnecting client resumes without losing its
  position. Each connection starts at the current count, so what was appended in between is lost:
  coming back is seamless exactly when none of that matches (`LogTail.SeamlessExactlyWhen`).
- internal/httpapi/admin_logs.go:96-102 says a level of another name ranks below debug and so is never
  filtered out. That rank is used for the floor only; a record of such a level ranks as an error, and
  that is why it is always shown (`LogFilters.UnnamedIsSent`).
- internal/httpapi/admin_config_checkpoint.go:82-84 says an invalid value in an edited file is
  skipped and its boot value stands. The first one drops every override of the file
  (`ConfigRuns.LoadIsAllOrNothing`).
- internal/httpapi/pagination.go:14-20 claims a cursor is stable under inserts and deletes. It is
  an offset: `Pagination.EveryItemOnceExactlyWhen` and, for a single change,
  `Pagination.NoSkipNoRepeatExactlyWhen` give the exact condition and `Pagination.DeletionSkips`
  the failure.
- internal/httpapi/admin_config.go:270-274 says nothing is partially committed because appliers
  are atomic. That is not the reason: with an unparseable policy in force a log-level change would
  stay live after a refusal (`ConfigLive.RefusedPatchIsLiveInPart`,
  `ConfigLive.SomePolicyCommitsPartially`). It holds because such a
  policy cannot come into force (`ConfigRuns.UpdatesAreAtomic`).
- internal/authz/authz.go:95 and the role table at 233-255 say admin ignores the deny-list and
  that the table mirrors the decision ladder. Deny wins even for admin, and a key that is both user
  and read-only loses pull and load; `Authz.TableMirrorsLadder` states that these are the only
  differences.
- internal/session/store.go:65-71: half a turn is never stored under a reject policy that stays in
  force; under the trim policy it can be (`ChatSession.TrimMayKeepHalfATurn`), exactly when
  `ChatSession.HalfATurnExactlyWhen` says, and it outlives a switch to the reject policy
  (`ChatSession.HalfATurnUnderReject`).
- internal/httpapi/models.go:36-38 takes for granted that workers agree on a model's digest; the
  digest shown is independent of fleet order exactly when they do.
- internal/loadtest/mix.go:66-107 adds the weights in an int64; a mix is honoured iff that does not
  overflow (`MixShares.HonouredIffNoOverflow`), and there are mixes that do
  (`MixShares.OverflowingMixParses`).

## Model

| member | source | states |
|---|---|---|
| `Tokens.ParseInvertsFormat` | internal/auth/auth.go:384-399 | a token parses to (id, secret) if and only if it is the token formatted from them, the id is non-empty and underscore-free and the secret is non-empty |
| `KeyService.Service.Put` | internal/store/file.go:109-114 | a put replaces the record under its own id, and still does when it reports that the file could not be written; one that works leaves the whole map on file, one that is refused changes nothing |
| `KeyService.Service.CreateWithPermissions` | internal/auth/auth.go:107-142 | the new store and the one-time token of a create; no change when entropy fails or the store refuses |
| `KeyService.Service.Revoke` | internal/auth/auth.go:159-176 | stamps an unrevoked key, leaves a revoked one and its date alone, reports a missing one |
| `KeyService.Service.SetPermissions` | internal/auth/auth.go:216-232 | replaces the four lists and nothing else |
| `KeyService.Service.SetLimits` | internal/auth/auth.go:244-262 | replaces the limits and nothing else |
| `KeyService.Service.Rotate` | internal/auth/auth.go:268-290 | a new secret and salt for an unrevoked key, a refusal for a revoked one |
| `KeyService.Service.Authenticate` | internal/auth/auth.go:297-336 | one and the same error for every rejected token; on success the use is counted, modulo 2^64, before the key is returned |
| `KeyRuns.StoreMatchesLog` | internal/auth/auth.go:107-336 | after every run with fresh ids, failed writes and restarts included, each stored record is exactly what the events in force say (creation data from its Create, secret and salt from the last mint, grants and limits from their last setter, usage count the number of accepted authentications, revocation date the first one), and the file holds the same for the events in force at the last write |
| `KeyRuns.AcceptedExactlyWhenCurrent` | internal/auth/auth.go:297-336 | over every run, store failures and restarts included, a token is accepted if and only if, by the events in force, it is the token most recently minted for its id, the id was never revoked and is not expired |
| `KeyRuns.RevocationLastsExactlyWhen` | internal/auth/auth.go:159-176 | a revocation stays in the store, with its date, at every moment of any later run of calls and restarts if and only if it is on file at the first of those restarts, or there is none |
| `KeyRuns.RevocationIsPermanent` | internal/auth/auth.go:159-176 | in that case authentication and rotation are refused for ever |
| `KeyRuns.RestartKeepsExactlyWhatIsOnFile` | internal/store/file.go:72-107 | a restart leaves in force exactly the events of the last write: a revocation is given up iff it is not on file |
| `KeyRuns.RetriedRevocationMayBeLost` | internal/auth/auth.go:159-176 | a revocation whose write failed is reported done when retried, without being written, and a restart undoes it |
| `KeyRuns.FailureKeepsOrCompletes` | internal/store/file.go:109-114 | a call that fails leaves the store as it was, unless the file could not be written: then the store is exactly as if the call had worked |
| `KeyRuns.FailedRotationLocksOut` | internal/auth/auth.go:268-290 | after a rotation that failed in writing the file, every token of the id but the undisclosed new one is refused |
| `KeyRuns.IssuedIsAccepted` | internal/auth/auth.go:107-142 | after any run, the token a create or a rotation hands out is accepted next if and only if its key has not expired |
| `KeyRuns.OtherKeysUntouched` | internal/auth/auth.go:107-336 | no call changes the record of an id it does not name |
| `KeyAnswers.AuthenticatedIsCurrentRecord` | internal/auth/auth.go:297-336 | in every run an accepted token gets back the record now stored under its id, every field as the events in force say: grants and limits from their last setters, this use counted and stamped |
| `KeyAnswers.UpdatedIsCurrentRecord` | internal/auth/auth.go:216-262 | a setter gets back the record now stored under its id, with what it set |
| `KeyAnswers.FailsExactlyFor` | internal/auth/auth.go:107-290 | in every run a create, rotation, revocation or setter fails iff there is a cause, and with the error of the first cause: unreadable store, unknown id, revoked key, failed entropy, failed write |
| `KeyAnswers.HexReadsBack` | internal/auth/auth.go:339-365 | each byte of an id or secret can be read back from its two digits, the high one first |
| `KeyAnswers.TokensTellDrawsApart` | internal/auth/auth.go:339-388 | two draws make the same token only if id and secret are the same |
| `KeyAnswers.RotationRetiresOldTokens` | internal/auth/auth.go:268-290 | after a rotation every token of the id with another secret is refused |
| `LogRing.Ring.constructor` | cmd/agentgpu/ringlog.go:47-52 | a ring with nothing appended; a capacity of zero or less disables it |
| `LogRing.Ring.Append` | cmd/agentgpu/ringlog.go:55-67 | the history grows by the record and the buffer still holds its newest part in two laps around the write index |
| `LogRing.Ring.SnapshotCount` | cmd/agentgpu/ringlog.go:88-95 | the newest min(count, cap) records ever appended, oldest first, with the count, modulo 2^64, that belongs to them |
| `LogRing.Ring.Snapshot` | cmd/agentgpu/ringlog.go:71-78 | the same records without the count |
| `LogRing.Ring.SnapshotLocked` | cmd/agentgpu/ringlog.go:98-110 | unrolling the ring from the write index gives the newest records in order |
| `LogRing.Ring.Len` | cmd/agentgpu/ringlog.go:113-123 | the number of records a snapshot would hold |
| `LogRing.Ring.Count` | cmd/agentgpu/ringlog.go:133-140 | the number of records ever appended, modulo 2^64 |
| `LogRing.Ring.IndexFromCount` | cmd/agentgpu/ringlog.go:36-67 | the write index is the number of records modulo the capacity and the ring is full iff that number has reached it, however often the counter has wrapped |
| `LogTail.Connection.constructor` | internal/httpapi/admin_logs.go:340-341 | a connection starts at the ring's current count |
| `LogTail.Connection.EmitNewLogs` | internal/httpapi/admin_logs.go:377-393 | until the counter wraps, one poll sends the matching records that are new since the cursor and still buffered, and moves the cursor to the count of the same snapshot; a poll that finds a lower count sends nothing |
| `LogTail.TailIsExact` | internal/httpapi/admin_logs.go:340-393 | for every interleaving of appends and polls the stream is exactly the matching records at or after its start that had not scrolled off at the first poll that could see them, in order, each once |
| `LogTail.NothingLostWhenKeepingUp` | internal/httpapi/admin_logs.go:340-393 | while every gap fits the ring, the stream is the filtered log from its start to its cursor |
| `LogTail.ReconnectDelivers` | internal/httpapi/admin_logs.go:308-312 | two connections one after the other have delivered what the first could up to its cursor and what the second could from its start on, and nothing in between |
| `LogTail.SeamlessExactlyWhen` | internal/httpapi/admin_logs.go:308-312 | when both keep up they miss exactly the matching records between the first one's cursor and the second one's start; the stream is without a gap iff there are none |
| `LogFilters.StreamTwice` | internal/httpapi/admin_logs.go:191-210 | over every interleaving, a stream with one criterion more is the stream without it, filtered by that criterion |
| `LogFilters.SentExactlyAtOrAbove` | internal/httpapi/admin_logs.go:103-147 | with a floor named by a level, a record of a named level, in any case and with or without an offset, is sent iff its level is at or above the floor in the order debug, info, warn, error |
| `LogFilters.AnyCaseSpells` | internal/httpapi/admin_logs.go:103-147 | a level's name in any mixture of cases, with white space around it, names it |
| `LogFilters.UnnamedIsSent` | internal/httpapi/admin_logs.go:119-147 | a record whose level has no such name is sent under every floor |
| `LogFilters.DefaultFloorIsWarn` | internal/httpapi/admin_logs.go:157-167 | a request that names no level gets warnings and errors |
| `LogFilters.FloorSelects` | internal/httpapi/admin_logs.go:191-194 | raising the floor takes away exactly the records below it, so lowering it only adds |
| `LogFilters.AttributeSelects` | internal/httpapi/admin_logs.go:195-200 | an attribute criterion selects exactly the records with that value of it |
| `LogFilters.SinceSelects` | internal/httpapi/admin_logs.go:201-203 | a lower bound selects the records from that instant on |
| `LogFilters.UntilSelects` | internal/httpapi/admin_logs.go:204-206 | an upper bound selects the records strictly before it |
| `LogFilters.WindowSplits` | internal/httpapi/admin_logs.go:201-206 | a stream over [s,u) splits at m into the records before m and those from m on |
| `RequestStats.Stats.Record` | internal/httpapi/telemetry.go:80-109 | one more latency is folded into count, sum, maximum and every bucket, and nothing else changes |
| `RequestStats.Stats.CompareAndSwapMax` | internal/httpapi/telemetry.go:92-100 | swaps exactly when the maximum is the one that was loaded |
| `RequestStats.Stats.Snapshot` | internal/httpapi/telemetry.go:116-136 | with no call in flight, what is published is the fold over all recorded latencies, with the integer mean and the count as last bucket |
| `RequestStats.MaxIsAttained` | internal/httpapi/telemetry.go:92-100 | the folded maximum is an upper bound and is zero or one of the latencies |
| `RequestStats.TotalsAreConsistent` | internal/httpapi/telemetry.go:111-136 | the published buckets never decrease, none exceeds the count, and the mean never exceeds the maximum |
| `StatsInterleaving.QuiescentIsExact` | internal/httpapi/telemetry.go:80-109 | whatever the interleaving of concurrent calls, once none is in flight every counter is the exact fold over all latencies |
| `StatsInterleaving.LatenciesAreDurations` | internal/httpapi/telemetry.go:80-85 | the latencies are the durations of the requests begun, each in whole milliseconds, a negative one as zero |
| `StatsInterleaving.BucketsCountDurations` | internal/httpapi/telemetry.go:74-109 | once no call is in flight the buckets count the requests of up to 10, 100, 1000 and 10000 whole milliseconds |
| `StatsInterleaving.MaxIsSound` | internal/httpapi/telemetry.go:92-100 | in every reachable state the maximum is zero or a recorded latency, and no step lowers it |
| `StatsInterleaving.BucketsBelowCount` | internal/httpapi/telemetry.go:80-109 | in every reachable state no bucket exceeds the count |
| `StatsInterleaving.FailedSwapMeansProgress` | internal/httpapi/telemetry.go:92-100 | a swap fails if and only if another call has strictly raised the maximum since the load |
| `StatsInterleaving.RetriesBounded` | internal/httpapi/telemetry.go:92-100 | a call among n retries fewer than n times |
| `StatsInterleaving.BucketsDipExactlyWhen` | internal/httpapi/telemetry.go:102-108 | in every reachable state a smaller bucket exceeds a larger one iff the requests within the smaller bound that stand between the two in their bucket loop outnumber the requests within the larger bound only that have passed it |
| `StatsInterleaving.InFlightBucketsMayDip` | internal/httpapi/telemetry.go:51-56 | it happens: a run with a smaller bucket above a larger one |
| `StatsSnapshot.SnapshotIsBetween` | internal/httpapi/telemetry.go:116-136 | whatever races with it, every figure of a snapshot lies between the exact figure for the requests that had returned when it began and that for the requests begun when it ended |
| `StatsDisagreement.BucketAboveCountExactlyWhen` | internal/httpapi/telemetry.go:116-136 | a published bucket exceeds the published count iff the requests in it that were not counted when the count was loaded outnumber those counted by then that are missing from it; the difference is exactly that of the two numbers |
| `StatsDisagreement.BucketExcessIsLateRequests` | internal/httpapi/telemetry.go:116-136 | so it exceeds the count by no more than the late requests in it, and these are no more than the requests counted after the count was loaded |
| `StatsDisagreement.HistogramDipsExactlyWhen` | internal/httpapi/telemetry.go:116-136 | a published bucket exceeds a larger one iff the requests in it at its load and not in the larger at that one's load outnumber those the other way round |
| `StatsDisagreement.MeanAboveMaxExactlyWhen` | internal/httpapi/telemetry.go:116-136 | the published mean exceeds the published maximum iff something was counted and what the summed requests bring above one more than the maximum each makes up for what the counted ones fall short of it |
| `StatsDisagreement.AboveIsUnsettled` | internal/httpapi/telemetry.go:116-136 | a request that brings more than it may was counted too late for the count, or had not passed its maximum loop when the maximum was loaded |
| `StatsDisagreement.SettledMeanBelowMax` | internal/httpapi/telemetry.go:116-136 | so when no summed request is of either kind the mean does not exceed the maximum |
| `StatsDisagreement.RacingSnapshotMayDisagree` | internal/httpapi/telemetry.go:111-136 | it happens: a bucket above the count, and a mean above the maximum, are published |
| `ConfigFields.ClassifyName` | internal/httpapi/admin_config.go:456-468 | each field's key is recognised as that field and as no read-only key |
| `ConfigFields.ReadOnlyKeys` | internal/httpapi/admin_config.go:111-119 | exactly the seven boot-only keys are refused as read-only |
| `ConfigFields.DecodedIsFixedPoint` | internal/httpapi/admin_config.go:475-644 | every value validation accepts is saved and decoded again to itself |
| `ConfigFields.LawfulDurationsExist` | internal/httpapi/admin_config.go:634-644 | there is a duration printer and parser with the property assumed of Go's |
| `ConfigLive.StaysRunnable` | cmd/agentgpu/config_wiring.go:26-58 | a validated patch leaves a policy that parses and positive durations in force |
| `ConfigLive.ValidatedPatchApplies` | internal/httpapi/admin_config.go:307-346 | no applier can fail on a validated patch while the policy in force parses, and the subsystems then run exactly the new settings |
| `ConfigLive.ApplyFailsExactlyWhen` | internal/httpapi/admin_config.go:307-346 | a validated patch fails if and only if it touches the session caps, leaves the policy alone, and the policy in force does not parse |
| `ConfigLive.RefusedPatchIsLiveInPart` | internal/httpapi/admin_config.go:270-274 | in that case exactly the log level, quotas and session lifetime of the refused patch are live, so it is committed in part iff it changes one of them |
| `ConfigLive.SomePolicyCommitsPartially` | internal/httpapi/admin_config.go:270-274 | it happens: from any settings there is a policy (bogus) under which a patch of the log level and a cap is refused with its log level live |
| `RuntimeConfig.ApplyConfigPatch` | internal/httpapi/admin_config.go:475-594 | succeeds iff every present field is acceptable, then changes exactly the present fields to their decoded values, else names the first offending field in key order |
| `RuntimeConfig.SettingsFormToPatch` | internal/httpapi/webui_settings.go:160-194 | in whatever order the form is read, the patch is its non-blank tunable entries, numbers as number literals; a read-only key or a non-integer refuses the form |
| `RuntimeConfig.Holder.PushLive` | internal/httpapi/admin_config.go:307-346 | the appliers run in order and stop at the first refusal, each checking before it changes anything |
| `RuntimeConfig.Holder.Apply` | internal/httpapi/admin_config.go:307-346 | settings and persisted keys are committed only if every applier worked |
| `RuntimeConfig.Holder.WriteCheckpoint` | internal/httpapi/admin_config_checkpoint.go:33-76 | the file is the current value of every key ever changed, or the old file |
| `RuntimeConfig.Holder.PutConfig` | internal/httpapi/admin_config.go:201-298 | the whole PUT transaction as one state change |
| `RuntimeConfig.Holder.PutConfigForm` | internal/httpapi/webui_settings.go:76-144 | the console's transaction as one state change |
| `RuntimeConfig.Holder.LoadConfigCheckpoint` | internal/httpapi/admin_config_checkpoint.go:89-142 | a reload applies the tunable entries of the file as one patch, or nothing |
| `ConfigRuns.MachineAgreesWithBooks` | internal/httpapi/admin_config.go:201-346 | from any boot values and any file found, after every run of updates, checkpoint failures and restarts the settings are the boot values overlaid with the overrides an operator would have written down, the subsystems run exactly them, and the file is the one found or holds exactly the overrides of the last checkpoint that worked |
| `ConfigRuns.RestartRestoresCheckpoint` | internal/httpapi/admin_config_checkpoint.go:89-142 | after any run, a restart with arbitrary new boot values gives each setting its last checkpointed value or the new boot value, with the saved keys still marked for saving |
| `ConfigRuns.UpdatesAreAtomic` | internal/httpapi/admin_config.go:201-298 | in every reachable state an update through either front end changes nothing, or exactly the present fields with the subsystems running the result, and is accepted iff every present field is acceptable |
| `ConfigRuns.LoadIsAllOrNothing` | internal/httpapi/admin_config_checkpoint.go:89-142 | one bad entry in an edited file drops every override from settings, persisted keys and subsystems alike, foreign keys drop none, and otherwise all of them take effect |
| `ConfigFigures.FiguresFollowSettings` | cmd/agentgpu/config_wiring.go:26-58 | over every run each live figure (quotas, caps, per-key limit, policy, durations, level) is the value of the setting of its own name |
| `ConfigFigures.SettingsStayTyped` | internal/httpapi/admin_config.go:475-594 | numbers stay numbers and texts stay texts |
| `ConfigFigures.OtherFiguresStay` | internal/httpapi/admin_config.go:307-346 | in every reachable state a PUT leaves the live figure of every field it does not name alone |
| `ConfigFigures.NumberReachesItsFigure` | internal/httpapi/admin_config.go:307-346 | a number put under the key of a quota or a session limit is accepted and becomes the live figure of that name |
| `ConfigFigures.NumbersTakenExactlyWhen` | internal/httpapi/admin_config.go:606-632 | a number field takes null as zero and exactly the decimal literals of its range, uint64 for the quotas and int for the session limits, which also take -0 |
| `ConfigFigures.TextsTakenExactlyWhen` | internal/httpapi/admin_config.go:634-658 | a level or policy is taken by its normalised name iff it is one of the known ones, a duration iff it is positive |
| `ConfigFigures.FormIsTheSamePut` | internal/httpapi/webui_settings.go:160-194 | a form of filled-in settings does what the API does with the same values |
| `ConfigFigures.IgnoredEntry` | internal/httpapi/webui_settings.go:160-194 | a blank entry, or one that names no setting, is as if it were not there |
| `ConfigFigures.RefusedEntry` | internal/httpapi/webui_settings.go:160-194 | a read-only key, or a number that is not all digits, refuses the form whole |
| `ConfigForm.ResubmittedForm` | internal/httpapi/webui_settings.go:76-144 | in every reachable state, sending the untouched screen is refused as a whole iff a shown value is, and otherwise sets every field it sends to what it showed and marks it persisted |
| `ConfigForm.ResubmittingChangesNothingExactlyWhen` | internal/httpapi/webui/settings.templ:64-125 | an accepted form leaves the settings as they are iff the log level is one of the options and every value still from boot is one validation would keep; it persists nothing new iff every field it sends was changed before |
| `ConfigForm.ResubmittedOnWiredServer` | internal/httpapi/webui_settings_data.go:23-92 | with boot values as the server wires them the untouched screen is always accepted; the settings change iff the log level is not spelled as an option, the subsystems iff that level does not mean debug either |
| `ConfigForm.UnlistedLevelComesBackAsDebug` | internal/httpapi/webui_settings_data.go:36-43 | after any run, once a level without an option was set through the API, sending the untouched screen turns the log to debug |
| `ConfigForm.WarningIsUnlisted` | internal/httpapi/admin_config.go:651-658 | warning is such a level |
| `ConfigForm.WarningComesBackAsDebug` | internal/httpapi/webui_settings_data.go:36-43 | so a log set to warning runs at warn, and at debug once the untouched screen was sent |
| `ConfigForm.ResubmittingPinsBootValues` | internal/httpapi/webui/settings.templ:64-88 | once the untouched screen was sent and saved, a restart with other boot values keeps every value it sent |
| `ConfigForm.WiredValuesExist` | cmd/agentgpu/server.go:334-350 | there are boot values as the wiring makes them |
| `SseStream.Writer.WriteData` | internal/httpapi/sse.go:39-48 | one frame appends one data line and a blank line |
| `SseStream.Writer.WriteDone` | internal/httpapi/sse.go:65-68 | the terminator frame is appended |
| `SseStream.ParseSSE` | examples/go-client/client.go:338-386 | the line loop computes the recursive reading of the stream, with its early ends |
| `SseStream.ParseInvertsWire` | examples/go-client/client.go:338-386 | parsing what the server wrote shows the client exactly the frames, up to the first error or the first line too long for its buffer |
| `ChatStream.ForwardChunks` | internal/httpapi/chat.go:354-392 | the chunk loop writes one frame per chunk before the first error and the error's envelope, and keeps text, tool calls and usage of exactly those |
| `ChatStream.StreamChat` | internal/httpapi/chat.go:312-417 | the response is those frames and the terminator; metering needs a terminal chunk and no error, storing needs besides that the client is there |
| `ChatStream.ClientSeesTheStream` | internal/httpapi/chat.go:354-394 | for every chunk sequence the client ends up with exactly the non-empty deltas before the first error and an API error with its code iff there was one; this holds iff every frame fits the client's line buffer |
| `ChatStream.StoredReplyWasSent` | internal/httpapi/chat.go:354-416 | the reply kept for the history is the concatenation of the deltas the client parsed, stored only after a clean end |
| `ChatStream.FromDomainToolCalls` | internal/httpapi/chat.go:501-525 | every tool call goes out as it came, with an id and a type made up where there was none |
| `ChatStream.StoredCallsWereSentExactlyWhen` | internal/httpapi/chat.go:354-416 | the tool calls kept for the history are those the client was sent iff each came with an id and a type |
| `ChatClient.ClientGetsTheWorkersCode` | internal/httpapi/response.go:100-110 | when all frames fit, the client ends with an API error iff some chunk failed; it then has the first failed chunk's code, or internal_error if that is empty, and the type server_error |
| `ChatClient.MessagesStayInside` | internal/httpapi/response.go:91-110 | two streams that differ only in the workers' error messages are the same bytes on the wire |
| `ChatClient.OneFrameAChunk` | internal/httpapi/chat.go:354-392 | each chunk before the first failure goes out as one frame with its content and tool calls, the role on the first only, the finish reason on a terminal one only |
| `ChatClient.NoFrameAfterAFailure` | internal/httpapi/chat.go:354-392 | the first failed chunk gives the last frame, and nothing after it goes out |
| `ChatClient.MeteredByLastTerminal` | internal/httpapi/chat.go:396-416 | a stream without a failure is metered by its last terminal chunk, and not at all without one or with a failure |
| `ChatClient.OtherLinesAreSkipped` | examples/go-client/client.go:338-386 | the client passes over any line that is not data |
| `ChatClient.CarriageReturnsAreDropped` | examples/go-client/client.go:338-386 | a carriage return before a newline makes no difference to it |
| `ChatClient.LastNewlineIsOptional` | examples/go-client/client.go:338-386 | nor does a missing newline at the end |
| `ChatClient.LongestLine` | examples/go-client/client.go:338-386 | a line of up to 1048575 bytes is read, a longer one ends the stream |
| `ChatClient.FirstChoiceIsRead` | examples/go-client/client.go:338-386 | of several choices in a chunk the client reads the first |
| `Idealisations.LongDeltaBreaksOff` | examples/go-client/client.go:338-386 | with a concrete codec, a delta of a megabyte does not fit the line buffer and breaks the parse off |
| `SessionHistory.HistoryStore.AppendBatch` | internal/session/store.go:334-346 | all turns or none under the reject policy, the longest fitting suffix under the trim policy |
| `SessionHistory.HistoryStore.WouldReject` | internal/session/store.go:351-361 | answers exactly whether the append would be refused |
| `SessionHistory.HistoryStore.SetCaps` | internal/session/store.go:292-299 | the caps are replaced and what is stored is not touched |
| `SessionHistory.HistoryStore.TrimTurns` | internal/session/store.go:396-430 | the three trimming passes together keep exactly the longest suffix within all caps |
| `SessionHistory.LongestFitIsLongest` | internal/session/store.go:396-430 | what is kept is a suffix that fits or a single turn, and every longer suffix is over a cap |
| `SessionHistory.FitAbsorbs` | internal/session/store.go:396-430 | trimming early never changes what trimming late keeps |
| `SessionHistory.CutOfSuffix` | internal/session/store.go:396-430 | trimming a history that has already lost its oldest turns keeps what trimming the whole would, less those |
| `SessionHistory.BatchIsOneByOne` | internal/session/store.go:65-71 | under the trim policy a batch equals appending its turns one at a time |
| `HistoryCosts.BytesAreTheText` | internal/session/store.go:113-119 | the byte cost of a history is the length of one text that joins role, content, tool-call id and name of every message and the four texts of every tool call |
| `Utf8.ByteLenIsEncodedLength` | internal/session/store.go:113-119 | the length counted is the number of bytes of the UTF-8 encoding |
| `HistoryCosts.FieldsCountWords` | internal/session/store.go:128-134 | a text of n words, with any white space between, before and after them, counts n |
| `HistoryCosts.EveryTextIsSpaced` | internal/session/store.go:128-134 | every text is of that form |
| `Text.AsciiSpaces` | internal/session/store.go:128-134 | the ASCII white space that separates words is tab, line feed, vertical tab, form feed, carriage return and blank |
| `HistoryCosts.TokensAreTheWords` | internal/session/store.go:128-134 | the token cost of a history is the number of words in the contents, the names and the names and arguments of the tool calls |
| `HistoryCosts.OverMeans` | internal/session/store.go:367-391 | a history is over the caps iff its messages, the bytes of its texts or its words exceed a positive cap |
| `HistoryCosts.RefusedExactlyWhenBeyond` | internal/session/store.go:351-361 | under the reject policy messages are refused iff with them the texts of the history exceed a cap |
| `ChatSession.Handler.HandleTurn` | internal/httpapi/chat.go:219-268 | one stateful request, with caps that may change while it runs: the prompt is stored history plus new messages, and the turn is stored only after a clean inference |
| `ChatSession.HistoryIsUncutTurns` | internal/httpapi/chat.go:297-303 | over every run of requests and cap changes the history is the stored turns put together, from the latest point at which storing one of them had to cut; an unfinished or refused turn leaves no trace |
| `ChatSession.TrimmedHistory` | internal/httpapi/chat.go:297-303 | while the caps stay the same, under the trim policy, it is the longest fitting suffix of all finished turns put together |
| `ChatSession.RejectingHistory` | internal/httpapi/chat.go:239-243 | while the caps stay the same, under the reject policy, it is all stored turns, whole, and never over a cap |
| `ChatSession.WholeTurnsExactlyWhen` | internal/session/store.go:396-430 | in every run, whatever the caps were and became, the history is the stored turns from the k-th on, whole, iff each of these was stored without cutting into turn k and, unless k is the first, one of them under caps that the last message before turn k would exceed |
| `ChatSession.HalfATurnExactlyWhen` | internal/session/store.go:65-71 | in every run half a turn is kept iff that holds of no turn |
| `ChatSession.TrimmedTurnsExactlyWhen` | internal/session/store.go:396-430 | under a trim policy that stays in force the history is the finished turns from the k-th on, whole, iff they fit, or are a single message, and with the last message of the turn before they would not |
| `ChatSession.TrimmedHalfATurnExactlyWhen` | internal/session/store.go:65-71 | half a turn is then kept iff no turn boundary is such a point |
| `ChatSession.TrimMayKeepHalfATurn` | internal/session/store.go:396-430 | with room for one message the trim policy keeps a reply without its question |
| `ChatSession.StoredWithinCaps` | internal/session/store.go:334-346 | right after a turn is stored the history is within the caps in force, or a single message under the trim policy |
| `HistoryCosts.StoredTextWithinCaps` | internal/session/store.go:334-346 | right after a turn is stored the texts of the history are within every cap, and the contents within a positive byte cap, or it is a single message |
| `HistoryCosts.StoredTurnIsTheExchange` | internal/httpapi/chat.go:297-303 | a stored turn is the client's messages and one of the assistant's with the reply and its tool calls |
| `HistoryCosts.StoredReplyIsWhatTheClientRead` | internal/httpapi/chat.go:354-416 | what was streamed and stored is the concatenation of the deltas the client read |
| `ChatSession.OverAfterNewCaps` | internal/session/store.go:285-299 | a change of caps leaves the history alone, so it is over the new caps iff the turns kept so far are |
| `ChatSession.HalfATurnUnderReject` | internal/session/store.go:285-299 | and half a turn that the trim policy kept is still the history after any switch to the reject policy |
| `ChatSession.TightenedCapIsExceeded` | internal/session/store.go:237-242 | after a cap is tightened the history can exceed it, under the reject policy too |
| `ChatSession.PromptsAreKeptTurns` | internal/httpapi/chat.go:234-242 | over every run each dispatched prompt is the history kept by then, read off the stored turns, followed by the messages of its request |
| `ChatSession.MeteredExactlyOnce` | internal/httpapi/chat.go:396-416 | over every run the metered usages are those of the dispatched turns that ended cleanly, once each and in order, stored or not |
| `Idempotency.Cache.Get` | internal/httpapi/idempotency.go:87-99 | returns an unexpired entry, and evicts an expired one on access |
| `Idempotency.Cache.Put` | internal/httpapi/idempotency.go:104-120 | at the cap sweeps expired entries, and everything if that is not enough, then stores |
| `Idempotency.CapHoldsInEveryRun` | internal/httpapi/idempotency.go:104-120 | in every run the cache stays within a positive cap |
| `Idempotency.UnexpiredLostExactlyWhenFull` | internal/httpapi/idempotency.go:104-120 | an unexpired entry of another key disappears iff a put finds max unexpired entries |
| `Idempotency.LivePutOutExactlyWhenFull` | internal/httpapi/idempotency.go:104-120 | in every run a stored answer takes an unexpired entry of another key with it iff by the log at least max keys have an unexpired entry |
| `Idempotency.CompositeKeyInjective` | internal/httpapi/idempotency.go:189-193 | the joined key tells actor, method, path and header apart for any path when the other three are NUL-free |
| `Idempotency.Idempotent` | internal/httpapi/idempotency.go:166-219 | one request through the middleware: replayed, passed through, or run and stored if it answered 2xx |
| `Idempotency.ReplayedExactlyWhenHeld` | internal/httpapi/idempotency.go:166-219 | in every run with a non-decreasing clock the handler is skipped iff the log holds an entry for the key less than one lifetime old, that no later put with max unexpired entries in the log has emptied, and the reply is then that entry's |
| `Idempotency.RetryIsReplayedExactlyWhen` | internal/httpapi/idempotency.go:166-219 | a request made again, after others that leave nothing behind, is replayed iff it has an actor and a header of 1 to 255 bytes, its answer was a 2xx, and less than one lifetime has passed |
| `Idempotency.HeldComesFromSameRequest` | internal/httpapi/idempotency.go:166-219 | a held entry is the 2xx answer of an executed request with the same actor, method, path and header |
| `AuditLog.MemoryStore.Append` | internal/audit/audit.go:190-208 | the entry, stamped if it had no time, joins a window of the newest max |
| `AuditLog.MemoryStore.List` | internal/audit/audit.go:214-233 | the stable newest-first sort of exactly the matching entries; a limit gives a prefix |
| `AuditLog.MemoryStore.Checkpoint` | internal/audit/checkpoint.go:25-35 | the snapshot is every entry in order |
| `AuditLog.MemoryStore.LoadCheckpoint` | internal/audit/checkpoint.go:74-97 | the newest max entries of the file, or no change without one |
| `AuditLog.NewestFirstIsStableSort` | internal/audit/audit.go:214-233 | the sort is a permutation, descending, and keeps the order within each instant |
| `AuditLog.StableSortIsUnique` | internal/audit/audit.go:214-233 | no other sequence has those properties |
| `AuditLog.WindowsConcatenate` | internal/audit/audit.go:143-160 | a query over [s,u) is the query over [m,u) followed by the query over [s,m) |
| `AuditLog.CriterionSelects` | internal/audit/audit.go:143-160 | naming an actor, an operation or a target selects exactly the entries with that text in that field, in the same order |
| `AuditLog.NoCriterionListsAll` | internal/audit/audit.go:143-160 | a query without criteria lists everything |
| `AuditLog.LogIsNewestOfSurvivors` | internal/audit/checkpoint.go:74-97 | after every run of records, checkpoints, crashes and restarts under any caps the log is the newest part of what survived, of a size that depends on caps and counts alone |
| `AuditLog.FullWindowExactlyWhen` | internal/audit/checkpoint.go:74-97 | it is the newest max of everything that survived iff the tally of kept entries is at the cap |
| `AuditLog.LogIsWindowOfSurvivors` | internal/audit/checkpoint.go:74-97 | which is always so when no restart loosens the cap |
| `AuditLog.LooserCapRestoresNothing` | internal/audit/checkpoint.go:74-97 | and fails after a restart with a looser cap |
| `Pagination.CursorRoundTrip` | internal/httpapi/pagination.go:66-86 | decoding an encoded offset gives it back, through decimal digits and unpadded base64url (section 5 of RFC 4648) |
| `Pagination.Unbase64Base64` | internal/httpapi/pagination.go:66-86 | base64url decoding undoes encoding for every byte sequence |
| `Pagination.SymbolsInOrder` | internal/httpapi/pagination.go:66-86 | the alphabet is that of table 2 of RFC 4648 |
| `Pagination.PageParams` | internal/httpapi/pagination.go:50-86 | a limit from 1 to 200 is the page size, a larger one gives 200, any other text 50; a cursor that is not the encoded text of an offset starts at the first item |
| `Decimal.AtoiTakesExactly` | internal/httpapi/pagination.go:50-86 | a number in a query is digits, alone or after one sign, that fit an int64 |
| `Pagination.PageAt` | internal/httpapi/pagination.go:92-110 | a page starts at its cursor, is full unless it is the last, and its next cursor points right behind it |
| `Pagination.ListAll` | internal/apiclient/client.go:592-610 | whatever the list is at each request, the loop returns the n-th stretch of the n-th list for each n, put together, up to the first list that ends there, or fails at the first request that does |
| `Pagination.FixedListIsRead` | internal/apiclient/client.go:592-610 | a list that does not change is returned exactly, in pages that are all full but the last, after no more requests than it has stretches |
| `Pagination.DeliveredAcrossVersions` | internal/httpapi/pagination.go:14-20 | with a list that changes between any two pages, an item that stays in it is delivered once, plus once for each time it falls back behind the cursor, minus once for each time it gets before it |
| `Pagination.EveryItemOnceExactlyWhen` | internal/httpapi/pagination.go:14-20 | so nothing that stays is skipped or repeated iff every such item crosses the cursor as often one way as the other |
| `Pagination.FollowIsRest` | internal/httpapi/pagination.go:92-110 | following cursors from any offset brings exactly the rest of the list, and nothing from beyond its end |
| `Pagination.DeliveredTimes` | internal/httpapi/pagination.go:14-20 | how often an item of both lists is delivered to a client that reads on after the list changed |
| `Pagination.NoSkipNoRepeatExactlyWhen` | internal/httpapi/pagination.go:14-20 | every item of both lists is delivered exactly once iff the same surviving items lie before the cursor in the old list and in the new one |
| `Pagination.StableExactlyWhenPrefixUnchanged` | internal/httpapi/pagination.go:14-20 | the client ends up with the new list itself iff nothing before its cursor changed |
| `Pagination.DeletionSkips` | internal/httpapi/pagination.go:14-20 | deleting an item already read makes the reader miss one |
| `Mix.ParseMix` | internal/loadtest/mix.go:66-107 | the loop computes the recursive parse, with the first error it meets |
| `Mix.ParsedIsWellFormed` | internal/loadtest/mix.go:66-107 | an accepted mix is non-empty, sorted, of known distinct endpoints with positive weights and their int64 total |
| `Mix.ParseInvertsString` | internal/loadtest/mix.go:150-156 | printing a mix and parsing the text gives the mix back |
| `Mix.PaddedPart` | internal/loadtest/mix.go:66-107 | an element with white space anywhere around its name and number means that pair, or the first of unknown name, repeated name, number not positive that applies |
| `Mix.PartWithoutEquals` | internal/loadtest/mix.go:66-107 | a blank element is passed over, one without an equals sign is an error |
| `Mix.PartWithoutNumber` | internal/loadtest/mix.go:66-107 | a weight that is no integer is an error of its own |
| `MixShares.PickEndpoint` | internal/loadtest/mix.go:116-137 | for every parsed mix the cumulative walk, in int64 arithmetic, finds the entry whose weight window holds the slot |
| `MixShares.SlotIsModulo` | internal/loadtest/mix.go:116-137 | the slot of an index is the index modulo the total, below zero too |
| `MixShares.AnyRoundIsExact` | internal/loadtest/mix.go:116-137 | any total consecutive indices, from wherever they start, select each endpoint exactly its weight times |
| `MixShares.ShareIsBounded` | internal/loadtest/mix.go:116-137 | of any n consecutive indices an endpoint gets its weight per whole round and at most its weight of the rest |
| `MixShares.OverflowPicksFirst` | internal/loadtest/mix.go:66-137 | when the weights overflow an int64 every index selects the first endpoint |
| `MixShares.HonouredIffNoOverflow` | internal/loadtest/mix.go:66-137 | a parsed mix is honoured if and only if its weights do not overflow |
| `MixShares.OverflowingMixParses` | internal/loadtest/mix.go:66-137 | there is a text that parses to a mix of which every index selects chat, though models has a weight too |
| `LoadDriver.Counter.ClaimNext` | internal/loadtest/driver.go:216-226 | the critical section hands out the next index and counts it, or refuses once the budget is spent |
| `LoadDriver.ClaimsAreExact` | internal/loadtest/driver.go:191-251 | for every interleaving the claimed indices are 0, 1, 2, ... without gap or repeat, within the budget, and each is in exactly one place: in flight, recorded or discarded; nothing is discarded unless the run was cancelled |
| `LoadDriver.FinishedRunIsComplete` | internal/loadtest/driver.go:191-251 | a finished run that nothing cancelled has issued the whole budget and recorded each request exactly once |
| `LoadDriver.RunsAreBounded` | internal/loadtest/driver.go:191-251 | with a budget every interleaving is over after at most four steps a request and two a worker |
| `LoadDriver.EveryRunHonoursTheMix` | internal/loadtest/driver.go:185-191 | at every moment of every interleaving each endpoint has its share of the requests issued, whichever worker issued them |
| `Authz.Decide` | internal/authz/authz.go:332-362 | a decision names a role iff one decided, and then one the key has; a grant is by admin, or on an allow-listed model by user, or by read-only if the key is not user; each reason is given only where it applies |
| `Authz.TableMirrorsLadder` | internal/authz/authz.go:226-255 | the published role table agrees with the decision ladder except in two situations, where it grants what the ladder denies |
| `Authz.ScopesMirrorTable` | internal/authz/authz.go:182-187 | an admin scope is held iff it is listed or a role of the key holds every scope by the table |
| `Catalog.Catalog` | internal/httpapi/models.go:35-79 | the result is strictly sorted, names exactly the models on some Online worker that the key may infer on, and lists for each exactly its Online workers, sorted, with the first digest reported |
| `Catalog.AddWorker` | internal/httpapi/models.go:49-59 | one worker's models join the aggregate under their names, keeping the first non-empty digest |
| `Catalog.CatalogIsUnique` | internal/httpapi/models.go:29-34 | a fleet and a key have exactly one catalog, so Go's map order cannot be seen |
| `Catalog.OrderDoesNotMatter` | internal/httpapi/models.go:29-34 | fleets with the same workers in any order have the same names and worker lists |
| `Catalog.WideningAddsEntries` | internal/httpapi/models.go:62-69 | widening a key's lists only adds entries and leaves the others as they were |
| `Catalog.DigestIsStableExactlyWhenReportsAgree` | internal/httpapi/models.go:36-38 | a model's digest is the same under every order of the fleet iff the workers that report one agree |
| `Catalog.ShownDigestIsFirstReported` | internal/httpapi/models.go:49-59 | the digest shown is that of the first model of the name, in fleet order, that reports one, and empty if none does |
| `GpuInventory.AggregateGpus` | internal/httpapi/admin_gpu.go:96-162 | the roll-up holds the uint64 sums and the true maximum, the rows are one per type, sorted, with that type's sums, and the cells are the workers, strictly sorted when ids are distinct |
| `GpuInventory.CellsShowWorkers` | internal/httpapi/admin_gpu.go:96-162 | every worker has a cell with its own figures, and every cell is a worker's |
| `GpuInventory.RowsAddUpToFleet` | internal/httpapi/admin_gpu.go:96-162 | the by-type rows add up to the roll-up: worker counts exactly, VRAM as uint64 sums |
| `GpuInventory.MeanBelowMax` | internal/httpapi/admin_gpu.go:135-139 | the mean load never exceeds the maximum, even if the sum wraps, and is the true integer mean for up to 2^32 workers |
| `GpuInventory.InventoryIgnoresOrder` | internal/httpapi/admin_gpu.go:73-82 | for distinct ids the whole response is the same for every order of the snapshot and of the map |
| `Idealisations.IdealHashExists` | internal/auth/auth.go:376-381 | there is a hash with the property assumed of the salted one |
| `Idealisations.FaithfulCodecExists` | internal/httpapi/sse.go:39-48 | there is a codec with the properties assumed of JSON framing |

## Left out

- HTTP routing, login, cookies, CSRF, templates and rendering: user interface and I/O.
- The scheduler, job queue, quota engine, usage accounting, worker protocol and session manager are not modelled; a session's existence, ownership and expiry are flags of a turn.
- GPU vendor probes, CLI commands, flag and environment resolvers, Prometheus collectors and report rendering: they would only add easy members.
- The open-loop driver, latencies, token counts and percentiles of the load generator.
- JSON text, SHA-256, entropy and duration formatting themselves: see the hypotheses above.
- Texts that are not valid UTF-8; lower-casing is that of ASCII letters.
- The audit trail that authorization and config changes write, and the redaction of its values.
- Requests that overlap in one session: a run takes them one after the other, but caps may change during one.
- Re-trimming of history when it is reloaded from its checkpoint.
- Checkpoint files that are not valid JSON, and I/O errors other than a write that leaves the old file.
- Concurrent requests with the same idempotency key: the code does not serialise them, so the theorems are about sequential runs.
- A config holder with some appliers unset: the wiring in cmd/agentgpu/config_wiring.go sets all of them.
- LogTail.Connection.EmitNewLogs: states what is sent only until the uint64 counter wraps; frames are the records themselves, not their JSON text; keep-alive comments and write errors are not modelled.
- SessionHistory.HistoryStore.TrimTurns: byte and token totals do not overflow an int.
- ChatStream.ForwardChunks: the stream id and timestamp of a frame are part of the codec.
- Pagination.ListAll: no list is as long as 2^63.
- GpuInventory.AggregateGpus: with duplicate worker ids the cells are a permutation of the workers in an unspecified order.
