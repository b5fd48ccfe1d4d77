# Models of the Klever Node Hub

The Klever Node Hub is a dashboard that manages blockchain nodes through agents on their servers.
This project models the parts of it in which state, concurrency, failures or arithmetic make the
code hard to get right, and proves what each part promises. Code that updates state step by step is
a class or a loop whose contract ties it to a function of the old state; what the code is for is then
proved about that function, over every input, every run or every interleaving.

| Module | Part of the system | What is at stake |
|---|---|---|
| `SealedStream` | encrypted backup container | no byte stream but the one written is read to its end without error |
| `Grouping`, `Decimation` | metric decimation | when slicing equals a single GROUP BY and DELETE, and that it loses no sample |
| `AlertEngine`, `AlertPacing`, `AlertDelivery`, `AlertEvaluator` | alert evaluator and alerts table | when memory and table agree, across restarts; which notifications must be sent, and when they are paced |
| `AgentAuth` | signed agent connects | which connects are accepted, and when each only once although the cache is pruned and lost at restarts |
| `Bech32` | bit regrouping of addresses | a wrapping 32-bit accumulator regroups bits exactly |
| `BackupInstall` | install step of an import | what is left for every choice of failing renames, and when nothing is lost |
| `NodeContainer`, `ContainerUpgrade` | node containers | when an upgrade succeeds, and what of a node's configuration survives it or its rollback |
| `FlatYaml` | configuration reader and updater | the path a line gets from its indentation; an update changes what is read for one key only |
| `CommandHub` | command results | no writer blocks, each caller returns what its agent sent, and when every caller can still get a result |
| `LogFrames` | log demultiplexers | two readers of one framing, on any prefix of the stream |
| `BlockWindow`, `Elections`, `EpochMisses`, `ValidatorMonitor` | validator monitor | when timelines tell the chain; elections are counted once, in their month, and misses once |

`Prelude`, `Decimal` and `KleverTypes` hold what several of these share. `dafny verify dfyconfig.toml`
checks the whole project.

## Where the code does less than its comments say

Each of these is a lemma with the exact condition, with runs or inputs that show the failure where
that helps.

- Slicing ends with exactly the single GROUP BY and DELETE if and only if every slice starts at the
  earliest backlog row and ends between groups (`Decimation.OneShotIff`). Integer division rounds
  toward zero, so both can fail for negative timestamps, and only for them: an earliest row may be
  rounded up past itself, after which no slice does anything more, and a slice end at or below 0
  can cut a group (`Decimation.NonNegativeRun`, `Decimation.NegativeNeverEnds`,
  `Decimation.AlignedYetCut`). The loop ends at all if and only if every slice but the last starts
  at the earliest row (`Decimation.RunEndsIff`).
- A signed triple is accepted at most once if and only if the dashboard does not restart between its
  first presentation and the end of its skew window, since the cache is in memory only, and its
  timestamp is less than 2^63 nanoseconds ahead of the clock, where the difference saturates and its
  negation stays negative (`AgentAuth.AtMostOnceIff`).
- There is at most one active alert row per key at all times if and only if no step creates a row
  because the lookup of the active one failed; the error of that lookup is discarded
  (`AlertEngine.AtMostOneActiveIff`).
- Notifications about one alert keep their order and the cooldown, through all that can follow without
  a failing write, if and only if no UPDATE of its row fails in a step that sends a recovery, or repeats
  a message in a later second than the row knows of. Such an error is discarded or only logged, and a
  restart before the next write loads the old row (`AlertPacing.StaysPacedIff`,
  `AlertPacing.BehindBreaks`). While a key stays in memory the cooldown holds whatever fails
  (`AlertPacing.EpisodePaced`).
- `replaceFlatYAMLValue` sets a key to exactly the new value if and only if only white space stands
  between the old value's first token and a `#`; a comment glued to the value surfaces behind the new
  one (`FlatYaml.UpdateExactIff`, `FlatYaml.GluedCommentSurfaces`). A `$` at the end of a new value
  joins the reference behind it, so that the text `{4}` is written for the rest of the line
  (`FlatYaml.DollarAtEnd`).
- The configuration that an upgrade or rollback rebuilds is the old one at the new tag if and only if
  the redundancy level is not negative and the container had no start-in-epoch flag; the flag is
  never read back and always dropped (`ContainerUpgrade.UpgradeRebuildsIff`). The configuration
  directory becomes the one below the data directory, wherever it was.
- An import keeps or restores everything there was, whatever renames fail, if and only if it may not
  replace, or every path it gets to move has a free backup name: a file at a backup name is replaced
  and not restored (`BackupInstall.KeepsAllIff`).
- Every waiting caller can still be given a result, in every interleaving, if and only if no two
  calls share a message ID (`CommandHub.EveryCallerCanReturnIff`). A call whose timer fired before
  it was in the pending map, and is still pending, can only return on a result from the agent
  (`CommandHub.WithoutAgentIff`).
- With an answered newest page, a block of the chain is shown as skipped if and only if the window
  did not have it, it is not on the newest page, and a page on the way to it failed
  (`BlockWindow.SkippedThoughOnChainIff`). With a window of at most 100 blocks, as the dashboard has
  it (`cmd/dashboard/main.go:220-244`), that cannot happen (`BlockWindow.OnePageNeverSkips`); with
  any larger one it can (`BlockWindow.FailedPageShowsSkipped`).
- Frames of given payload sizes, whatever their contents, are parsed into their lines if and only if
  none is above 1 MiB; the payload of a larger one is not skipped but read as headers
  (`LogFrames.AlwaysParsedIff`, `LogFrames.OversizedFrameIsReparsed`).

## Model

| member | source | states |
|---|---|---|
| SealedStream.HeaderRoundTrip | internal/backup/crypt.go:137-152 | A stream parses as a header with a given salt, prefix and remainder exactly if it is the written header followed by that remainder. |
| SealedStream.NoncesDistinctIff | internal/backup/crypt.go:52-57 | The nonces of a container are pairwise distinct exactly up to 2^32 chunks, the counter being a wrapping uint32. |
| SealedStream.SplitFull | internal/backup/crypt.go:89-103 | Full chunks and a shorter last one are the way their concatenation is split, so the cut does not depend on how it was written. |
| SealedStream.FinalFrame | internal/backup/crypt.go:105-125 | The frames emitted for full chunks completed by the final frame are the container of the whole plaintext. |
| SealedStream.ContainerLayout | internal/backup/crypt.go:15-57 | For every plaintext and chunk number: magic, salt and prefix at their offsets, and at the chunk's offset the big-endian length of its ciphertext and the ciphertext, sealed under prefix and chunk number and marked final for the last chunk only. |
| SealedStream.EncryptWriter.constructor | internal/backup/crypt.go:69-87 | A new writer has emitted the header only and counts from 0. |
| SealedStream.EncryptWriter.Write | internal/backup/crypt.go:89-103 | Adds its argument to the plaintext so far, whatever the sizes; the buffer stays below one chunk between writes. |
| SealedStream.EncryptWriter.Flush | internal/backup/crypt.go:105-122 | Appends the frame of the buffered chunk under the next nonce and the final flag, and empties the buffer. |
| SealedStream.EncryptWriter.Close | internal/backup/crypt.go:124-125 | The bytes emitted are the container of the concatenated plaintext, a function of key, salt, prefix and plaintext only. |
| SealedStream.OpenContainer | internal/backup/crypt.go:137-152 | A reader behind the right header will deliver what the frames decode to; a short or foreign header is an error. |
| SealedStream.DecryptReader.Fill | internal/backup/crypt.go:155-188 | Moving to the next chunk changes nothing about what is still to be delivered, or reports the error that delivery ends with. |
| SealedStream.DecryptReader.Read | internal/backup/crypt.go:154-192 | For every buffer size, what is delivered plus what remains is what remained before; an end is reported only when nothing is left before it. |
| SealedStream.DecryptReader.ReadAll | internal/backup/crypt.go:154-192 | Reading with any sequence of buffer sizes delivers exactly the decoded plaintext and its end. |
| SealedStream.IdealExists | internal/backup/crypt.go:44-50 | The idealised AEAD that the theorems assume exists for every chunk list. |
| SealedStream.OpensOnlyOwnChunk | internal/backup/crypt.go:172-179 | At counter k, a ciphertext that opens under either flag is the writer's own chunk k with its own flag. |
| SealedStream.StepAt | internal/backup/crypt.go:159-187 | Reading one frame yields chunk k, or shows that the stream is not what the writer emitted from k on. |
| SealedStream.DecodeFrom | internal/backup/crypt.go:154-192 | From any chunk on, what is delivered is a prefix of the rest of the plaintext, and end of file means exactly the emitted bytes. |
| SealedStream.AnyStream | internal/backup/crypt.go:127-192 | For any bytes behind the right header: a prefix of the plaintext is delivered before the first error, and no error occurs exactly for the container written. |
| Grouping.BucketSide | internal/store/metrics_store.go:214-218 | A bucket of a non-negative timestamp lies on one side of every multiple of the bucket size. |
| Grouping.GroupByIsGroups | internal/store/metrics_store.go:225-234 | The GROUP BY yields exactly the archive rows of the (series, bucket) groups, each key once. |
| Grouping.GroupByMeaning | internal/store/metrics_store.go:225-234 | A row is in the GROUP BY exactly if it gives, for a series and a bucket (a multiple of the size, rounded toward zero) with samples, the bucket's end, the number of its samples, their average and their attained minimum and maximum. |
| Grouping.RowInItsBucket | internal/store/metrics_store.go:225-234 | Every row lies within the time range and the value range of an archive row of its series. |
| Grouping.GroupBySplit | internal/store/metrics_store.go:225-234 | Splitting rows without splitting a group gives the same archive rows. |
| Decimation.SliceProgressIff | internal/store/metrics_store.go:209-252 | With a backlog, a slice deletes its earliest rows, and leaves none when it reports done, exactly if the earliest timestamp is not rounded up. |
| Decimation.SliceTakesSixBuckets | internal/store/metrics_store.go:209-243 | A slice removes exactly the rows below the cutoff of the six buckets from that of the earliest row on. |
| Decimation.StuckOtherwise | internal/store/metrics_store.go:214-252 | Otherwise the next slice repeats this one without effect. |
| Decimation.StuckForever | internal/store/metrics_store.go:186-199 | Nor does any later slice have an effect; none reports done unless the first did. |
| Decimation.CutIff | internal/store/metrics_store.go:214-218 | Two rows of one group lie on the two sides of a multiple of the bucket size exactly if it is negative, one is at it and the other in the bucket's width below, or it is 0 and both are within that width of it. |
| Decimation.CutsNoneIff | internal/store/metrics_store.go:214-234 | A slice end cuts no group of a backlog, told by timestamps, exactly if rows of one key are on one side of it. |
| Decimation.SliceTakesWholeGroups | internal/store/metrics_store.go:205-254 | The archive rows of a slice that starts at the earliest row and cuts no group, plus the GROUP BY of the remaining backlog, are the GROUP BY of the backlog; rows at or above the cutoff stay. |
| Decimation.NextBacklog | internal/store/metrics_store.go:205-252 | After a slice that starts at the earliest row the backlog is what lies at or beyond its end, and it reports done exactly if that end reaches the cutoff. |
| Decimation.SliceAdvances | internal/store/metrics_store.go:186-199 | While a run is one that ends, a slice that is not the last shrinks the backlog and leaves such a run. |
| Decimation.RunEndsIff | internal/store/metrics_store.go:186-199 | Some number of slices ends in one that reports done exactly if every slice but the last starts at the earliest row. |
| Decimation.IterateSofar | internal/store/metrics_store.go:186-199 | After any number of clean slices, archived plus pending archive rows and deleted plus remaining rows are those of the original backlog. |
| Decimation.OneShotIff | internal/store/metrics_store.go:176-254 | For all timestamps: slicing reports done having done exactly the one GROUP BY and DELETE below the cutoff if and only if every slice starts at the earliest row and ends between groups. |
| Decimation.NonNegativeRun | internal/store/metrics_store.go:176-254 | Without negative timestamps below the cutoff that is always so, and the loop ends. |
| Decimation.NegativeNeverEnds | internal/store/metrics_store.go:214-218 | A row at -1 far below the cutoff: no slice does anything and the loop does not end. |
| Decimation.AlignedYetCut | internal/store/metrics_store.go:214-218 | Rows at -3000, -1201 and -1200: every slice starts at its earliest row, yet the first cuts a group. |
| Decimation.GroupByConserves | internal/store/metrics_store.go:225-234 | Aggregation keeps every series' sample count and value sum. |
| Decimation.SliceConserves | internal/store/metrics_store.go:205-254 | A slice keeps every series' archived samples plus raw rows, by count and by sum. |
| Decimation.Conservation | internal/store/metrics_store.go:51-77 | Over every interleaving of inserts and slices with any cutoffs and bucket sizes, archived samples plus raw rows are the rows ever inserted, by count and by sum. |
| Decimation.MetricsStore.InsertNodeMetrics | internal/store/metrics_store.go:51-77 | Inserts one row per metric, or nothing when the transaction fails. |
| Decimation.MetricsStore.DecimateSlice | internal/store/metrics_store.go:205-254 | One locked slice: rows from the earliest backlog bucket up to six buckets or the cutoff are aggregated and deleted; a failure changes nothing. |
| Decimation.MetricsStore.Decimate | internal/store/metrics_store.go:176-200 | On exactly the timestamps for which the loop ends: the committed slices are the iterated ones; when all are clean, success is the single GROUP BY and DELETE below the cutoff, and stopped by an error, what was archived plus the GROUP BY of the rest still is that GROUP BY. |
| AlertEngine.StateKeyInjective | internal/dashboard/alerting/evaluator.go:100-107 | The strings that key the states are as distinct as (rule, node) and (rule, server), for rule IDs without ':' and node IDs not starting with "server:". |
| AlertEngine.Hydrated | internal/dashboard/alerting/evaluator.go:91-120 | Every hydrated state stands for a listed row of its key, with that row's times, and every listed row's key is hydrated. |
| AlertEngine.SoundStep | internal/dashboard/alerting/evaluator.go:445-596 | Every step, with writes, lookups and listings failing anywhere and across restarts, keeps: firing states have a record of their key, and IDs are not handed out twice. |
| AlertEngine.UniqueStepIff | internal/dashboard/alerting/evaluator.go:497-539 | A step makes a second active row for a key exactly if it fires while the lookup of the existing one fails and the insert succeeds. |
| AlertEngine.AtMostOneActiveIff | internal/dashboard/alerting/evaluator.go:497-539 | Over every run with any failures and restarts, at most one active row exists per (rule, node) and per (rule, server) at all times exactly if no step does that. |
| AlertEngine.AtMostOneActive | internal/dashboard/alerting/evaluator.go:497-539 | In particular, while lookups do not fail, whatever writes do. |
| AlertEngine.AgreeStep | internal/dashboard/alerting/evaluator.go:445-596 | Every step whose writes succeed, lookups failing or not, keeps firing states and active rows in agreement. |
| AlertEngine.MemoryAgreesWithTable | internal/dashboard/alerting/evaluator.go:91-125 | Over every run with succeeding writes and listings and across restarts, lookups failing anywhere, a key is firing in memory exactly if the table has an active row for it, and both have the same ID. |
| AlertPacing.NotedStepIff | internal/dashboard/alerting/evaluator.go:481-561 | Whatever fails, a step keeps the pacing of notifications; provided each active row knew of every message about it, it still does exactly if the step's UPDATE does not fail when recovering, or when repeating in a later second. |
| AlertPacing.NotificationsPaced | internal/dashboard/alerting/evaluator.go:481-493 | Over every run without such a failing UPDATE, inserts, lookups and listings failing anywhere: of two messages about one record, nothing follows a recovery, the first is not repeated, and a repeated one comes at least the cooldown after every earlier one, in whole seconds, hydrated episodes included. |
| AlertPacing.BehindBreaks | internal/dashboard/alerting/evaluator.go:490 | After any such failing UPDATE a restart and one more step, with no further failure, send a message that breaks the pacing. |
| AlertPacing.StaysPacedIff | internal/dashboard/alerting/evaluator.go:481-561 | Over every run, whatever fails: at each moment the messages stay paced through all that can follow without a failing write exactly if no such UPDATE failed. |
| AlertPacing.EpisodePaced | internal/dashboard/alerting/evaluator.go:481-493 | Over every run, whatever fails, the messages about a key since its state was begun or loaded are about one record and at least the cooldown apart, to the nanosecond. |
| AlertPacing.EveryMessageHasRecord | internal/dashboard/alerting/evaluator.go:541-561 | Over every run, whatever fails, every message, recoveries included, is about a record. |
| AlertPacing.RecoveryHasResolvedRecord | internal/dashboard/alerting/evaluator.go:541-561 | Over every run without such a failing UPDATE, the row of a record whose recovery was sent is resolved; if all writes and listings succeed, there is such a row. |
| AlertPacing.StreakUnbroken | internal/dashboard/alerting/evaluator.go:449-471 | A streak began with a breached observation since which nothing broke it. |
| AlertPacing.FiresIff | internal/dashboard/alerting/evaluator.go:473-479 | Without a restart, a key starts firing exactly at a breached observation that ends an unbroken streak of breached observations that lasted at least the rule's duration. |
| AlertDelivery.StartsFiring | internal/dashboard/alerting/evaluator.go:497-539 | Whatever fails, a key that starts firing either takes over the active row the lookup found, without a message, or has a new record for rule and subject, inserted unless that fails, and exactly one message says that it fired. |
| AlertDelivery.RepeatsIff | internal/dashboard/alerting/evaluator.go:481-493 | A breached observation of a firing key sends one repeat about its record, noted in state and row, exactly if the cooldown since the last notification the state knows of has passed, and nothing otherwise. |
| AlertDelivery.RecoversIff | internal/dashboard/alerting/evaluator.go:541-578 | An observation within bounds or marking normal drops the state and sends one recovery exactly if it has a record, whose row becomes resolved now unless that write fails. |
| AlertDelivery.SilentOtherwise | internal/dashboard/alerting/evaluator.go:445-596 | Expiry, restarts, rows of the other component and breaches that stay pending send nothing. |
| AlertDelivery.ExpiresIff | internal/dashboard/alerting/evaluator.go:580-596 | A key is dropped by expiry exactly if it was not seen for more than five minutes, and its row becomes resolved unless that write fails. |
| AlertDelivery.FiredExactlyOnce | internal/dashboard/alerting/evaluator.go:507-538 | Over every run, whatever fails and across restarts, every record of the evaluator that is a row, in memory or the subject of a message has exactly one message that it fired, sent when it was created. |
| AlertDelivery.EpisodeRepeatsIff | internal/dashboard/alerting/evaluator.go:481-493 | Over every run, whatever fails, once a message was sent about a key that stays in memory, a breached observation sends another exactly if the cooldown since the last one has passed. |
| AlertDelivery.RowHistory | internal/dashboard/alerting/evaluator.go:481-596 | Over every run, whatever fails, no row is removed or changes what it is about or when it fired; a resolved row is final, and one that becomes resolved bears the time of that step. |
| AlertEvaluator.AlertStore.CreateAlert | internal/store/alert_store.go:182-202 | Adds the row unless its ID is taken or the write fails. |
| AlertEvaluator.AlertStore.UpdateAlert | internal/store/alert_store.go:205-219 | Changes state and timestamps of the row with this ID only, unless the write fails. |
| AlertEvaluator.AlertStore.GetActiveAlert | internal/store/alert_store.go:266-297 | Unless the query fails, finds an active row of the key, and nothing only if there is none. |
| AlertEvaluator.AlertStore.ListActiveAlerts | internal/store/alert_store.go:239-250 | Unless the query fails, lists exactly the active rows. |
| AlertEvaluator.Evaluator.HydrateFromDB | internal/dashboard/alerting/evaluator.go:91-125 | The whole state after a restart is the one the run model's restart step gives. |
| AlertEvaluator.Evaluator.ProcessResult | internal/dashboard/alerting/evaluator.go:445-495 | One observation is one step of the run model and keeps its invariant. |
| AlertEvaluator.Evaluator.FireAlert | internal/dashboard/alerting/evaluator.go:497-539 | Reattaches an active row of the key, or creates one under a fresh ID and notifies. |
| AlertEvaluator.Evaluator.ResolveAlert | internal/dashboard/alerting/evaluator.go:541-561 | Drops the state and resolves its record, if any, with a recovery notification where one is due. |
| AlertEvaluator.Evaluator.MarkKeyNormal | internal/dashboard/alerting/evaluator.go:563-578 | Marking a key normal is one step of the run model. |
| AlertEvaluator.Evaluator.ResolveStaleAlerts | internal/dashboard/alerting/evaluator.go:580-596 | Expiring every key not seen for five minutes is a sequence of steps of the run model. |
| AgentAuth.MessageInjective | internal/crypto/wsauth.go:22-24 | For server IDs without a bar, equal signed messages mean equal server, timestamp and nonce. |
| AgentAuth.MessageAmbiguousWithBar | internal/crypto/wsauth.go:22-24 | With a bar in a server ID two different triples share one message. |
| AgentAuth.InWindowIff | internal/crypto/wsauth.go:59-65 | The skew check passes exactly within five minutes of the clock or when the difference saturates. |
| AgentAuth.VerifyAgentAuth | internal/crypto/wsauth.go:48-67 | No error exactly for a nonce of 1 to 64 bytes, a 32-byte key, a signature that verifies over the message, and a timestamp in the window. |
| AgentAuth.AgentHandler.constructor | internal/dashboard/ws/agent_handler.go:186-188 | A new process has the marks of the servers table and an empty cache: the restart step of the run model. |
| AgentAuth.AgentHandler.RememberNonce | internal/dashboard/ws/agent_handler.go:183-200 | Drops exactly the expired entries and reports, and records, a key that is not among the others. |
| AgentAuth.AgentHandler.AuthenticateAgent | internal/dashboard/ws/agent_handler.go:131-179 | The verdict and the new state are those of one step of the run model, fail-closed branches included. On an ordered clock and for server IDs without a bar, a readable signed connect is accepted exactly if it verifies and this process has not accepted its nonce for its server within ten minutes. |
| AgentAuth.CachedUntilExpiry | internal/dashboard/ws/agent_handler.go:183-200 | Over any later attempts without a restart, an accepted connect's key stays cached until its lifetime has passed. |
| AgentAuth.ReplayRefused | internal/dashboard/ws/agent_handler.go:164-172 | With a lifetime of at least twice the skew and no restart in between, a triple whose difference to the clock cannot saturate is not accepted again. |
| AgentAuth.RestartBetween | internal/dashboard/ws/agent_handler.go:183-200 | If it is accepted again in any run, a restart falls between the first acceptance and the end of its skew window. |
| AgentAuth.ReplayAfterRestart | internal/dashboard/ws/agent_handler.go:186-188 | A restart within the skew window lets the same connect be accepted again. |
| AgentAuth.AtMostOnceIff | internal/dashboard/ws/agent_handler.go:164-200 | Over every run with restarts at any of the given times, a signed triple is accepted at most once exactly if none of them falls between its first presentation and the end of its skew window and its timestamp is less than 2^63 ns ahead. |
| AgentAuth.AtMostOnceInOneProcessIff | internal/dashboard/ws/agent_handler.go:164-200 | Over every run without a restart, exactly if its timestamp is less than 2^63 ns ahead. |
| AgentAuth.ExpiryTight | internal/dashboard/ws/agent_handler.go:198 | Without restarts, at most once holds for a lifetime exactly if it is at least twice the skew. |
| AgentAuth.UnsignedRefusedAfterSigned | internal/dashboard/ws/agent_handler.go:139-146 | After an accepted and recorded signed connect no unsigned connect for that server is accepted, restarts included. |
| AgentAuth.StaysSigned | internal/store/server_store.go:235-251 | A recorded server stays recorded through any later attempts and restarts. |
| AgentAuth.AcceptedIff | internal/dashboard/ws/agent_handler.go:164-200 | Over every run from an empty cache on an ordered clock, with server IDs without a bar: a readable signed connect is accepted exactly if it verifies and no connect of the same server with the same nonce was accepted since the last restart within the lifetime of an entry. |
| AgentAuth.UnsignedAcceptedIff | internal/dashboard/ws/agent_handler.go:131-146 | Over every run an unsigned connect is accepted exactly if the server row can be read, signing is not required of all, and no signed connect of the server was accepted and recorded. |
| Bech32.ShiftInBits | internal/auth/klever.go:294-296 | Shifting a digit into the wrapping accumulator appends its bits to the low bits in use. |
| Bech32.ExtractBits | internal/auth/klever.go:297-299 | Extracting a digit takes the top bits in use and leaves the rest. |
| Bech32.PaddedBits | internal/auth/klever.go:303-309 | The padding expression is the leftover bits completed with zeros, and is zero exactly if they all are. |
| Bech32.ConvertBits | internal/auth/klever.go:288-314 | Exact big-endian regrouping with padding; without it, success exactly if the leftover is shorter than an input digit and all zero, and the right error otherwise. |
| Bech32.RegroupsUnique | internal/auth/klever.go:288-314 | The regrouping of an input is unique, output and error included. |
| Bech32.RoundTrip | internal/auth/klever.go:288-314 | 8 to 5 with padding and then 5 to 8 without gives back every byte string. |
| Bech32.Bech32Decode5to8 | internal/auth/klever.go:266-285 | Decodes characters by charset position, strips the six checksum characters and regroups; every error case is the right one. |
| Bech32.KleverAddressToPublicKey | internal/auth/klever.go:247-263 | Yields a 32-byte key for the right prefix and a decodable data part, and the right error otherwise. |
| Bech32.SameKeyIff | internal/auth/klever.go:230-263 | Two well-formed addresses that decode give the same key exactly if their 52 payload characters agree. |
| Bech32.DecodesIff | internal/auth/klever.go:230-263 | A well-formed address decodes exactly if the low four bits of its last payload character are zero. |
| BackupInstall.RenameBackIff | internal/backup/backup.go:354-359 | Renaming away and back restores everything exactly if the other name was free. |
| BackupInstall.MovedAsideMeaning | internal/backup/backup.go:364-370 | After moving a list of distinct paths aside, onto free or taken names, each item is intact under its backup name, its own name is free, and nothing but the backup names changed. |
| BackupInstall.MoveOne | internal/backup/backup.go:364-370 | Each move goes through exactly if it would have at the start, and takes the moves done one further. |
| BackupInstall.UndoOne | internal/backup/backup.go:354-359 | Undoing the last of the first i + 1 moves leaves the first i, without whatever stood at the backup name. |
| BackupInstall.InstallSteps | internal/backup/backup.go:372-380 | After moving aside, the two renames into place reach the final file system, and removing the installed CA makes the moves undoable. |
| BackupInstall.FinalMeaning | internal/backup/backup.go:364-382 | After success the staged database and CA are in place, displaced items are intact under their backup names, the other candidates are gone and nothing else changed. |
| BackupInstall.ImportedFiles | internal/backup/backup.go:341-382 | After a successful import the staged CA and database are in the data directory, no -wal or -shm file is, and what was there before lies under ".bak-" and the stamp. |
| BackupInstall.ImportPlanValid | internal/backup/backup.go:341-348 | The paths an import works with never coincide, whatever directory, stage name and stamp. |
| BackupInstall.Importer.Rollback | internal/backup/backup.go:354-359 | Undoes the recorded renames, last first: the file system before them, without what stood at their backup names. |
| BackupInstall.Importer.ListExisting | internal/backup/backup.go:347-352 | Finds exactly the candidates that exist, in order. |
| BackupInstall.Importer.MoveAside | internal/backup/backup.go:360-371 | Moves everything existing aside and records it, or stops at the first rename that fails and undoes the ones before it. |
| BackupInstall.Importer.PutInPlace | internal/backup/backup.go:372-382 | Both renames succeed, or everything moved aside is undone. |
| BackupInstall.Importer.Install | internal/backup/backup.go:341-382 | For every file system and every choice of failing renames, the outcome and the whole file system left; without replace existing data is untouched. |
| BackupInstall.KeepsAllIff | internal/backup/backup.go:341-382 | Every choice of failing renames keeps or restores all there was exactly if replacing is not allowed or every path that gets moved has a free backup name. |
| NodeContainer.ParentOf | internal/agent/docker.go:509-517 | The parent of a directory's entry is the directory. |
| NodeContainer.BuildArguments | internal/agent/docker_ops.go:134-153 | The arguments appended step by step are those of the configuration. |
| NodeContainer.ParseContainerToNode | internal/agent/docker.go:419-474 | The record filled in the loops over mounts and binds is the one the container's report determines. |
| NodeContainer.ArgumentsParse | internal/agent/docker.go:476-507 | Port, display name and a positive redundancy level are read back from the arguments built from them; a level that is not positive reads as 0. |
| NodeContainer.FirstGivenValue | internal/agent/docker.go:477-488 | Of any arguments, a flag's value is the one given first, as the next argument or behind '=', and empty if none is. |
| NodeContainer.LastConfigMount | internal/agent/docker.go:445-456 | Of any mounts, the last one of a configuration directory decides both directories. |
| NodeContainer.FirstDbMount | internal/agent/docker.go:445-456 | Without one, the data directory comes from the first database mount. |
| NodeContainer.FirstConfigBind | internal/agent/docker.go:459-471 | Of any binds, the first one of a configuration directory decides both directories. |
| NodeContainer.BindParts | internal/agent/docker.go:461-465 | A bind is cut at its first two colons. |
| NodeContainer.MountsSeen | internal/agent/docker.go:445-456 | Whatever order of the four mounts, the config mount decides both directories and the database mount agrees with it. |
| NodeContainer.DirsRoundTrip | internal/agent/docker.go:443-471 | Both directories are read back from the mounts in any order, or from the binds when no mounts are listed. |
| NodeContainer.RoundTripIff | internal/agent/docker_ops.go:127-206 | Rebuilding the configuration of a created container from what is read back yields it, whatever the mount order, exactly if the redundancy level is not negative and the start-in-epoch flag, which is not read back, is chosen as it was. |
| ContainerUpgrade.CreatedKeeps | internal/agent/docker_ops.go:433-440 | A container created from what was read back is read back the same, at the new tag, with the configuration directory below the data directory. |
| ContainerUpgrade.RebuiltStands | internal/agent/docker_ops.go:433-440 | If the old container was created from some configuration, the one rebuilt is created from that one at its tag and flag. |
| ContainerUpgrade.UpgradeRebuildsIff | internal/agent/docker_ops.go:433-505 | What an upgrade or rollback rebuilds is the old configuration at the new tag exactly if the redundancy level is not negative and there was no start-in-epoch flag. |
| ContainerUpgrade.RunningIsStatus | internal/agent/docker.go:426-431 | Starting and stopping changes nothing that is read back but the status, nor what a container stands for. |
| ContainerUpgrade.DockerClient.RemoveContainer | internal/agent/docker_ops.go:209-241 | Reports success only when the container is gone; touches no other. |
| ContainerUpgrade.DockerClient.CreateAndStart | internal/agent/docker_ops.go:433-464 | Reports started only for a running container that stands for the old one at the given tag, with the epoch flag as asked. |
| ContainerUpgrade.DockerClient.Rollback | internal/agent/docker_ops.go:497-517 | Succeeds only with a running container that stands for the old one at the old tag, without the epoch flag. |
| ContainerUpgrade.DockerClient.AwaitRunning | internal/agent/docker_ops.go:467-494 | Polling changes nothing but whether the container runs, ends with the first look that sees it running, and gives up only after all looks. |
| ContainerUpgrade.DockerClient.UpgradeContainerWithRollback | internal/agent/docker_ops.go:380-495 | With Docker calls failing anywhere: success means a running container that stands for the old one at the new tag, a failure that reports no failed rollback one at the old tag, both without the epoch flag and created from the old configuration if it was known; earlier failures and other containers change nothing. It succeeds exactly if a container was started and then seen running; without a failing call and with a valid configuration it gives up only after all looks; the new image is pulled, and a created container is removed before another is created. |
| ContainerUpgrade.DockerClient.Recreate | internal/agent/docker_ops.go:258-322 | On success a running container stands for the old one, with the epoch flag exactly if asked for, at its tag or "latest". It succeeds exactly if its last call starts the container. |
| ContainerUpgrade.EpochFlag | internal/agent/docker_ops.go:143-145 | The flag is among the arguments exactly if configured, whatever the other values. |
| FlatYaml.ParseLine | internal/dashboard/handlers/batchconfig.go:254 | A line that matches is cut into parts that make it up again. |
| FlatYaml.ParseAssembled | internal/dashboard/handlers/batchconfig.go:254 | A line put together from parts is cut into the same parts. |
| FlatYaml.LeafOfPath | internal/dashboard/handlers/batchconfig.go:311-315 | The last component of a dotted path built from the stack is the key. |
| FlatYaml.SplitJoin | internal/dashboard/handlers/batchconfig.go:318-368 | Joined lines are split into the same lines. |
| FlatYaml.VisitLine | internal/dashboard/handlers/batchconfig.go:326-358 | The part of the loop that reader and updater share: the next stack and what the line binds. |
| FlatYaml.ParseFlatYAML | internal/dashboard/handlers/batchconfig.go:258-305 | The map read is the bindings of all lines, later ones winning, as the rows on paths below tell. |
| FlatYaml.PathFromIndentation | internal/dashboard/handlers/batchconfig.go:282-303 | A line that has a value binds it under its key behind the keys of exactly those headers above that are indented less than it and than every "key:" line between, in line order. |
| FlatYaml.ReadIff | internal/dashboard/handlers/batchconfig.go:258-305 | A path is read exactly if a line binds it. |
| FlatYaml.LastLineWins | internal/dashboard/handlers/batchconfig.go:302 | Its value is that of the last line that binds it. |
| FlatYaml.ValueBeforeComment | internal/dashboard/handlers/batchconfig.go:254-280 | A value is the text before the blanks and the comment. |
| FlatYaml.ReplaceFlatYAMLValue | internal/dashboard/handlers/batchconfig.go:310-369 | For every new value: without a line that binds the key the content is returned unchanged with false; otherwise only the first such line is replaced by the expanded template. |
| FlatYaml.ExpandTemplate | internal/dashboard/handlers/batchconfig.go:363 | Without a '$' in key and value the template puts the new value between the second and the fourth group. |
| FlatYaml.ExpandDollar | internal/dashboard/handlers/batchconfig.go:363 | A doubled '$' in a new value stands for one. |
| FlatYaml.ExpandName | internal/dashboard/handlers/batchconfig.go:363 | '$' and a name without braces, as long as possible, stand for a group, or for nothing. |
| FlatYaml.DollarAtEnd | internal/dashboard/handlers/batchconfig.go:363 | A new value that ends in '$' puts "{4}" in place of the fourth group. |
| FlatYaml.StackUnchanged | internal/dashboard/handlers/batchconfig.go:282-291 | Exchanging a value for another leaves every later stack as it was. |
| FlatYaml.UpdatedText | internal/dashboard/handlers/batchconfig.go:310-369 | For every new value without '$', only the first token of the value on the line that binds the key is exchanged; indentation, key, spacing and the rest stay, trailing carriage returns of that line go, all other lines are as before. |
| FlatYaml.UpdateReads | internal/dashboard/handlers/batchconfig.go:310-369 | For every file and plain token, an update changes what is read for this key only: to the new value and what stood behind the old first token, unless a later line binds the key again. |
| FlatYaml.UpdateExactIff | internal/dashboard/handlers/batchconfig.go:310-369 | The key, bound once, reads as exactly the new value exactly if only white space stands between the old first token and a '#'. |
| FlatYaml.GluedCommentSurfaces | internal/dashboard/handlers/batchconfig.go:316 | A value that is read as one token, with a comment glued to it, leaves part of the comment behind the new value. |
| CommandHub.InvStep | internal/dashboard/ws/hub.go:288-347 | Every step, with any message IDs, keeps: no writer blocked, each open channel written by one holder only, values carrying the call's ID. |
| CommandHub.NeverBlocksAndMatches | internal/dashboard/ws/hub.go:288-347 | In every interleaving, even with repeated IDs, no writer finds a channel full, each channel gets at most one value, and a returned result carries the caller's command ID. |
| CommandHub.HasResultIff | internal/dashboard/ws/hub.go:300-344 | In every interleaving, whatever IDs are used, a call has a result, in a handler's hand, in its channel or returned, exactly if a step answered it: a result from the agent, or the timeout of a timer, took its pending entry. |
| CommandHub.AnsweredOnce | internal/dashboard/ws/hub.go:300-339 | A call is answered at most once. |
| CommandHub.ReturnsTheAnswer | internal/dashboard/ws/hub.go:300-347 | What a call returns is exactly the result the agent sent while it was pending under that ID, or the timeout of a timer of that ID, and it returns no other once it was answered. |
| CommandHub.TakenIsReturned | internal/dashboard/ws/hub.go:333-344 | A result taken for a waiting call is what it returns once that is written and read. |
| CommandHub.FailsOnlyUnsent | internal/dashboard/ws/hub.go:316-328 | A call fails only if its message was not handed over, and waits or returns only if it was. |
| CommandHub.NothingPendingNobodyLost | internal/dashboard/ws/hub.go:312-347 | In every interleaving with distinct IDs, a call that returned or failed is no longer pending, and a waiting call is pending, in a handler's hand or has its result in its channel. |
| CommandHub.RepeatedIdLosesCaller | internal/dashboard/ws/hub.go:312-314 | Any two calls with one ID have a run after which nothing refers to the earlier one any more. |
| CommandHub.LostForever | internal/dashboard/ws/hub.go:300-347 | Such a call never returns, whatever happens next. |
| CommandHub.EveryCallerCanReturnIff | internal/dashboard/ws/hub.go:288-347 | For every assignment of IDs to calls: in every interleaving every waiting caller can still be given a result exactly if no two calls share an ID. |
| CommandHub.WithoutAgentIff | internal/dashboard/ws/hub.go:297-329 | With distinct IDs a waiting call can return without a result from the agent exactly if it is not pending with its timer already fired, which is to say fired before it was pending. |
| CommandHub.EarlyTimerIsSpent | internal/dashboard/ws/hub.go:300-314 | A run in which the timer fires before the call is in the pending map leaves such a call. |
| CommandHub.Hub.Arm | internal/dashboard/ws/hub.go:297-310 | Arming the timer is one step of the protocol. |
| CommandHub.Hub.InsertPending | internal/dashboard/ws/hub.go:312-314 | Entering the pending map is one step of the protocol. |
| CommandHub.Hub.Send | internal/dashboard/ws/hub.go:316-317 | Handing the message over, or failing to, is one step of the protocol. |
| CommandHub.Hub.RemovePending | internal/dashboard/ws/hub.go:317-323 | Withdrawing after a failed send is one step of the protocol. |
| CommandHub.Hub.Await | internal/dashboard/ws/hub.go:325-328 | The result returned carries the call's own ID. |
| CommandHub.Hub.OnTimer | internal/dashboard/ws/hub.go:300-310 | The timer callback takes the entry and writes to a channel that has room, under the lock. |
| CommandHub.Hub.TakePending | internal/dashboard/ws/hub.go:333-339 | A result takes the pending entry of its command ID, as one step of the protocol, and reports whether there was one. |
| CommandHub.Hub.DeliverResult | internal/dashboard/ws/hub.go:341-344 | The write that follows outside the lock finds room. |
| LogFrames.SplitTimestamp | internal/agent/log_stream.go:223-235 | Either the whole line is the message, or timestamp, space and message make up the line and the timestamp has no space and more than 20 bytes. |
| LogFrames.LineMeaning | internal/agent/log_stream.go:172-200 | A payload of text and trailing newlines is a line of standard error exactly for stream type 2, cut at the first space exactly if the text has a timestamp, at least 31 bytes and no space up to byte 20 but one later, and otherwise the text as message. |
| LogFrames.ParseDockerLogStream | internal/agent/log_stream.go:161-201 | The lines collected by the reader loop are those the bytes determine. |
| LogFrames.ParsePrefix | internal/agent/log_stream.go:161-201 | Cutting a printed stream anywhere yields the lines of the frames that arrived whole. |
| LogFrames.ParsePrint | internal/agent/log_stream.go:161-201 | Printing frames with payloads up to 1 MiB and parsing gives one line per nonempty frame in order with its stream; any byte prefix gives a prefix of the lines. |
| LogFrames.ParseBehind | internal/agent/log_stream.go:161-201 | Whatever follows them, frames of at most 1 MiB are parsed one by one. |
| LogFrames.OversizedFrameIsReparsed | internal/agent/log_stream.go:180-183 | Up to the first frame above 1 MiB the lines are those of the frames before it; from there on its payload and what follows are read as headers. |
| LogFrames.AlwaysParsedIff | internal/agent/log_stream.go:161-201 | Frames of given payload sizes, whatever their contents, are parsed into their lines exactly if no size is above 1 MiB. |
| LogFrames.StripDockerLogHeaders | internal/agent/benchmark.go:295-310 | The bytes the loop writes are those the input determines. |
| LogFrames.StripPrefix | internal/agent/benchmark.go:295-310 | Of any byte prefix the output is the payload bytes that arrived, or, while there are none, the fragment of a header. |
| LogFrames.StripPrint | internal/agent/benchmark.go:295-310 | Stripping what was printed gives the concatenated payloads. |
| BlockWindow.MergeBlocks | internal/dashboard/klever/monitor.go:416-424 | Records exactly the blocks within the range, later ones winning. |
| BlockWindow.Prune | internal/dashboard/klever/monitor.go:485-491 | Drops exactly the blocks outside the range. |
| BlockWindow.CountMissing | internal/dashboard/klever/monitor.go:427-435 | Counts exactly the absent nonces of the range. |
| BlockWindow.Backfill | internal/dashboard/klever/monitor.go:338-357 | Fetches pages in order until one fails, is empty or reaches the window start, or the cap is reached. |
| BlockWindow.WindowBounded | internal/dashboard/klever/monitor.go:309-321 | Whatever the API answers, the window lies within its range below the head and holds at most `window` blocks. |
| BlockWindow.PositionBound | internal/dashboard/klever/monitor.go:341-344 | The block at position j of a newest-first chain is at least j below the head. |
| BlockWindow.BackfillCovers | internal/dashboard/klever/monitor.go:341-357 | Requesting pages in order reaches every block above the window start, the early stop included. |
| BlockWindow.RefillFaithful | internal/dashboard/klever/monitor.go:319-373 | Whatever pages fail, a tick leaves only blocks of the chain in the window. |
| BlockWindow.RefillComplete | internal/dashboard/klever/monitor.go:319-373 | After a tick in which no page failed, the window has every block of the chain within its range. |
| BlockWindow.Timeline | internal/dashboard/klever/monitor.go:626-646 | One cell per nonce of the window in order, nonce 0 excepted, each with its status. |
| BlockWindow.SkippedIff | internal/dashboard/klever/monitor.go:564-646 | After a tick in which no page failed, a nonce is skipped exactly if the chain has no such block. |
| BlockWindow.WindowFaithful | internal/dashboard/klever/monitor.go:309-373 | Over every run of ticks on a growing chain, pages failing anywhere, the window holds only blocks of the chain. |
| BlockWindow.TimelineTellsChain | internal/dashboard/klever/monitor.go:309-357 | Over every such run, after a tick in which no page failed the timeline shows as skipped exactly the nonces the chain has no block for, and as produced or missed exactly what the chain's block says. |
| BlockWindow.BackfillReachesIff | internal/dashboard/klever/monitor.go:341-357 | Backfill reaches a block above the window start exactly if no page up to it fails. |
| BlockWindow.SkippedThoughOnChainIff | internal/dashboard/klever/monitor.go:309-373 | With an answered newest page, a block of the chain is shown as skipped exactly if the window did not have it, it is not on that page, and a page on the way to it failed. |
| BlockWindow.SkippedOverRunIff | internal/dashboard/klever/monitor.go:309-373 | The same over every run of ticks with pages failing anywhere, for every nonce of the timeline. |
| BlockWindow.OnePageNeverSkips | internal/dashboard/klever/monitor.go:341-348 | With a window of at most 100 blocks, blocks of the chain are never shown as skipped, whatever other pages answer. |
| BlockWindow.FailedPageShowsSkipped | internal/dashboard/klever/monitor.go:344-348 | With any larger window that backfill can cover, a failing second page leaves a block of the chain shown as skipped. |
| Elections.TotalUpdate | internal/dashboard/klever/monitor.go:227-245 | Changing one month's bucket changes a key's total over all months by that bucket's difference. |
| Elections.CreditedOncePerEpoch | internal/dashboard/klever/monitor.go:200-249 | Over every run of ticks, failed writes and restarts, a key's elections over all months are the number of distinct counted epochs in which a managed node had it and it signed a block of the epoch in the window. |
| Elections.CreditedInItsMonth | internal/dashboard/klever/monitor.go:227-245 | Over every such run, its elections of a month are the number of those epochs that were counted in a tick of that month. |
| Elections.ShownAfterTick | internal/dashboard/klever/monitor.go:203-243 | After a tick the current month is that of the tick, and its bucket holds just these numbers. |
| Elections.TickCountsIff | internal/dashboard/klever/monitor.go:209-225 | A tick counts its epoch exactly if it is later than all counted before and some block of it in the window has a signer. |
| Elections.LastEpochMonotone | internal/dashboard/klever/monitor.go:209-211 | The stored last epoch never falls, nor does the one in memory except by a restart. |
| Elections.RestartLosesNothing | internal/dashboard/klever/monitor.go:400-412 | While writes succeed a restart brings back exactly the history in memory. |
| EpochMisses.CountsAreMisses | internal/dashboard/klever/monitor.go:511-550 | A key's count is the number of distinct signer-bearing nonces of the current epoch where it was elected at scoring time and not among the signers. |
| EpochMisses.CountsAreDirect | internal/dashboard/klever/monitor.go:511-550 | With a constant elected set and consistent block data that is the direct count over the set of delivered blocks, whatever overlap, order or number of deliveries. |
| KleverTypes.SpellingsOfKey | internal/dashboard/klever/monitor.go:690-695 | Keys compare equal whatever their case, the white space around them and an 0x in front. |
| ValidatorMonitor.ListedState | internal/dashboard/klever/monitor.go:374-382 | The state of a key is that of its last entry in the validator list, or unknown. |
| ValidatorMonitor.ElectedManagedIff | internal/dashboard/klever/monitor.go:518-528 | The keys scored for misses are those of a managed node whose last entry says elected. |
| ValidatorMonitor.Monitor.RefreshDue | internal/dashboard/klever/monitor.go:333-335 | The list is due in the first tick of an epoch, until the epoch is counted and once more, and at least every five ticks. |
| ValidatorMonitor.Monitor.EnsureElectionsLoaded | internal/dashboard/klever/monitor.go:171-189 | Loads the stored history once, if elections are tracked. |
| ValidatorMonitor.Monitor.CollectElected | internal/dashboard/klever/monitor.go:215-222 | The union of the signer sets of the epoch's blocks in the window. |
| ValidatorMonitor.Monitor.CreditManaged | internal/dashboard/klever/monitor.go:232-245 | Each distinct managed and elected key gets one election, whatever duplicates there are. |
| ValidatorMonitor.Monitor.UpdateElections | internal/dashboard/klever/monitor.go:200-249 | The new history is that of the run model, and dirty says whether it changed. |
| ValidatorMonitor.Monitor.ScoreBlocks | internal/dashboard/klever/monitor.go:530-547 | Scores each block not yet seen once. |
| ValidatorMonitor.Monitor.TrackEpochMisses | internal/dashboard/klever/monitor.go:511-550 | One delivery of the miss model, the reset at a new epoch included. |
| ValidatorMonitor.Monitor.Build | internal/dashboard/klever/monitor.go:556-672 | One view per distinct managed key, with its state, elections of the month, misses and timeline. |
| ValidatorMonitor.Monitor.RefillWindow | internal/dashboard/klever/monitor.go:309-373 | Merging, pruning and backfilling give the refilled window of the run model. |
| ValidatorMonitor.Monitor.Tick | internal/dashboard/klever/monitor.go:285-413 | The whole new state of one poll: window, misses, one step of the election model and the views, each cell of the last `window` nonces included; the elections shown are those of the month over the whole run and the misses those of the epoch's deliveries; while list requests are answered the list is of this epoch and at most five ticks old; an unusable newest page changes nothing but the error. |

## Left out

- Decimation.MetricsStore.Decimate: requires timestamps for which the loop ends, exactly those of `RunEndsIff`, because a method that does not return cannot be given. Averages are exact reals; NULL and NaN values, `Purge` and the queries are not modelled, nor are int64 limits of timestamps or inserts during a run, beyond `Conservation`.
- FlatYaml.ReplaceFlatYAMLValue: names in a template are ASCII letters, digits and underscores. White space is space, tab, newline, carriage return and form feed; other Unicode spaces that `strings.TrimSpace` knows are not.
- Bech32.ConvertBits: group widths are 1 to 8 bits and digits fit their width, as in both calls of the original. The bech32 checksum is not checked by the code either.
- NodeContainer.ArgumentsParse: numbers are unbounded; what Sscanf does on overflow, or with leading spaces outside ASCII, is not modelled.
- BlockWindow.CountMissing, BlockWindow.Timeline and ValidatorMonitor.Monitor.Tick: require a head nonce below 2^64 - 1, beyond which the original's loops do not end.
- Cryptography is idealised: one AEAD value stands for AES-256-GCM under the key derived from passphrase and salt, and opens exactly what the writer of this container sealed; Ed25519 verification together with base64 decoding is an arbitrary predicate. Argon2id, randomness, gzip, tar and certificates are not modelled.
- Writing the container cannot fail in the model; a read error of the underlying stream counts as its end. What the decrypting reader does after its first error is not stated.
- Import's reading and validation of the archive, and `Lstat` errors other than absence. Undo steps are taken to succeed, as removing the staging directory is. A rename fails because it must, or as part of a given set of failing destinations.
- AgentAuth.AcceptedIff: server IDs have no '|', with which two servers could share a cache key, and clock readings are ordered, as they are when `AuthenticateAgent` is served one call at a time.
- AgentAuth.AtMostOnceIff: one clock stands for the wall clock of the skew check and the monotonic one of the cache's expiry, which are taken to advance alike; a wall clock set back within one process is not modelled.
- AuthenticateAgent is one atomic step: reading the server row, checking and remembering the nonce are not interleaved with another upgrade, and clock readings reach the cache in order. Log throttling is left out.
- Alert texts, severities, acknowledgement and purging; the metric queries, stall detection and rule loops that decide whether a rule is breached. The clock does not go back and moves on across a restart, on which fresh IDs rely. Whether "server:" prefixes and ':' can occur in IDs is not modelled beyond `StateKeyInjective`.
- The hub's connection registry, heartbeats and message serialisation; stopping a timer is modelled as a timer that may still fire, which only adds interleavings. Goroutines are steps of a state machine, not threads.
- A stored election history that cannot be read at start, which the original replaces by an empty one; its JSON form; stakes, commissions, fees, summaries and the order of views; metrics emitted for the alert engine.
- Docker's cleaning of paths, user, entrypoint, labels and restart policy; containers whose data directory has a ':', for which Docker refuses the bind; `UpgradeContainer` without rollback; contexts that are cancelled, beyond calls that fail.
- `LogStreamManager`, live streaming and the raw (TTY) log parser, which has no framing.
- HTTP handlers, WebAuthn, web push, notification channels, provisioning, rate limiting and the user interface.
