# LLO consensus state machines in Dafny

A Dafny 4.11 model of the replicated state machines behind the LLO reporting
plugins of chainlink-data-streams, with proofs about every run of them. `dafny
verify dfyconfig.toml` checks the whole project.

- **Stream history** (`HistoryLayout`, `RecordWire`, `HistoryTracking`, `RingWindow`,
  `KeyValueState`, `HistoryStore`, `HistoryRequirements`, `HistoryRounds`,
  `HistoryRuns`, `HistoryFailures`). A bounded time series per (stream, aggregator) pair, stored as
  a header and a ring of 18 slots of up to 64 records. What a pair's keys mean is
  an abstract `Window`: the log accepted since the window was empty, its oldest
  retained chunk and its depth; header and chunks are closed forms of it.
  `RingWindow` and `HistoryStore` are classes that change in place; a store
  carries the windows it stands for as ghost state. `HistoryRounds.Round` is one
  whole round. It takes arbitrary stored data and a set of pairs that start out
  well-formed (`good`), and proves for each of those exactly what it holds
  afterwards, whatever the other pairs hold. For arbitrary data it also says
  exactly when and how a round fails. `HistoryRuns` chains rounds from an
  empty store and compares them with a plain append log.
- **Definition budget** (`Tallies`, `Budget`, `Analysis`). The incrementally kept
  counters of `ChannelDefinitionsBudget` against recomputation from the set, as
  multisets, and against the collisions the whole-set analysis finds.
- **OCR3.0 outcomes** (`Outcomes`, `OutcomeCodec`, `OutcomeRuns`, `Votes`, `Backfill`,
  `OutcomeRound`, `Validation`, `Convergence`, `ConvergenceRuns`). `Advance` is a round as a function of what it
  decided. `OutcomeRounds.NextOutcome` computes it from observations with the
  loops of the source. Run theorems hold for every sequence of decisions;
  Byzantine theorems hold for every placement of at most `f` faulty oracles.
- **Aggregation and freshness** (`Medians`, `Aggregators`, `Mercury`,
  `Freshness`). Rank medians are characterised by counting, which gives both
  "between two honest values" and "ordered prices stay ordered".

`Collections` holds sorting and counting. `Sort` promises only a sorted
permutation, and maps are always drained in an unspecified order, so results
proved equal do not depend on either.

What a function of the model computes is also said by counting, arithmetic or fields,
without its name: the median and the mode by how many contributions lie on either side or
vote alike, the tallies by the channels and observations behind them, reportability by
the fields of the outcome, the stored layout record by record.

Statements that turned out to need a condition are given together with that
condition, and with the input that breaks them:

- A window discarded as corrupt in a round is well-formed afterwards exactly when
  the pair was admitted or indexed; otherwise its keys stay as they were and are
  not empty (`HistoryRounds.FlushedCorrupt`, `HistoryRounds.RestoredIff`; the input
  is a read of an unadmitted, unindexed pair with a junk header,
  `HistoryFailures.UnrepairedRead`).
- Comments in `llo/dev/v31/history.go` promise that corruption never fails a
  round. It does, exactly when for an admitted pair the header decodes, with its
  new depth the newest chunk has room for a record that is newer and fits, and
  that chunk's slot decodes to another chunk the header accepts, because `Provide`
  does not compare it with the slot it was read from (`HistoryRounds.AppendFailsIff`,
  `HistoryRounds.Round`). With 65 records and chunk 0 copied into slot 1 every
  round that requires the pair at depth two or more and agrees on a newer value fails
  (`HistoryFailures.FailingRound`), and a read fails without discarding
  the window (`HistoryFailures.FailingRead`).
- A rolled-back replacement restores the budget exactly when the definition it
  was told to replace was part of the measured set (`Budgets.RollbackRestores`).
- The minimum report interval is enforced exactly when watermark plus interval
  does not wrap at 64 bits or the whole-second guard leaves no later time
  (`OutcomeRuns.WrapIsExact`).
- Every defined channel has a watermark after a round exactly when no channel
  voted out is voted in again with room for it, which below the cap means that no
  channel is in both votes (`OutcomeRuns.WatermarksCoverDefinitions`; votes that do
  so are `OutcomeRounds.SplitVote`, their effect `OutcomeRounds.VotedBothWays`).
- Protocol version 0 stores watermarks in whole seconds. A backfill is exact if and
  only if it emits no row between two seconds (`Backfills.BackfillExactIff`); once
  it selects such a row it never gets past it (`Backfills.StuckRow`).
- Honest oracles that want one desired set take the committed one along a fixed
  path (`ConvergenceRuns.Path`): each accepted round removes the five lowest channels
  too many and installs the five lowest differing ones. Given enough rounds it ends at
  the desired set, whatever those rounds evaluate, if and only if no evaluation changes
  a desired definition (`ConvergenceRuns.SettlesIff`). An evaluated expression channel
  gets its calculated streams appended to the committed definition without a vote, so
  a desired definition that does not list them differs again every round; five of them
  on the lowest IDs keep a sixth channel out for good (`ConvergenceRuns.Starved`,
  `ConvergenceRuns.SixthNeverAdded`).
- Channel votes are validated merged into the committed set, without their own
  removals. A number of rounds is possible exactly when the honest vote on every path
  set before the last is accepted (`ConvergenceRuns.RunHonestRounds`,
  `ConvergenceRuns.RoundPossibleIff`). From an `Admissible` start that is a matter of
  counting: all votes are accepted exactly when the first one leaves at most 2000
  channels (`ConvergenceRuns.AllVotesAcceptedIff`). Votes that fail are
  `Convergence.ReplacingAtTheCapIsRejected`,
  `Convergence.TargetBehindTheBatchIsRejected`,
  `Convergence.StrandedBackfillIsRejected` and
  `Convergence.NewStreamAtTheLimitIsRejected`.
- Protocol versions 0 and 1 count votes by a hash that leaves out tombstone, source and
  the demand for values. There an elected definition has an honest vote up to those
  fields only, and the last oracle that voted for it decides them
  (`OutcomeRounds.LastVoterDecides`). The convergence results are for version 2.
- The watermark pass already sees what a round voted, the reports of the previous
  outcome do not. The watermark follows the report exactly unless the voted streams
  differ, values are demanded, and they are present for only one of the two lists
  (`OutcomeRuns.WatermarkFollowsReportIff`).
- The OCR3.0 median counts a timestamped value without a decimal as time zero. Its
  timestamp is a real one exactly when at most half of the counted times are such
  (`Aggregators.SkippedTimestampIff`).
- The age bound of six round intervals may wrap at 64 bits, but never to zero, so
  nothing older is chosen; values within the bound are dropped exactly when it
  wraps (`Freshness.AgeBoundIsExact`).

## Model

| member | source | states |
|---|---|---|
| HistoryLayout.TotalClosed | llo/protocol/stream_history_ring.go:239-251 | the total of a header's counts is 64 for every chunk but the last, plus the last |
| HistoryLayout.RetainedChunksBound | llo/protocol/stream_history_ring.go:376-390 | a header that passes the two retention checks retains at most 17 chunks, one fewer than the ring has slots |
| HistoryLayout.TrimRetains | llo/protocol/stream_history_ring.go:740-760 | whatever well-shaped header eviction starts from, the result satisfies both retention checks and keeps the well-shaped form |
| HistoryLayout.HeaderOfDecodes | llo/protocol/stream_history_ring.go:310-397 | the header of every well-formed window passes every decode check and leaves a slot of the ring free |
| HistoryLayout.ChunkOfDecodes | llo/protocol/stream_history_ring.go:104-148 | every retained chunk of a well-formed window passes every decode check |
| HistoryLayout.SlotsDistinct | llo/protocol/stream_history_ring.go:186-188 | the retained chunks of a window and one fresh chunk fall into pairwise distinct ring slots |
| HistoryLayout.TrimIsRetain | llo/protocol/stream_history_ring.go:740-760 | evicting from the header alone is the same as dropping whole chunks of the log until one fewer would not cover the depth |
| HistoryLayout.AppendKeepsOk | llo/protocol/stream_history_ring.go:678-732 | an append keeps the window invariant: strictly increasing times, bounded records, minimal retention |
| RecordWires.VarintRoundTrip | llo/protocol/stream_history.go:48-60 | decoding an encoded number gives it back with what follows, and it takes as many bytes as the size counts |
| RecordWires.RecordRoundTrip | llo/protocol/plugin_codecs.proto:45-74 | decoding an encoded history record gives the record back, and its length is exactly the size the limit is compared with |
| HistoryTracking.ResetTracks | llo/protocol/stream_history_ring.go:477-485 | over any contents of a pair's keys, the reset copy plus its pending deletes stands for the empty window |
| HistoryTracking.WithDepthTracks | llo/protocol/stream_history_ring.go:642-655 | changing the depth of a working copy that stands for a window yields one that stands for the window at that depth, also at teardown |
| HistoryTracking.AppendTracks | llo/protocol/stream_history_ring.go:678-732 | appending to a working copy that stands for a log yields one that stands for the log with the record added and whole chunks evicted |
| HistoryTracking.WrittenHolds | llo/protocol/stream_history_ring.go:765-793 | applying the write set to the stored keys leaves exactly the header and the retained chunks of the window, nothing more and nothing less |
| HistoryTracking.TornDownIsEmpty | llo/protocol/stream_history_ring.go:765-793 | the deletes of a torn-down window cover every slot that is still stored |
| HistoryTracking.StoredLayout | llo/protocol/stream_history_ring.go:186-188 | record i of the log is stored at place i mod 64 of chunk i/64 under slot i/64 mod 18 as far as it is retained, no other slot is used, and the header gives depth, oldest chunk, newest time, and size and first time of every chunk |
| HistoryRing.DecodeChunk | llo/protocol/stream_history_ring.go:104-148 | accepts a chunk exactly when it holds 1 to 64 records of at most 128 bytes, each later than the one before |
| HistoryRing.DecodeHeader | llo/protocol/stream_history_ring.go:310-397 | accepts a header exactly when it satisfies every header invariant, also field by field: depth up to 1024, full chunks before the last, ascending starts, retention bounds, slots and sequence range |
| HistoryRing.HeaderOkIff | llo/protocol/stream_history_ring.go:310-397 | the header invariant is the list of checks on the fields, with the total as 64 for every chunk but the last |
| HistoryRing.RingWindow.constructor | llo/protocol/stream_history_ring.go:459-467 | a working copy starts with the header, no chunk loaded and nothing to write |
| HistoryRing.RingWindow.Reset | llo/protocol/stream_history_ring.go:477-485 | a reset copy is empty, has a header to write and every slot of the ring to delete |
| HistoryRing.RingWindow.AppendPlan | llo/protocol/stream_history_ring.go:517-526 | the newest chunk when the window has a depth and that chunk has room, nothing otherwise |
| HistoryRing.RingWindow.ReadPlan | llo/protocol/stream_history_ring.go:533-556 | refuses depths beyond the retained total, otherwise names the consecutive chunks from the plan start to the newest |
| HistoryRing.PlanIsMinimal | llo/protocol/stream_history_ring.go:533-556 | a read plan covers the asked records and would not without its oldest chunk |
| HistoryRing.RingWindow.Provide | llo/protocol/stream_history_ring.go:575-598 | takes a chunk exactly when its sequence is retained and count, start and end agree with the header; a refused chunk changes nothing |
| HistoryRing.MatchesIff | llo/protocol/stream_history_ring.go:575-598 | a chunk is accepted exactly when the header names its sequence with as many records, the same first time and, for the newest, the same last time |
| HistoryRing.RingWindow.Newest | llo/protocol/stream_history_ring.go:603-632 | fails when too little is retained, with "chunk not loaded" exactly when a planned chunk is missing and all before it fit together, and as corrupt when a seam is out of order; otherwise the last n of the joined chunks |
| HistoryRing.RingWindow.SetRequiredCount | llo/protocol/stream_history_ring.go:642-655 | refuses depths above 1024 without a change, otherwise leaves exactly the evicted copy and says whether anything changed |
| HistoryRing.RingWindow.Append | llo/protocol/stream_history_ring.go:678-732 | every answer in every case, with "no free ring slot" unreachable; a rejected append leaves all fields, an accepted one the stored and evicted copy |
| HistoryRing.AppendAnswerIff | llo/protocol/stream_history_ring.go:678-732 | each answer of an append by the fields: no value, second append of the round, nothing to store, too large, newest chunk needed but not loaded, stored |
| HistoryRing.RingWindow.Evict | llo/protocol/stream_history_ring.go:740-760 | the chunk-by-chunk loop drops exactly the computed surplus, records the freed slots in order and zeroes an emptied header |
| HistoryRing.RingWindow.WriteSet | llo/protocol/stream_history_ring.go:765-793 | dirty header and chunk, and the freed slots ascending, once each and without the slot being written |
| HistoryRing.RedundantIffSurplus | llo/protocol/stream_history_ring.go:740-745 | the eviction test on the remaining header succeeds exactly while fewer chunks than the surplus were dropped |
| HistoryRing.StoredChunkIsAccepted | llo/protocol/stream_history_ring.go:575-598 | no chunk written by a run is rejected later: every unloaded retained chunk is found in its slot, decodes and matches the header, even after appends and evictions of the same round |
| HistoryRing.NewestIsLogTail | llo/protocol/stream_history_ring.go:603-632 | with the planned chunks loaded the seams hold and the result is exactly the end of the append log |
| HistoryRing.MisplacedTailFailsAppend | llo/protocol/stream_history_ring.go:575-598 | for any decodable header and any chunk it accepts from the newest chunk's slot, an append of a newer record that fits fails exactly when that chunk is another one |
| KeyValueStates.SortPairs | llo/dev/v31/history.go:425-442 | draining a set of pairs in any order and sorting it gives its unique sorted list |
| KeyValueStates.SortedPairsUnique | llo/dev/v31/history.go:459-466 | the sorted list of a set of pairs is unique, so every oracle visits the same order |
| KeyValueStates.AscendingIff | llo/dev/v31/history.go:459-466 | sorted and without repeats means strictly ascending by stream and then aggregator |
| KeyValueStates.KeyValueState.ReadHeader | llo/dev/v31/kv.go:514-533 | absent, decodable and corrupt header bytes are told apart |
| KeyValueStates.KeyValueState.ReadChunk | llo/dev/v31/kv.go:558-577 | absent, decodable and corrupt chunk bytes are told apart |
| HistoryStores.HistoryStore.constructor | llo/dev/v31/history.go:81-104 | a round's store starts with the stored index, nothing opened, and a layout reset due exactly when the version differs |
| HistoryStores.HistoryStore.AbandonLayout | llo/dev/v31/history.go:106-128 | every indexed pair becomes an already-reset window that stands for the empty window, without a read |
| HistoryStores.HistoryStore.Reset | llo/dev/v31/history.go:169-184 | whatever was stored, the pair now stands for the empty window at its admitted depth, or depth zero if that is above 1024, and is marked corrupt |
| HistoryStores.HistoryStore.OpenWindow | llo/dev/v31/history.go:137-156 | a header is read on first use only; whatever it holds the working copy is the decoded header, the empty one when absent, or a reset, and the pair is marked corrupt exactly when it does not decode |
| HistoryStores.HistoryStore.Provide | llo/dev/v31/history.go:189-215 | loads planned chunks once each; the result is the fold over what each slot decodes to, and a missing or mismatching chunk resets the whole window, which never happens to a pair that means a window |
| HistoryStores.HistoryStore.SetRequired | llo/dev/v31/history.go:273-285 | the working copy is the opened one at the new depth, a well-formed pair stands for its window at that depth, other pairs and everything already read are untouched |
| HistoryStores.HistoryStore.Append | llo/dev/v31/history.go:290-307 | on arbitrary storage the answer is that of the working copy with whatever its newest slot holds; a well-formed window grows by the record exactly when it accepts it, and nothing is read twice |
| HistoryStores.HistoryStore.Series | llo/dev/v31/history.go:240-266 | answers the newest n records of a well-formed window or that it is too short; on arbitrary storage the exact condition for "chunk not loaded", which discards nothing |
| HistoryStores.HistoryStore.FlushWindow | llo/dev/v31/history.go:322-353 | the pair's keys become exactly the written form of its working copy, other pairs' keys stay, no key is touched twice |
| HistoryStores.HistoryStore.DeleteWindow | llo/dev/v31/history.go:399-414 | header and held slots of a pair are deleted, the whole ring if it was never opened |
| HistoryStores.HistoryStore.Flush | llo/dev/v31/history.go:316-391 | which pairs end up written, removed or untouched, the resulting index both ways, when index and version are rewritten, and that no key is written twice, deleted twice or both |
| HistoryRequirements.Admit | llo/dev/v31/history_requirements.go:120-150 | admitted and denied pairs split the required ones and admission is cut short only by the cap of 128; a pair admitted before a denied one is an incumbent where the other is not, or else has the strictly lower (stream, aggregator) |
| HistoryRequirements.AdmissionIsDeterministic | llo/dev/v31/history_requirements.go:120-150 | the admitted depths and the denied list are a function of what is required and who holds a window, independent of map order |
| HistoryRequirements.IncumbentsAreNeverDenied | llo/dev/v31/history_requirements.go:97-119 | with at most 128 incumbents, a required incumbent is always admitted, whoever else asks |
| HistoryRounds.Start | llo/dev/v31/history.go:81-130 | an index beyond 128 pairs fails the round; otherwise every good pair means its window, or the empty one after a layout change |
| HistoryRounds.Apply | llo/dev/v31/history_requirements.go:156-178 | fails exactly when an admitted depth is above 1024; otherwise every admitted pair has its depth and every other indexed pair depth zero |
| HistoryRounds.AppendOne | llo/dev/v31/statetransition.go:761-778 | an admitted pair's window takes the agreed record, an unadmitted pair is skipped, an oversized record is dropped, and it fails exactly when the pair's newest chunk is displaced |
| HistoryRounds.AppendFailsIff | llo/dev/v31/history.go:290-307 | for arbitrary storage an append after setting the depth fails exactly when the header decodes, the newest chunk has room, the record is newer and fits, and the newest slot decodes to another matching chunk |
| HistoryRounds.FlushedGood | llo/dev/v31/history.go:316-391 | after the flush a good pair is stored and indexed as its next window when admitted, and has no key left when not |
| HistoryRounds.FlushedCorrupt | llo/dev/v31/history.go:158-184 | a discarded pair holds at most this round's record at its admitted depth, is removed when only indexed, and is left as found and not empty when neither |
| HistoryRounds.RestoredIff | llo/dev/v31/history.go:158-184 | a discarded pair is well-formed after the round exactly when it was admitted or indexed |
| HistoryRounds.Round | llo/dev/v31/statetransition.go:207-218 | a whole round on arbitrary storage: the exact next window of every good pair, every read answered from it, every discarded pair restored and every junk header found, a tidy index kept tidy, no key read, written or deleted twice, and for each error exactly when it occurs |
| HistoryRounds.RoundAfterLayoutChange | llo/dev/v31/history.go:106-128 | after a round that finds another layout version every indexed pair is well-formed, warmed from empty when admitted and gone when not, whatever its keys held, and the index is rewritten in the current layout |
| HistoryRuns.RoundRepresents | llo/dev/v31/history.go:316-391 | after a round on well-formed storage the index, the stored headers and the admitted pairs coincide and each pair's slots are exactly its retained chunks |
| HistoryRuns.RunKeeps | llo/protocol/stream_history_ring.go:678-760 | over every run the window's log is the plain append log, and at least the smaller of its length and the smallest depth since the pair was admitted is retained |
| HistoryRuns.AcceptedIff | llo/protocol/stream_history_ring.go:678-732 | over every run the log holds, in ascending time, exactly the values of at most 128 bytes that a round agreed on since the pair was last admitted and that were newer than everything accepted before |
| HistoryRuns.ReadsAreLogTails | llo/protocol/stream_history_ring.go:603-632 | over every run a read of n records is exactly the last n accepted ones up to the retained length, and refused beyond it |
| HistoryRuns.RunRounds | llo/dev/v31/history.go:76-414 | every run of rounds from an empty store completes, each round refining its step, with all reads answered from the accepted log, nothing discarded and no key touched twice in a round |
| HistoryRuns.HoldersStay | llo/dev/v31/history_requirements.go:97-150 | in every run a pair that holds a window and stays required is admitted again and loses nothing it accepted |
| HistoryRuns.HoldersFit | llo/dev/v31/history_requirements.go:142-148 | at no point of a run do more than 128 pairs hold a window |
| HistoryRuns.StorageIsDetermined | llo/dev/v31/history.go:308-315 | oracles that agree on the windows store the same index and the same cells |
| HistoryRuns.RunsAgree | llo/dev/v31/history_requirements.go:97-150 | two runs of the same inputs take the same steps whatever order maps are drained in |
| HistoryFailures.CopiedChunkDisplaces | llo/protocol/stream_history_ring.go:575-598 | in any well-formed window with a partly filled newest chunk, and at every depth that evicts nothing, copying an older retained chunk into its slot displaces it |
| HistoryFailures.FailingRound | llo/dev/v31/statetransition.go:761-778 | with 65 records and chunk 0 in slot 1 every round that requires the pair at a depth of at least two and agrees on a newer value for it fails with "chunk not loaded" |
| HistoryFailures.FailingRead | llo/dev/v31/history.go:240-266 | on the same storage reading the newest record fails with "chunk not loaded" and the window is not discarded |
| HistoryFailures.UnrepairedRead | llo/dev/v31/history.go:169-184 | reading an unadmitted, unindexed pair with a junk header discards its window in memory, and the junk is still stored after the round |
| Tallies.TallyWithout | llo/protocol/channel_definitions_budget.go:50-62 | a set costs the same whichever channel is counted last, so the order of a map does not matter |
| Tallies.TallySums | llo/protocol/channel_definitions_budget.go:140-163 | streams, opts bytes, declarations and TWAP calls of a set are the sums over its channels in any order, tombstones counting for the first two only |
| Tallies.TallyMembers | llo/protocol/channel_definitions_budget.go:140-163 | a pair is aggregated exactly when a live channel other than a backfill lists it with an aggregator that is neither unset nor calculated; a stream ID is listed, observed or declared exactly when a live channel does so |
| Tallies.ClashesObserved | llo/protocol/channel_definitions_budget.go:166-181 | adding or removing one observer of a stream changes the clash total by the change of that stream's excess claims |
| Tallies.ClashesDeclared | llo/protocol/channel_definitions_budget.go:166-181 | adding or removing one declaration of a stream changes the clash total by the change of that stream's excess claims |
| Budgets.CountedCounts | llo/protocol/channel_definitions_budget.go:184-188 | a count map that drops keys at zero keeps counting a multiset under both deltas |
| Budgets.ChannelDefinitionsBudget.OwnObserved | llo/protocol/channel_definitions_budget.go:166-170 | one more or one fewer observer keeps the owner counts and the clash total those of the multisets |
| Budgets.ChannelDefinitionsBudget.OwnCalculated | llo/protocol/channel_definitions_budget.go:166-170 | one more or one fewer declaration keeps the owner counts and the clash total those of the multisets |
| Budgets.ChannelDefinitionsBudget.Apply | llo/protocol/channel_definitions_budget.go:140-163 | all counters and maps move by exactly the cost of the definition, in either direction |
| Budgets.ChannelDefinitionsBudget.constructor | llo/protocol/channel_definitions_budget.go:50-62 | a new budget measures exactly its set, in whatever order it is drained |
| Budgets.ChannelDefinitionsBudget.Replace | llo/protocol/channel_definitions_budget.go:68-82 | accepts exactly when no total ends above both its limit and where it was, with the limits spelled out; an accepted swap measures the swapped set, a refused one restores every field when the replaced definition was part of it |
| Budgets.AcceptsIff | llo/protocol/channel_definitions_budget.go:101-112 | a change is refused exactly when one of the seven totals ends above both its limit and where it was |
| Budgets.DistinctTotals | llo/protocol/channel_definitions_budget.go:89-99 | the pair and stream-ID totals are the sizes of the sets of pairs that live channels other than backfills aggregate and of IDs that live channels list |
| Budgets.RollbackRestores | llo/protocol/channel_definitions_budget.go:74-80 | a rollback restores the measured totals exactly when the replaced definition was counted before |
| Budgets.FieldsUnique | llo/protocol/channel_definitions_budget.go:21-40 | the fields are a function of the measured set: neither order nor history leaves a trace |
| Budgets.RunChanges | llo/protocol/channel_definitions_budget.go:64-82 | after any run of replacements the kept fields are those of a fresh budget of the resulting set, and the set is the one judged by recomputation |
| Budgets.RunsNeverGrow | llo/protocol/channel_definitions_budget.go:101-112 | over any run no total ends above both its limit and its start, so a set within all budgets stays within them |
| Analyses.ScanStreams | llo/protocol/channel_definitions.go:335-363 | unique IDs and first observers of a channel's streams, keeping earlier owners, and whether one has no aggregator |
| Analyses.ScanDeclared | llo/protocol/channel_definitions.go:366-380 | every declared ID either gets an owner or a collision with the owner it already has; no owner is replaced |
| Analyses.ScanShared | llo/protocol/channel_definitions.go:423-427 | one collision for each declared stream that is also observed |
| Analyses.Analyze | llo/protocol/channel_definitions.go:257-436 | the channels with no streams, more than 10,000 or an unset aggregator; without such findings every collision names the lowest channel that declares the stream, or the lowest that declares and the lowest that observes it, there are as many as claims beyond each ID's first owner, and as many unique IDs as listed |
| Analyses.NoClashIffSingleOwner | llo/protocol/channel_definitions_budget.go:35-40 | nothing clashes exactly when no stream ID is declared twice or both declared and observed |
| Analyses.AnalyzeAndMeasure | llo/protocol/channel_definitions.go:303-312 | for sets without stream findings the budget's clashes equal the collisions found and its stream IDs the unique ones |
| OutcomeRuns.LifecycleMovesForward | llo/v30/plugin_outcome.go:73-88 | over every run the stage only moves from staging to production to retired |
| OutcomeRuns.StageChangesAreDecided | llo/v30/plugin_outcome.go:73-88 | over every run staging ends in exactly the first round with a valid retirement report, and an instance out of staging is retired in exactly the first round that votes so |
| OutcomeRuns.InstanceStages | llo/v30/plugin_outcome.go:24-43 | an instance is in staging exactly while it has a predecessor and no valid report of it arrived, and is retired exactly once it voted so out of staging |
| OutcomeRuns.ReportOnlyPromotes | llo/v30/plugin_outcome.go:73-80 | out of staging a report of the predecessor changes nothing about a round |
| OutcomeRuns.CapHolds | llo/v30/plugin_outcome.go:137-171 | no run exceeds 2000 channels, whatever is voted |
| OutcomeRuns.ReachableKeepsCap | llo/v30/plugin_outcome.go:24-43 | every outcome reachable from the initial one holds at most 2000 channels |
| OutcomeRuns.WatermarkStep | llo/v30/plugin_outcome.go:180-228 | the watermark of a live channel moves to the round's time when the round was reportable and stays otherwise, also when the channel is voted again or gets calculated streams appended |
| OutcomeRuns.ReportableIff | llo/v30/plugin_outcome.go:495-580 | a channel other than a backfill is reported exactly when it is live, has its values if it demands them, and the time reaches watermark plus minimum interval in 64 bits and, at second resolution, a later second |
| OutcomeRuns.DueIsReported | llo/v30/plugin_outcome.go:604-620 | in every run every round in which a channel is due is among its reports, over the time since its watermark |
| OutcomeRuns.DueRoundsAreReported | llo/v30/plugin_outcome.go:604-620 | an interval is among the reports of a run exactly when some round was reportable over it |
| OutcomeRuns.WatermarkFollowsReportIff | llo/v30/plugin_outcome.go:180-214 | for a channel voted again with other streams the watermark follows the report exactly unless values are demanded and present for only one of the two stream lists |
| OutcomeRuns.NewChannelStarts | llo/v30/plugin_outcome.go:217-228 | a channel new to the watermarks starts at the time of its round, a backfill at zero |
| OutcomeRuns.EmptySetCarries | llo/v30/plugin_outcome.go:180-214 | while nothing is defined, voting channels in moves no watermark that was kept |
| OutcomeRuns.IntervalsTile | llo/v30/plugin_outcome.go:180-228 | over every run each reported interval of a live channel starts exactly where the stored end of the previous one is, and the watermark is where the last one ended |
| OutcomeRuns.IntervalsInOrder | llo/v30/plugin_outcome.go:552-577 | over every run without wrapping every reported interval spans at least the minimum interval or a whole second, and starts at or after the stored end of every earlier one |
| OutcomeRuns.ReportedIntervals | llo/v30/plugin_outcome.go:552-577 | a report covers at least the minimum interval when the sum does not wrap, and crosses a whole second for version 0 and second-resolution formats |
| OutcomeRuns.WrapIsExact | llo/v30/plugin_outcome.go:559-562 | the minimum interval is enforced at every time exactly when watermark plus interval stays below 2^64 or the whole-second guard leaves no later time; a report can end before it starts exactly when the sum wraps and there is no such guard |
| OutcomeRuns.WatermarkNeverRegresses | llo/v30/plugin_outcome.go:204-213 | over every run a live channel's watermark never goes back, even if the median time does |
| OutcomeRuns.WatermarksCoverDefinitions | llo/v30/plugin_outcome.go:217-239 | every defined channel has a watermark exactly when the instance is retired or no channel voted out is voted in again with room for it; when all channels fit, exactly when the two votes are disjoint |
| OutcomeRuns.RetirementFreezes | llo/v30/plugin_outcome.go:105-108 | from the retirement round on the watermarks never change and definitions only get calculated streams appended, so every later retirement report is the same |
| OutcomeRuns.WithCalculatedTwice | llo/protocol/calculated/calculated.go:878-906 | appending the calculated streams of a definition a second time changes nothing |
| OutcomeRuns.PromotionInherits | llo/v30/plugin_outcome.go:73-80 | a promoted instance starts with the predecessor's watermark of every channel not removed in that round |
| OutcomeRuns.HandoverIsGapless | llo/v30/plugin_reports.go:50-71 | across two whole runs the successor's intervals continue exactly at the end of the predecessor's last one |
| OutcomeRuns.HandoverIsExact | llo/v30/plugin_reports.go:50-71 | from version 1 on both sides the first interval of the successor starts at the very nanosecond the predecessor's last one ended |
| Votes.CountRemovals | llo/v30/plugin_outcome.go:425-427 | each observation adds one vote per channel it removes, in any order |
| Votes.CountUpdates | llo/v30/plugin_outcome.go:430-435 | each observation adds one vote per update under its hash, and the recorded definition of a hash is that of the last observation with a vote under it |
| Votes.TallyIsByObservation | llo/v30/plugin_outcome.go:419-435 | the counts are the numbers of observations that vote to retire, that remove a channel, and of updates with the hash |
| Votes.DecodeObservations | llo/v30/plugin_outcome.go:377-448 | timestamps, first valid retirement report and all vote counts are those of the decodable observations |
| Votes.FirstReportIff | llo/v30/plugin_outcome.go:390-417 | the report that counts is the one of the first observation whose attested report verifies with both versions known, on an instance with a predecessor |
| Votes.HashVotesAreExact | llo/v30/plugin_outcome.go:430-435 | the votes under a hash are exactly the observations with that definition for that channel, as far as the vote identity of the version tells |
| Votes.HashedIff | llo/v30/plugin_outcome.go:649-681 | versions 0 and 1 identify a definition by format, streams and opts, later ones by all fields |
| Backfills.FindEarliest | llo/v30/codecs.go:67-89 | the earliest row after the watermark and before the round's time, visiting rows in any order, or none if there is none |
| Backfills.SelectBackfillCandidate | llo/v30/codecs.go:39-96 | the row with the lowest key whose time in nanoseconds lies strictly between watermark and round and fits 64 bits, or none if there is none or channel, opts, target or watermark is missing |
| Backfills.BackfillReportableIff | llo/v30/plugin_outcome.go:510-534 | a backfill is reported exactly in production, while live, with opts, watermark and a resolving target, and with a row between watermark and round |
| Backfills.BackfillIsExact | llo/v30/plugin_outcome.go:184-202 | if the codec keeps the time of every row, over every run the emitted rows are strictly increasing and are exactly the representable rows between start and current watermark |
| Backfills.BackfillExactIff | llo/v30/outcome_codec_v0.go:53-72 | a run emits exactly the rows between its watermarks, in order and once each, if and only if it emits no row whose time the codec cuts |
| Backfills.StuckRow | llo/v30/outcome_codec_v0.go:53-72 | once version 0 selects a row between two seconds every later round selects it again, or nothing while the time is before it |
| Backfills.BackfillStops | llo/v30/codecs.go:67-95 | if the codec keeps the time of every row, no run emits more rows than there are |
| Backfills.BackfillRepeatsIff | llo/v30/outcome_codec_v0.go:53-72 | the row just emitted is selected again exactly when version 0 stores its time and it is not a whole second |
| Backfills.SelectEmittable | llo/dev/v31/backfill.go:54-93 | the earliest row that can be emitted, and a skip count equal to the selectable rows before it that cannot |
| Backfills.SelectEmittableCandidate | llo/dev/v31/backfill.go:26-93 | none without a live target that resolves, opts or a watermark; otherwise the earliest emittable row and the number of rows passed over |
| OutcomeRounds.DecisionIsDetermined | llo/v30/plugin_outcome.go:110-171 | the votes determine the decision whatever order maps are drained in |
| OutcomeRounds.VotesInstall | llo/v30/plugin_outcome.go:110-171 | a channel that stays takes the winning definition with the highest hash; a new or removed one is added exactly when it won and those that stay plus the winners with lower IDs are fewer than 2000 |
| OutcomeRounds.VotesAreDetermined | llo/v30/plugin_outcome.go:377-448 | with a hash that has no collisions on what it commits to, the observations determine the votes whatever order maps are drained in |
| OutcomeRounds.HonestVotesBehindDecisions | llo/v30/plugin_outcome.go:85-171 | with at most f faulty oracles nothing is retired, removed or elected without an honest vote for that, for a definition as far as the vote identity of the protocol version tells |
| OutcomeRounds.HonestVotesBehindChanges | llo/v30/plugin_outcome.go:85-171 | every committed definition was committed before or honestly voted, up to the calculated streams appended to it when it was evaluated; every removal and retirement had an honest vote |
| OutcomeRounds.LastVoterDecides | llo/v30/plugin_outcome.go:656-681 | in versions 0 and 1 the tombstone of the last voter wins, however many voted for the live channel |
| OutcomeRounds.AppendCalculated | llo/protocol/calculated/calculated.go:878-906 | exactly the evaluated live expression channels with streams and declared IDs get one calculated stream per ID in order behind the listed ones, unless the last listed one has the last ID |
| OutcomeRounds.VotedBothWays | llo/v30/plugin_outcome.go:217-239 | a channel with more than f votes to remove it and more than f to install it ends the round defined but without a watermark |
| OutcomeRounds.SplitVote | llo/v30/plugin_outcome.go:110-171 | for every f there are 2f+2 observations with f+1 votes to remove a channel and f+1 to change it |
| OutcomeRounds.IsReportable | llo/v30/plugin_outcome.go:495-580 | decides reportability in every case, for a live channel and for a backfill in terms of the fields of the outcome, with the interval and second arithmetic spelled out |
| OutcomeRounds.Carry | llo/v30/plugin_outcome.go:182-214 | the watermark a channel takes over, for backfill, reported and unreported channels |
| OutcomeRounds.FillWatermarks | llo/v30/plugin_outcome.go:217-239 | new channels get a watermark, existing ones keep theirs, removed ones lose it |
| OutcomeRounds.InstallVoted | llo/v30/plugin_outcome.go:137-171 | installs exactly the definitions with more than f votes, in order, replacing freely and adding only below the cap |
| OutcomeRounds.OrderUpdates | llo/v30/plugin_outcome.go:120-136 | the voted definitions by channel and hash, each once |
| OutcomeRounds.NextOutcome | llo/v30/plugin_outcome.go:19-375 | fails exactly on too few observations or none that decodes; otherwise the outcome is the decided step. The time is the median of the decoded ones by counting; staging ends exactly with a report; retired exactly when it was, or when more than f vote so out of staging or with a report |
| OutcomeRounds.AgreedTimeBetweenHonest | llo/v30/plugin_outcome.go:683-686 | with at most f faulty oracles the agreed time lies between two honest timestamps, even if faulty observations do not decode |
| OutcomeRounds.AgreedTimeByCounting | llo/v30/plugin_outcome.go:683-686 | more than half of the decoded observations are at most the agreed time, and the rest, or more, at least it |
| OutcomeRounds.ReportableChannels | llo/v30/plugin_outcome.go:604-620 | exactly the reportable channels, ascending |
| OutcomeRounds.BuildReports | llo/v30/plugin_reports.go:48-160 | one report per reportable channel in order: a live one from its watermark to the round's time, a backfill with the time of its row, a specimen exactly outside production; and exactly when retired the retirement report with version and watermarks |
| OutcomeCodecs.EncodeSeconds | llo/v30/outcome_codec_v0.go:52-70 | version 0 keeps the whole seconds of every watermark, and fails exactly when one does not fit 32 bits |
| OutcomeCodecs.DecodeSeconds | llo/v30/outcome_codec_v0.go:100-108 | every watermark is its seconds in nanoseconds again |
| OutcomeCodecs.Persist | llo/v30/outcome_codec_v0.go:23-98 | what the next round decodes is the stored outcome of the state machine: later versions keep everything, version 0 rounds watermarks down to seconds and fails exactly beyond 32 bits of seconds or 63 bits of time |
| Convergence.SubtractChannelDefinitions | llo/protocol/channel_definitions.go:465-488 | the channels of one set absent from the other, keeping exactly the lowest IDs up to the limit |
| Convergence.VoteUpdates | llo/v30/plugin_observation.go:104-121 | votes for exactly the five lowest channels that differ from the desired set, as desired |
| Convergence.VoteOnChannels | llo/v30/plugin_observation.go:95-121 | an honest oracle's removals and updates, at most five each |
| Convergence.HonestVotesAgree | llo/v30/plugin_observation.go:75-80 | honest oracles that want the same set cast identical votes |
| Convergence.HonestMajorityDecides | llo/v30/plugin_outcome.go:110-171 | with 2f+1 observations, at most f faulty, exactly the honest removals and exactly the honest updates are decided, as desired |
| Validations.VerifyChannelDefinitions | llo/protocol/channel_definitions.go:257-436 | accepts a set exactly when it has at most 2000 channels and 10,000 stream IDs, every live channel has 1 to 10,000 streams with aggregators set and satisfies its codec, and every live backfill names a suitable target in the set |
| Validations.ValidateChannelVotes | llo/v30/plugin.go:302-336 | accepts channel votes exactly when each side has at most five and, if there are updates, the committed set with them merged in passes the checks |
| Convergence.DecisionIsExact | llo/v30/plugin_outcome.go:110-171 | a decision of honest votes with room for it removes and installs exactly the voted channels, despite the cap |
| Convergence.VoteFitsIff | llo/v30/plugin.go:318-336 | the next honest vote fits exactly when it is empty or committed channels plus newly added ones are at most 2000 |
| ConvergenceRuns.RunsConverge | llo/v30/plugin_observation.go:82-121 | over every run of accepted rounds, whatever is evaluated, five channels too many go each round; if no evaluation changes a desired definition at least five differing ones are settled too and after enough rounds the set is the desired one; if none changes a committed one either, exactly five and exactly then |
| ConvergenceRuns.RunsFollowPath | llo/v30/plugin_observation.go:82-121 | every run of accepted rounds with at most f faulty oracles commits exactly the sets of the path |
| ConvergenceRuns.PathCounts | llo/v30/plugin_observation.go:95-121 | how many channels too many and differing are left after each number of rounds |
| ConvergenceRuns.PathArrives | llo/v30/plugin_observation.go:95-121 | if no evaluation changes a desired definition the path is at the desired set after enough rounds, and not earlier if none changes a committed one |
| ConvergenceRuns.SettlesIff | llo/protocol/calculated/calculated.go:878-906 | given enough rounds the path ends at the desired set whatever is evaluated if and only if no evaluation changes a desired definition |
| ConvergenceRuns.UnstableDiffers | llo/v30/plugin_observation.go:112-114 | a differing channel whose desired definition an evaluation changes differs ever after if it is evaluated |
| ConvergenceRuns.Starved | llo/v30/plugin_observation.go:112-121 | five such channels on lower IDs keep every higher channel from being added |
| ConvergenceRuns.SixthNeverAdded | llo/v30/plugin_observation.go:112-121 | from an empty set, five expression channels with unlisted calculated streams keep the sixth channel out in every run |
| ConvergenceRuns.RoundPossibleIff | llo/v30/plugin.go:302-336 | 2f+1 accepted observations with at most f faulty ones exist exactly when honest votes on that set are accepted |
| ConvergenceRuns.RoundFollows | llo/v30/plugin_outcome.go:110-171 | a round on accepted observations takes the committed set exactly one step along the path |
| ConvergenceRuns.HonestRound | llo/v30/plugin_outcome.go:19-375 | a round of honest oracles happens exactly when their vote is accepted, and is a step of the state machine |
| ConvergenceRuns.RunHonestRounds | llo/v30/plugin.go:302-336 | all of a number of rounds happen exactly when the honest vote on every path set before the last is accepted |
| ConvergenceRuns.VoteFitsOnward | llo/v30/plugin.go:318-336 | after a round of votes that fit the next honest vote fits again, whatever is evaluated |
| ConvergenceRuns.VoteAcceptedIff | llo/v30/plugin.go:302-336 | between an admissible start and the desired set an honest vote is accepted exactly when it fits |
| ConvergenceRuns.AllVotesAcceptedIff | llo/v30/plugin.go:302-336 | from an admissible start the honest votes on all path sets are accepted exactly when the first one fits |
| Convergence.ReplacingAtTheCapIsRejected | llo/v30/plugin.go:318-336 | at the cap every honest vote that replaces one channel by another is rejected although the desired set fits |
| Convergence.NewStreamAtTheLimitIsRejected | llo/protocol/channel_definitions.go:232-234 | at the limit of stream IDs a vote for a new channel with one more is rejected |
| Convergence.TargetBehindTheBatchIsRejected | llo/protocol/history_backfill.go:257-260 | a batch with a backfill whose uncommitted target has at least five lower differing channels is rejected |
| Convergence.StrandedBackfillIsRejected | llo/protocol/history_backfill.go:257-260 | once a committed backfill has lost its target every vote that does not repair it is rejected |
| Medians.RankAtMost | llo/protocol/aggregators.go:100-111 | the rank-k element is at most m exactly when more than k elements are |
| Medians.RankAtLeast | llo/protocol/aggregators.go:100-111 | the rank-k element is at least m exactly when at least n-k elements are |
| Medians.RankBetweenHonest | llo/protocol/aggregators.go:95-111 | a rank at least b from both ends lies between two honest elements when at most b are faulty |
| Medians.RankMonotone | llo/protocol/aggregators.go:279-290 | if one key never exceeds another, neither does its rank-k element, however the list is re-sorted |
| Aggregators.CanonicalDecimal | llo/protocol/aggregators.go:226-242 | terminates, keeps the value, strips zeros as far as the exponent bound allows |
| Aggregators.CanonicalIsUnique | llo/protocol/aggregators.go:220-225 | within the exponent bound canonical forms are equal exactly when the numbers are |
| Aggregators.EqualNumbersVoteAlike | llo/protocol/aggregators.go:199-203 | values vote alike exactly when they are of one type and numerically equal, a quote part by part, a timestamped value by what is inside whatever its time |
| Aggregators.MostCommonType | llo/protocol/aggregators.go:244-263 | all values of the most common type in order, ties to the lowest type, missing values ignored |
| Aggregators.MostCommonIff | llo/protocol/aggregators.go:244-263 | decimals are the most common type when neither other is more frequent, quotes when more frequent than decimals and no less than timestamped, timestamped when more frequent than both |
| Aggregators.MedianAggregator | llo/protocol/aggregators.go:52-115 | succeeds exactly when enough decimals stand behind it; more than half of the decimals and quotes, a quote by its benchmark, are at most the result and the rest, or more, at least it; when most are timestamped, the same for the decimals inside and for the times counted as OCR3.0 or OCR3.1 does |
| Aggregators.MedianBetweenHonest | llo/protocol/aggregators.go:92-99 | with floor 2b+1 and at most b faulty contributions value and timestamp each lie between two honest ones, whatever mix of types was sent; for OCR3.0 as long as no honest value is a skipped one |
| Aggregators.SkippedTimestampIff | llo/protocol/aggregators.go:66-73 | the OCR3.0 timestamp is not before every value exactly when at most half of the counted times are of skipped values, and zero otherwise |
| Aggregators.QuoteAggregator | llo/protocol/aggregators.go:265-292 | succeeds exactly when enough quotes have bid, benchmark and ask in order; each part of the result is the median of that part over those by counting although the list is re-sorted in place, the result is in order, and each part lies between honest ones |
| Aggregators.CountVotes | llo/protocol/aggregators.go:137-151 | counts contributions by their canonical serialisation, failing exactly when a timestamped value is empty |
| Aggregators.PickMode | llo/protocol/aggregators.go:152-163 | the most voted key, ties to the lowest |
| Aggregators.ModeAggregator | llo/protocol/aggregators.go:127-179 | succeeds exactly when some value is the mode of the most common type with enough votes; with a lossless codec exactly when that type holds no empty value and enough contributions vote alike; the empty-value error exactly when it does, too few votes otherwise |
| Aggregators.ModeByCounting | llo/protocol/aggregators.go:165-167 | the mode is of the most common type with at least the minimum of votes, nothing of that type has more, nothing with a lower key as many, and its time is the middle one of those that agreed |
| Aggregators.HoldsNilIff | llo/protocol/aggregators.go:137-151 | the vote fails on an empty value exactly when most contributions are timestamped and one of them holds nothing |
| Aggregators.ModeIsPermutationInvariant | llo/protocol/aggregators.go:127-179 | permuting the contributions changes nothing about the answer, value or error |
| Mercury.ParseAll | mercury/v3/mercury.go:233-271 | exactly the observations that claim valid but disordered prices are discarded |
| Mercury.GetConsensusPrice | mercury/aggregate_functions.go:23-86 | the rank median of the valid prices, failing exactly below f+1 of them |
| Mercury.ConsensusInOrder | mercury/aggregate_functions.go:23-86 | medians of bid, benchmark and ask taken separately are in order again |
| Mercury.BuildPrices | mercury/v3/mercury.go:386-399 | the three prices are the rank medians over the observations claiming valid prices, fail together exactly below f+1 of them, and are in order |
| Mercury.CheckReport | mercury/v3/mercury.go:426-437 | exactly with f+1 ordered claims of valid prices each price is their median by counting; every check in terms of prices and bounds; all pass exactly when bid and ask lie within the bounds, and the ordering checks never fail on their own |
| Freshness.WindowIsTail | llo/dev/v31/freshness.go:102-110 | over every run of rounds the bounded window is the tail of the full log |
| Freshness.WindowAnswersLikeTheLog | llo/dev/v31/freshness.go:112-120 | the window answers as the full log for every round it covers, not at all for others, and once full covers every round within the age bound |
| Freshness.RoundIntervalEstimate | llo/dev/v31/freshness.go:128-142 | the median by counting of the rises between consecutive timestamps, clamped to 63 bits and floored at the configured interval; zero exactly when nothing rises |
| Freshness.MedianAbsorbsStalls | llo/dev/v31/freshness.go:122-127 | while fewer than half of the intervals are stalls the estimate's median lies between ordinary intervals |
| Freshness.AgeBoundIsExact | llo/dev/v31/freshness.go:163 | a value is stale by time exactly when it is older than six round intervals, for every judge with that interval, if and only if the product fits 64 bits |
| Freshness.AgeBoundIsPositive | llo/dev/v31/freshness.go:163 | whatever the interval, a wrapped product is never zero, so the age check is never disabled by overflow |
| Freshness.SelectFresh | llo/dev/v31/freshness.go:167-206 | the three-way decision of the source is: the fresh values if they reach the floor, else everything not stale by time |
| Freshness.ChosenIff | llo/dev/v31/freshness.go:167-206 | in the order they came, exactly the values gathered at most six rounds ago, in the window and within the age bound if those reach the floor, else all but those beyond the age bound |
| Freshness.SelectFreshContributions | llo/dev/v31/freshness.go:155-209 | the same for every stream, in whatever order they come |
| Freshness.ChosenIsNeverTimeStale | llo/dev/v31/freshness.go:43-49 | whatever is chosen is an order-preserving subsequence with nothing older than six round intervals, even where that product wraps |

## Left out

- HistoryStores.HistoryStore.Append: the stored working copies are values that the store replaces, so two references to one copy are not modelled.
- HistoryRounds.Round: required depths, agreed values and reads come in as inputs, because expression analysis and aggregation of that round are separate code; depths are set before appends, as the state transition does.
- HistoryRuns.RunRounds: a run has fewer than 2^64 rounds, which keeps sequence numbers within 64 bits.
- Budgets.ChannelDefinitionsBudget.Apply: what decoding the opts yields is a given function of the definition.
- Analyses.Analyze: opts size, feed IDs, codec verdicts and backfill checks of the analysis are not modelled; they are independent of the stream-ID part.
- OutcomeRounds.NextOutcome: which (stream, aggregator) pairs have an aggregate and which expression channels were evaluated are inputs of the round.
- OutcomeRuns.IntervalsTile: reports dropped when a codec fails to encode them are not modelled.
- OutcomeRounds.BuildReports: stream values, encoding and the start time of a backfill report are not modelled.
- ConvergenceRuns.RunsConverge: honest oracles are taken to want one desired set that their admission-only checks accept; those checks are not modelled.
- ConvergenceRuns.VoteAcceptedIff: is about admissible starts only, where every backfill's target is committed as desired or added before it; for other starts acceptance itself is the condition of the run results.
- Validations.VerifyChannelDefinitions: codec verdicts, decoded backfill targets and the fit of a backfill to its target are given functions of the definitions; admission-only findings are not part of this check.
- Backfills.SelectEmittableCandidate: decoding opts, time resolutions and building a row's values are given functions of the definitions.
- Aggregators.ModeAggregator: serialisation is a given lossless codec with ordered keys; empty serialised values are not modelled.
- Protobuf of chunks, headers and outcomes, JSON, compression and hash bytes: encoders are injective functions and decoders are validators on datatypes; only the record, whose size is limited, has its wire form.
- Decoded-opts, analysis and channel caches: they memoise pure functions and would only add easy invariants.
- Blob pump, transmitters, transports, persistence loops, telemetry and configuration parsing: I/O and timing.
- `mercury/queue.go`: its heap is foreign code, and its comparator is not the order its comment intends.
- Signature checks of retirement reports and Mercury reports: foreign cryptography; verification is a given function here.
- Mercury fees and the other Mercury versions: they would add rounding rules of a foreign library or duplicates.
- Outcome carry-forward of timestamped aggregates: a per-value newer-wins rule that would only add easy members.
